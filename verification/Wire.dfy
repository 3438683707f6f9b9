/** Message headers and the simple specification of framing (wire.go). */
module Wire {
  import opened Bytes

  const HEADER_SIZE := 8
  const DEFAULT_MAX_MESSAGE_SIZE: u32 := 0x10_0000
  const READ_CHUNK_SIZE := 0x1_0000

  datatype HeaderFault = ShortHeader | HeaderSize | MisalignedSize | SizeOverLimit

  datatype Header =
    | Header(obj: u32, opcode: u16, size: u32)
    | BadHeader(fault: HeaderFault)

  datatype Frame = Frame(obj: u32, opcode: u16, body: seq<byte>)

  function ParseHeader(hdr: seq<byte>, maxSize: u32): Header {
    if |hdr| < HEADER_SIZE then BadHeader(ShortHeader) else
    var obj := WordAt(hdr);
    var size: u32 := HalfAt(hdr[6..]);
    var opcode := HalfAt(hdr[4..]);
    if size < HEADER_SIZE then BadHeader(HeaderSize)
    else if !Aligned(size) then BadHeader(MisalignedSize)
    else if maxSize > 0 && size > maxSize then BadHeader(SizeOverLimit)
    else Header(obj, opcode, size)
  }

  /** The source takes size and opcode out of one word, `sizeOpcode >> 16` and `sizeOpcode & 0xffff`, and tests
  `size % 4`: the halves and the alignment test above. */
  lemma HeaderFields(hdr: seq<byte>, maxSize: u32)
    requires |hdr| >= HEADER_SIZE
    ensures HalfAt(hdr[6..]) == WordAt(hdr[4..]) / 0x1_0000 && HalfAt(hdr[4..]) == WordAt(hdr[4..]) % 0x1_0000
    ensures var size := HalfAt(hdr[6..]);
            && (ParseHeader(hdr, maxSize).Header? <==>
                  HEADER_SIZE <= size && size % 4 == 0 && (maxSize == 0 || size <= maxSize))
            && (ParseHeader(hdr, maxSize).Header? ==> ParseHeader(hdr, maxSize).size == size)
  {
    assert hdr[6..] == hdr[4..][2..];
    HalvesAreShifts(hdr[4..]);
    AlignedIsMod(HalfAt(hdr[6..]));
  }

  /** The header `sendRequest` writes: object, then size in the upper and opcode in the lower half. */
  function PutHeader(obj: u32, opcode: u16, size: u16): (hdr: seq<byte>)
    ensures |hdr| == HEADER_SIZE
  {
    Word(obj) + Word(size * 0x1_0000 + opcode)
  }

  lemma HeaderRoundTrip(obj: u32, opcode: u16, size: u16, rest: seq<byte>, maxSize: u32)
    requires size >= HEADER_SIZE && Aligned(size)
    requires maxSize == 0 || size <= maxSize
    ensures ParseHeader(PutHeader(obj, opcode, size) + rest, maxSize) == Header(obj, opcode, size)
  {
    var sizeOpcode := size * 0x1_0000 + opcode;
    var tail := Word(sizeOpcode) + rest;
    var hdr := PutHeader(obj, opcode, size) + rest;
    assert hdr == Word(obj) + tail && hdr[4..] == tail;
    WordRoundTrip(obj, tail);
    WordRoundTrip(sizeOpcode, rest);
    HeaderFields(hdr, maxSize);
    HalvesOfSum(size, opcode);
  }

  lemma HalvesOfSum(size: u16, opcode: u16)
    ensures (size * 0x1_0000 + opcode) / 0x1_0000 == size && (size * 0x1_0000 + opcode) % 0x1_0000 == opcode
  {
  }

  /** What `readFrame` reports: a frame and what it left unread, or why there is none. */
  datatype ReadResult =
    | Framed(frame: Frame, rest: seq<byte>)
    | EndOfStream            // io.EOF: nothing of the header (or of the body) arrived
    | Truncated              // io.ErrUnexpectedEOF
    | Malformed(fault: HeaderFault)

  /** `readFrame` on a reader that holds exactly the bytes `s`. */
  function ReadFrame(s: seq<byte>, maxSize: u32): (r: ReadResult)
    ensures r.Framed? ==> |r.rest| < |s|
  {
    var max := if maxSize == 0 then DEFAULT_MAX_MESSAGE_SIZE else maxSize;
    if s == [] then EndOfStream
    else if |s| < HEADER_SIZE then Truncated
    else match ParseHeader(s[..HEADER_SIZE], max)
      case BadHeader(fault) => Malformed(fault)
      case Header(obj, opcode, size) =>
        if size == HEADER_SIZE then Framed(Frame(obj, opcode, []), s[HEADER_SIZE..])
        else if |s| == HEADER_SIZE then EndOfStream
        else if |s| < size then Truncated
        else Framed(Frame(obj, opcode, s[HEADER_SIZE..size]), s[size..])
  }

  /** Repeated `readFrame`: the first `k` frames of `s` and the bytes after them. */
  datatype Taken = Taken(frames: seq<Frame>, rest: seq<byte>) | TooFew

  function TakeFrames(k: nat, s: seq<byte>, maxSize: u32): (t: Taken)
    ensures t.Taken? ==> |t.frames| == k
  {
    if k == 0 then Taken([], s) else
    match ReadFrame(s, maxSize)
    case Framed(f, rest) =>
      (match TakeFrames(k - 1, rest, maxSize)
       case Taken(fs, r) => Taken([f] + fs, r)
       case TooFew => TooFew)
    case _ => TooFew
  }

  /** A complete frame, or a malformed header, does not change when more bytes arrive. */
  lemma ReadFrameExtend(s: seq<byte>, more: seq<byte>, maxSize: u32)
    ensures ReadFrame(s, maxSize).Framed? ==>
              ReadFrame(s + more, maxSize) ==
              Framed(ReadFrame(s, maxSize).frame, ReadFrame(s, maxSize).rest + more)
    ensures ReadFrame(s, maxSize).Malformed? ==> ReadFrame(s + more, maxSize) == ReadFrame(s, maxSize)
  {
    if |s| >= HEADER_SIZE {
      var max := if maxSize == 0 then DEFAULT_MAX_MESSAGE_SIZE else maxSize;
      assert (s + more)[..HEADER_SIZE] == s[..HEADER_SIZE];
      var h := ParseHeader(s[..HEADER_SIZE], max);
      if h.Header? && |s| >= h.size {
        assert (s + more)[HEADER_SIZE..h.size] == s[HEADER_SIZE..h.size];
        assert (s + more)[h.size..] == s[h.size..] + more;
      }
    }
  }

  lemma {:induction false} TakeFramesExtend(k: nat, s: seq<byte>, more: seq<byte>, maxSize: u32)
    requires TakeFrames(k, s, maxSize).Taken?
    ensures TakeFrames(k, s + more, maxSize) ==
            Taken(TakeFrames(k, s, maxSize).frames, TakeFrames(k, s, maxSize).rest + more)
  {
    if k > 0 {
      ReadFrameExtend(s, more, maxSize);
      TakeFramesExtend(k - 1, ReadFrame(s, maxSize).rest, more, maxSize);
    }
  }

  lemma {:induction false} TakeFramesSnoc(k: nat, s: seq<byte>, maxSize: u32)
    requires TakeFrames(k, s, maxSize).Taken?
    requires ReadFrame(TakeFrames(k, s, maxSize).rest, maxSize).Framed?
    ensures var next := ReadFrame(TakeFrames(k, s, maxSize).rest, maxSize);
            TakeFrames(k + 1, s, maxSize) == Taken(TakeFrames(k, s, maxSize).frames + [next.frame], next.rest)
  {
    var next := ReadFrame(TakeFrames(k, s, maxSize).rest, maxSize);
    if k == 0 {
      assert TakeFrames(0, next.rest, maxSize) == Taken([], next.rest);
    } else {
      var first := ReadFrame(s, maxSize);
      TakeFramesSnoc(k - 1, first.rest, maxSize);
      assert TakeFrames(k + 1 - 1, first.rest, maxSize).Taken?;
      assert ([first.frame] + TakeFrames(k - 1, first.rest, maxSize).frames) + [next.frame]
          == [first.frame] + (TakeFrames(k - 1, first.rest, maxSize).frames + [next.frame]);
    }
  }

  /** Taking fewer frames takes a prefix of them. */
  lemma {:induction false} TakeFramesPrefix(j: nat, k: nat, s: seq<byte>, maxSize: u32)
    requires j <= k && TakeFrames(k, s, maxSize).Taken?
    ensures TakeFrames(j, s, maxSize).Taken?
    ensures TakeFrames(j, s, maxSize).frames == TakeFrames(k, s, maxSize).frames[..j]
  {
    if j > 0 {
      var first := ReadFrame(s, maxSize);
      TakeFramesPrefix(j - 1, k - 1, first.rest, maxSize);
    }
  }

  /** Two receivers that have seen any two prefixes `s` and `s + more` of one stream, however each was
  cut into reads, never disagree on a frame: the shorter frame list is a prefix of the longer. */
  lemma CutIndependence(j: nat, k: nat, s: seq<byte>, more: seq<byte>, maxSize: u32)
    requires TakeFrames(j, s, maxSize).Taken? && TakeFrames(k, s + more, maxSize).Taken?
    ensures var a := TakeFrames(j, s, maxSize).frames;
            var b := TakeFrames(k, s + more, maxSize).frames;
            if j <= k then a <= b else b <= a
  {
    TakeFramesExtend(j, s, more, maxSize);
    TakeFramesPrefix(if j <= k then j else k, if j <= k then k else j, s + more, maxSize);
  }

  /** No complete message is longer than the 16-bit size field allows, in whole words. */
  lemma UnframedIsShort(s: seq<byte>, maxSize: u32)
    requires !ReadFrame(s, maxSize).Framed? && !ReadFrame(s, maxSize).Malformed?
    ensures |s| <= 65531
  {
    if |s| >= HEADER_SIZE {
      var max := if maxSize == 0 then DEFAULT_MAX_MESSAGE_SIZE else maxSize;
      var h := ParseHeader(s[..HEADER_SIZE], max);
      HeaderFields(s[..HEADER_SIZE], max);
      assert h.size < 0x1_0000 && h.size % 4 == 0;
    }
  }
}

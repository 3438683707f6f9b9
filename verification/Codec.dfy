/** The printer (client.go, `sendRequest` and the marshallers) and the parser (core.go, the `Event` decoders),
written separately in the source, and the proof that they agree with each other and with the validator. */
module Codec {
  import opened Bytes
  import opened Wire
  import opened Signature

  // ---------------------------------------------------------------- printer

  /** A typed request argument; `ArgInvalid` is the zero `Arg`. */
  datatype Arg =
    | ArgInvalid
    | ArgWord(word: u32)
    | ArgString(str: seq<byte>)
    | ArgArray(arr: seq<byte>)
    | ArgObject(id: Option<u32>)
    | ArgFD

  /** A boxed argument, by the dynamic type `marshalArg` switches on. */
  datatype Boxed =
    | BUint32(u: u32)
    | BInt32(i: int32)
    | BFixed(f: int32)
    | BString(s: seq<byte>)
    | BBytes(b: seq<byte>)
    | BObject(id: u32)
    | BNil
    | BUintptr
    | BOther

  type int32 = x: int | -0x8000_0000 <= x < 0x8000_0000

  datatype MarshalFault = StringTooLong | ArrayTooLong | UnsupportedArgument | InvalidMessageSize

  const MAX_VALUE := 0xffff - HEADER_SIZE

  /** The wire bytes of one argument, or `None` when marshalling it is an error. */
  function EncodeArg(a: Arg): Option<seq<byte>> {
    match a
    case ArgInvalid => None
    case ArgWord(w) => Some(Word(w))
    case ArgString(s) =>
      if |s| + 1 > MAX_VALUE then None
      else Some(Word(|s| + 1) + s + [0] + Zeros(PadLen(|s| + 1)))
    case ArgArray(v) =>
      if |v| > MAX_VALUE then None
      else Some(Word(|v|) + v + Zeros(PadLen(|v|)))
    case ArgObject(id) => Some(Word(if id.Some? then id.value else 0))
    case ArgFD => Some([])
  }

  /** The typed argument a boxed one stands for. */
  function Unbox(b: Boxed): Arg {
    match b
    case BUint32(u) => ArgWord(u)
    case BInt32(i) => ArgWord(ToWord(i))
    case BFixed(f) => ArgWord(ToWord(f))
    case BString(s) => ArgString(s)
    case BBytes(v) => ArgArray(v)
    case BObject(id) => ArgObject(Some(id))
    case BNil => ArgObject(None)
    case BUintptr => ArgFD
    case BOther => ArgInvalid
  }

  function UnboxAll(bs: seq<Boxed>): seq<Arg> {
    seq(|bs|, i requires 0 <= i < |bs| => Unbox(bs[i]))
  }

  function Encodings(args: seq<Arg>): (es: seq<Option<seq<byte>>>)
    ensures |es| == |args| && forall i | 0 <= i < |args| :: es[i] == EncodeArg(args[i])
  {
    seq(|args|, i requires 0 <= i < |args| => EncodeArg(args[i]))
  }

  function EncodeBody(args: seq<Arg>): Option<seq<byte>> {
    Join(Encodings(args))
  }

  /** One whole message, or `None` when an argument or the total size is refused. */
  function EncodeMessage(obj: u32, opcode: u16, args: seq<Arg>): Option<seq<byte>> {
    match EncodeBody(args)
    case None => None
    case Some(body) =>
      var size := HEADER_SIZE + |body|;
      if size > 0xFFFF || !Aligned(size) then None
      else Some(PutHeader(obj, opcode, size) + body)
  }

  /** `bytes.Buffer`: the mutable buffer the marshallers append to. */
  class Buffer {
    var data: seq<byte>

    constructor ()
      ensures data == []
    {
      data := [];
    }

    method Write(s: seq<byte>)
      modifies this
      ensures data == old(data) + s
    {
      data := data + s;
    }

    method PutUint32(v: u32)
      modifies this
      ensures data == old(data) + Word(v)
    {
      Write(Word(v));
    }

    /** The padding loop shared by `putString` and `putArray`. */
    method Pad(n: nat)
      modifies this
      ensures data == old(data) + Zeros(n)
    {
      var i := n;
      while i > 0
        invariant 0 <= i <= n
        invariant data == old(data) + Zeros(n - i)
      {
        Write([0]);
        i := i - 1;
      }
    }

    method PutString(v: seq<byte>) returns (fault: Option<MarshalFault>)
      modifies this
      ensures fault.None? <==> EncodeArg(ArgString(v)).Some?
      ensures data == if fault.None? then old(data) + EncodeArg(ArgString(v)).value else old(data)
    {
      var strlen := |v| + 1;
      if strlen > 0xffff - HEADER_SIZE {
        return Some(StringTooLong);
      }
      PutUint32(strlen);
      Write(v);
      Write([0]);
      PaddingAgrees(strlen);
      Pad((4 - strlen % 4) % 4);
      fault := None;
    }

    method PutArray(v: seq<byte>) returns (fault: Option<MarshalFault>)
      modifies this
      ensures fault.None? <==> EncodeArg(ArgArray(v)).Some?
      ensures data == if fault.None? then old(data) + EncodeArg(ArgArray(v)).value else old(data)
    {
      var arrlen := |v|;
      if arrlen > 0xffff - HEADER_SIZE {
        return Some(ArrayTooLong);
      }
      PutUint32(arrlen);
      Write(v);
      PaddingAgrees(arrlen);
      Pad((4 - arrlen % 4) % 4);
      fault := None;
    }

    /** `marshalValue`. */
    method MarshalValue(a: Arg) returns (fault: Option<MarshalFault>)
      modifies this
      ensures fault.None? <==> EncodeArg(a).Some?
      ensures data == if fault.None? then old(data) + EncodeArg(a).value else old(data)
    {
      fault := None;
      match a
      case ArgWord(w) => PutUint32(w);
      case ArgString(s) => fault := PutString(s);
      case ArgArray(v) => fault := PutArray(v);
      case ArgObject(id) =>
        if id.Some? {
          PutUint32(id.value);
        } else {
          PutUint32(0);
        }
      case ArgFD =>
      case ArgInvalid => fault := Some(UnsupportedArgument);
    }

    /** `marshalArg`: the boxed path writes the bytes of the typed argument it stands for. */
    method MarshalArg(b: Boxed) returns (fault: Option<MarshalFault>)
      modifies this
      ensures fault.None? <==> EncodeArg(Unbox(b)).Some?
      ensures data == if fault.None? then old(data) + EncodeArg(Unbox(b)).value else old(data)
    {
      fault := None;
      match b
      case BUint32(u) => PutUint32(u);
      case BInt32(i) => PutUint32(ToWord(i));
      case BFixed(f) => PutUint32(ToWord(f));
      case BString(s) => fault := PutString(s);
      case BBytes(v) => fault := PutArray(v);
      case BObject(id) => PutUint32(id);
      case BNil => PutUint32(0);
      case BUintptr =>
      case BOther => fault := Some(UnsupportedArgument);
    }
  }

  /** The loop of `sendRequest` over boxed arguments. */
  method MarshalArgs(buf: Buffer, args: seq<Boxed>) returns (fault: Option<MarshalFault>)
    modifies buf
    ensures fault.None? <==> EncodeBody(UnboxAll(args)).Some?
    ensures fault.None? ==> buf.data == old(buf.data) + EncodeBody(UnboxAll(args)).value
  {
    ghost var start := buf.data;
    ghost var es := Encodings(UnboxAll(args));
    for i := 0 to |args|
      invariant Join(es[..i]).Some? && buf.data == start + Join(es[..i]).value
    {
      JoinStep(es, i);
      fault := buf.MarshalArg(args[i]);
      if fault.Some? {
        return;
      }
      Reassociate(start, Join(es[..i]).value, es[i].value);
    }
    assert es[..|args|] == es;
    fault := None;
  }

  /** The loop of `sendRequest` over typed arguments. */
  method MarshalValues(buf: Buffer, vals: seq<Arg>) returns (fault: Option<MarshalFault>)
    modifies buf
    ensures fault.None? <==> EncodeBody(vals).Some?
    ensures fault.None? ==> buf.data == old(buf.data) + EncodeBody(vals).value
  {
    ghost var start := buf.data;
    ghost var es := Encodings(vals);
    for i := 0 to |vals|
      invariant Join(es[..i]).Some? && buf.data == start + Join(es[..i]).value
    {
      JoinStep(es, i);
      fault := buf.MarshalValue(vals[i]);
      if fault.Some? {
        return;
      }
      Reassociate(start, Join(es[..i]).value, es[i].value);
    }
    assert es[..|vals|] == es;
    fault := None;
  }

  lemma EncodeBodyConcat(a: seq<Arg>, b: seq<Arg>)
    ensures EncodeBody(a + b) ==
            if EncodeBody(a).Some? && EncodeBody(b).Some? then Some(EncodeBody(a).value + EncodeBody(b).value) else None
  {
    assert Encodings(a + b) == Encodings(a) + Encodings(b);
    JoinConcat(Encodings(a), Encodings(b));
  }

  /** The marshalling half of `sendRequest`: boxed arguments, then typed ones, then the header. */
  method MarshalRequest(obj: u32, opcode: u16, args: seq<Boxed>, vals: seq<Arg>)
    returns (fault: Option<MarshalFault>, data: seq<byte>)
    ensures fault.None? <==> EncodeMessage(obj, opcode, UnboxAll(args) + vals).Some?
    ensures fault.None? ==> EncodeMessage(obj, opcode, UnboxAll(args) + vals) == Some(data)
  {
    EncodeBodyConcat(UnboxAll(args), vals);
    data := [];
    var buf := new Buffer();
    buf.Write(Zeros(HEADER_SIZE));
    fault := MarshalArgs(buf, args);
    if fault.Some? {
      return;
    }
    fault := MarshalValues(buf, vals);
    if fault.Some? {
      return;
    }
    var bufLen := |buf.data|;
    AlignedIsMod(bufLen);
    if bufLen > 0xFFFF || bufLen % 4 != 0 {
      return Some(InvalidMessageSize), data;
    }
    assert buf.data[HEADER_SIZE..] == EncodeBody(UnboxAll(args) + vals).value;
    data := PutHeader(obj, opcode, bufLen) + buf.data[HEADER_SIZE..];
  }

  // ----------------------------------------------------------------- parser

  datatype Value = VWord(word: u32) | VBytes(bytes: seq<byte>) | VFd

  /** One decoder call: the value, the new `Event.offset`, and whether a truncated-data fallback was taken. */
  datatype Decoded = Decoded(value: Value, offset: nat, fallback: bool)

  function Uint32At(data: seq<byte>, offset: nat): Decoded {
    if offset + 4 > |data| then Decoded(VWord(0), offset, true)
    else Decoded(VWord(WordAt(data[offset..])), offset + 4, false)
  }

  /** Go's `uint32` sum of length and padding, added to the offset as an `int`. */
  function Advance(offset: nat, n: u32): nat {
    offset + WrapAdd(n, PadLen(n))
  }

  function StringAt(data: seq<byte>, offset: nat): Decoded {
    if offset + 4 > |data| then Decoded(VBytes([]), offset, true) else
    var n := WordAt(data[offset..]);
    var start := offset + 4;
    if n == 0 then Decoded(VBytes([]), start, false)
    else if start + n > |data| then Decoded(VBytes([]), start, true)
    else Decoded(VBytes(data[start..start + n - 1]), Advance(start, n), false)
  }

  function ArrayAt(data: seq<byte>, offset: nat): Decoded {
    if offset + 4 > |data| then Decoded(VBytes([]), offset, true) else
    var n := WordAt(data[offset..]);
    var start := offset + 4;
    if n == 0 then Decoded(VBytes([]), start, false)
    else if start + n > |data| then Decoded(VBytes([]), start, true)
    else Decoded(VBytes(data[start..start + n]), Advance(start, n), false)
  }

  function DecodeAt(k: Kind, data: seq<byte>, offset: nat): Decoded {
    match k
    case KString => StringAt(data, offset)
    case KArray => ArrayAt(data, offset)
    case KFd => Decoded(VFd, offset, false)
    case _ => Uint32At(data, offset)
  }

  /** Decoding one value for each kind, in order. */
  function DecodeAll(ks: seq<Kind>, data: seq<byte>, offset: nat): (ds: seq<Decoded>)
    ensures |ds| == |ks|
  {
    if ks == [] then [] else
    var d := DecodeAt(ks[0], data, offset);
    [d] + DecodeAll(ks[1..], data, d.offset)
  }

  /** `OwnedFD`: one received descriptor; -1 once it has been taken or closed. */
  class OwnedFD {
    var fd: int

    constructor (fd: int)
      ensures this.fd == fd
    {
      this.fd := fd;
    }

    /** Hands the descriptor over once. */
    method Take() returns (n: Option<int>)
      modifies this
      ensures n == (if old(fd) >= 0 then Some(old(fd)) else None) && fd < 0
    {
      if fd < 0 {
        return None;
      }
      n := Some(fd);
      fd := -1;
    }

    /** Returns the descriptor passed to `unix.Close`, if any: closing is idempotent. */
    method Close() returns (n: Option<int>)
      modifies this
      ensures n == (if old(fd) >= 0 then Some(old(fd)) else None) && fd < 0
    {
      if fd < 0 {
        return None;
      }
      n := Some(fd);
      fd := -1;
    }
  }

  /** `Event`: the body being decoded and the descriptors assigned to it. */
  class Event {
    const data: seq<byte>
    var offset: nat
    var fds: seq<OwnedFD?>
    var fdIndex: nat

    /** Slots before `fdIndex` have been handed out; the others still hold their descriptor. */
    ghost predicate Valid()
      reads this
    {
      && fdIndex <= |fds|
      && (forall i | 0 <= i < fdIndex :: fds[i] == null)
      && (forall i | fdIndex <= i < |fds| :: fds[i] != null)
    }

    constructor (data: seq<byte>, fds: seq<OwnedFD>)
      ensures Valid() && this.data == data && offset == 0 && this.fds == fds && fdIndex == 0
    {
      this.data := data;
      this.offset := 0;
      this.fds := fds;
      this.fdIndex := 0;
    }

    method Uint32() returns (val: u32)
      modifies `offset
      ensures VWord(val) == Uint32At(data, old(offset)).value && offset == Uint32At(data, old(offset)).offset
    {
      if offset + 4 > |data| {
        return 0;
      }
      val := WordAt(data[offset..]);
      offset := offset + 4;
    }

    method Int32() returns (val: int32)
      modifies `offset
      ensures VWord(ToWord(val)) == Uint32At(data, old(offset)).value && offset == Uint32At(data, old(offset)).offset
    {
      var w := Uint32();
      val := ToInt32(w);
    }

    method String() returns (str: seq<byte>)
      modifies `offset
      ensures VBytes(str) == StringAt(data, old(offset)).value && offset == StringAt(data, old(offset)).offset
    {
      if offset + 4 > |data| {
        return [];
      }
      var strlen := Uint32();
      if strlen == 0 || offset + strlen > |data| {
        return [];
      }
      str := data[offset..offset + strlen - 1];
      PaddingAgrees(strlen);
      var padding := (4 - strlen % 4) % 4;
      offset := offset + WrapAdd(strlen, padding);
    }

    method Array() returns (arr: seq<byte>)
      modifies `offset
      ensures VBytes(arr) == ArrayAt(data, old(offset)).value && offset == ArrayAt(data, old(offset)).offset
    {
      if offset + 4 > |data| {
        return [];
      }
      var arrlen := Uint32();
      if arrlen == 0 || offset + arrlen > |data| {
        return [];
      }
      arr := data[offset..offset + arrlen];
      PaddingAgrees(arrlen);
      var padding := (4 - arrlen % 4) % 4;
      offset := offset + WrapAdd(arrlen, padding);
    }

    /** Hands out the next assigned descriptor, and forgets it. */
    method FD() returns (fd: OwnedFD?)
      requires Valid()
      modifies `fds, `fdIndex
      ensures Valid() && |fds| == |old(fds)|
      ensures fd == if old(fdIndex) < |old(fds)| then old(fds)[old(fdIndex)] else null
      ensures fds[fdIndex..] == if fd == null then old(fds[fdIndex..]) else old(fds[fdIndex..])[1..]
    {
      if fdIndex >= |fds| {
        return null;
      }
      fd := fds[fdIndex];
      fds := fds[fdIndex := null];
      fdIndex := fdIndex + 1;
    }
  }

  // -------------------------------------------------------------- agreement

  /** What a legal value means. */
  function ValueOf(k: Kind, part: seq<byte>): Value
    requires Legal(k, part)
  {
    match k
    case KFd => VFd
    case KString =>
      var n := WordAt(part);
      if n == 0 then VBytes([]) else VBytes(part[4..4 + n - 1])
    case KArray =>
      var n := WordAt(part);
      VBytes(part[4..4 + n])
    case _ => VWord(WordAt(part))
  }

  lemma DecodeWord(pre: seq<byte>, part: seq<byte>, post: seq<byte>)
    requires |part| >= 4
    ensures WordAt((pre + part + post)[|pre|..]) == WordAt(part)
  {
    assert (pre + part + post)[|pre|..][..4] == part[..4];
  }

  /** The decoders' `uint32` sum of length and padding does not wrap on a value that fits the body. */
  lemma AdvanceIsRoundUp(offset: nat, n: u32)
    requires RoundUp4(n) < 0x1_0000_0000
    ensures Advance(offset, n) == offset + RoundUp4(n)
  {
  }

  /** At a legal value, a decoder reads that value, stops at its end and takes no fallback. */
  lemma DecodeLegal(k: Kind, pre: seq<byte>, part: seq<byte>, post: seq<byte>)
    requires Legal(k, part) && |pre + part + post| < 0x1_0000_0000
    ensures DecodeAt(k, pre + part + post, |pre|) == Decoded(ValueOf(k, part), |pre| + |part|, false)
  {
    var data := pre + part + post;
    if k == KString || k == KArray {
      var n := WordAt(part);
      var start := |pre| + 4;
      DecodeWord(pre, part, post);
      AdvanceIsRoundUp(start, n);
      assert data[start..start + n] == part[4..4 + n];
      if n > 0 {
        assert data[start..start + n - 1] == part[4..4 + n - 1];
      }
    } else if k != KFd {
      DecodeWord(pre, part, post);
    }
  }

  /** What decoding in lock step with the values gives: each value, and the offset at which it ends. */
  function InLockStep(ks: seq<Kind>, parts: seq<seq<byte>>, offset: nat): (ds: seq<Decoded>)
    requires |parts| == |ks| && (forall i | 0 <= i < |ks| :: Legal(ks[i], parts[i]))
    ensures |ds| == |ks|
  {
    if ks == [] then [] else
    var end := offset + |parts[0]|;
    [Decoded(ValueOf(ks[0], parts[0]), end, false)] + InLockStep(ks[1..], parts[1..], end)
  }

  lemma {:induction false} InLockStepAt(ks: seq<Kind>, parts: seq<seq<byte>>, offset: nat, i: nat)
    requires |parts| == |ks| && (forall i | 0 <= i < |ks| :: Legal(ks[i], parts[i])) && i < |ks|
    ensures InLockStep(ks, parts, offset)[i] ==
            Decoded(ValueOf(ks[i], parts[i]), offset + |Concat(parts[..i + 1])|, false)
  {
    assert parts[..i + 1][0] == parts[0] && parts[..i + 1][1..] == parts[1..][..i];
    if i == 0 {
      assert parts[1..][..0] == [];
    } else {
      InLockStepAt(ks[1..], parts[1..], offset + |parts[0]|, i - 1);
    }
  }

  lemma {:induction false} DecodesInLockStep(ks: seq<Kind>, parts: seq<seq<byte>>, pre: seq<byte>)
    requires |parts| == |ks| && (forall i | 0 <= i < |ks| :: Legal(ks[i], parts[i]))
    requires |pre + Concat(parts)| < 0x1_0000_0000
    ensures DecodeAll(ks, pre + Concat(parts), |pre|) == InLockStep(ks, parts, |pre|)
    decreases |ks|
  {
    if ks != [] {
      var data := pre + Concat(parts);
      var post := Concat(parts[1..]);
      var first := Decoded(ValueOf(ks[0], parts[0]), |pre + parts[0]|, false);
      assert data == pre + parts[0] + post;
      assert DecodeAt(ks[0], data, |pre|) == first by {
        DecodeLegal(ks[0], pre, parts[0], post);
      }
      DecodesInLockStep(ks[1..], parts[1..], pre + parts[0]);
      assert DecodeAll(ks, data, |pre|) == [first] + DecodeAll(ks[1..], data, first.offset);
    }
  }

  lemma DecodesPart(ks: seq<Kind>, parts: seq<seq<byte>>, i: nat)
    requires |parts| == |ks| && (forall i | 0 <= i < |ks| :: Legal(ks[i], parts[i])) && i < |ks|
    requires |Concat(parts)| < 0x1_0000_0000
    ensures DecodeAll(ks, Concat(parts), 0)[i] ==
            Decoded(ValueOf(ks[i], parts[i]), |Concat(parts[..i + 1])|, false)
  {
    assert [] + Concat(parts) == Concat(parts);
    DecodesInLockStep(ks, parts, []);
    InLockStepAt(ks, parts, 0, i);
  }

  /** Validator and decoders in lock step: on a body the validator accepts, the decoder of each kind, called in
  signature order, leaves `offset` at the validator's mark, reads that value and never falls back. */
  lemma LockStep(ks: seq<Kind>, parts: seq<seq<byte>>, marks: seq<nat>, sig: string, body: seq<byte>, i: nat)
    requires Trail(ks, parts, marks, sig, body) && |body| < 0x1_0000_0000 && i < |ks|
    ensures DecodeAll(ks, body, 0)[i] == Decoded(ValueOf(ks[i], parts[i]), marks[i], false)
    ensures i == |ks| - 1 ==> marks[i] == |body|
  {
    DecodesPart(ks, parts, i);
    if i == |ks| - 1 {
      assert parts[..i + 1] == parts;
    }
  }

  /** The signature kinds an argument may be declared with. */
  predicate Fits(k: Kind, a: Arg) {
    match a
    case ArgInvalid => false
    case ArgWord(_) => k in {KInt, KUint, KFixed, KObject, KNewId}
    case ArgObject(_) => k in {KObject, KNewId}
    case ArgString(_) => k == KString
    case ArgArray(_) => k == KArray
    case ArgFD => k == KFd
  }

  predicate AllFit(ks: seq<Kind>, args: seq<Arg>) {
    |ks| == |args| && forall i | 0 <= i < |ks| :: Fits(ks[i], args[i])
  }

  /** What the sender meant by an argument. */
  function Meaning(a: Arg): Value
    requires a != ArgInvalid
  {
    match a
    case ArgWord(w) => VWord(w)
    case ArgString(s) => VBytes(s)
    case ArgArray(v) => VBytes(v)
    case ArgObject(id) => VWord(if id.Some? then id.value else 0)
    case ArgFD => VFd
  }

  /** `part` is a legal value of kind `k` that means `a`. */
  predicate Carries(k: Kind, part: seq<byte>, a: Arg) {
    a != ArgInvalid && Legal(k, part) && ValueOf(k, part) == Meaning(a)
  }

  lemma EncodedStringIsLegal(s: seq<byte>)
    requires |s| + 1 <= MAX_VALUE
    ensures Carries(KString, EncodeArg(ArgString(s)).value, ArgString(s))
  {
    var n := |s| + 1;
    var tail := s + [0] + Zeros(PadLen(n));
    var part := Word(n) + tail;
    assert part == EncodeArg(ArgString(s)).value;
    WordRoundTrip(n, tail);
    assert part[4..4 + n - 1] == s && part[4 + n - 1] == 0;
  }

  lemma EncodedArrayIsLegal(v: seq<byte>)
    requires |v| <= MAX_VALUE
    ensures Carries(KArray, EncodeArg(ArgArray(v)).value, ArgArray(v))
  {
    var tail := v + Zeros(PadLen(|v|));
    var part := Word(|v|) + tail;
    assert part == EncodeArg(ArgArray(v)).value;
    WordRoundTrip(|v|, tail);
    assert part[4..4 + |v|] == v;
  }

  /** Whatever the printer writes for an argument is a legal value of every kind it fits, and means the argument. */
  lemma EncodedIsLegal(k: Kind, a: Arg)
    requires Fits(k, a) && EncodeArg(a).Some?
    ensures Carries(k, EncodeArg(a).value, a)
  {
    match a
    case ArgString(s) => EncodedStringIsLegal(s);
    case ArgArray(v) => EncodedArrayIsLegal(v);
    case ArgWord(w) =>
      WordRoundTrip(w, []);
      assert Word(w) + [] == Word(w);
    case ArgObject(id) =>
      var w := if id.Some? then id.value else 0;
      WordRoundTrip(w, []);
      assert Word(w) + [] == Word(w);
    case ArgFD =>
  }

  /** How many bytes of an encoding are not padding. */
  function ContentLen(a: Arg): nat {
    match a
    case ArgString(s) => 4 + |s| + 1
    case ArgArray(v) => 4 + |v|
    case ArgFD => 0
    case _ => 4
  }

  /** The encoding of the argument, up to the padding bytes. */
  predicate Spells(b: seq<byte>, a: Arg) {
    && EncodeArg(a).Some? && |b| == |EncodeArg(a).value|
    && ContentLen(a) <= |b| && b[..ContentLen(a)] == EncodeArg(a).value[..ContentLen(a)]
  }

  function ArgOf(k: Kind, part: seq<byte>): Arg
    requires Legal(k, part)
  {
    match k
    case KFd => ArgFD
    case KString => ArgString(ValueOf(k, part).bytes)
    case KArray => ArgArray(ValueOf(k, part).bytes)
    case _ => ArgWord(WordAt(part))
  }

  lemma WordInFront(b: seq<byte>)
    requires |b| >= 4
    ensures b[..4] == Word(WordAt(b)) && WordAt(b[..4]) == WordAt(b)
  {
    WordInverse(b[..4]);
  }

  lemma LegalIsSpelled(k: Kind, b: seq<byte>)
    requires Legal(k, b) && |b| <= MAX_VALUE && !(k == KString && WordAt(b) == 0)
    ensures Fits(k, ArgOf(k, b)) && Spells(b, ArgOf(k, b))
  {
    match k
    case KString => StringIsSpelled(b);
    case KArray => ArrayIsSpelled(b);
    case KFd =>
    case _ =>
      WordInFront(b);
      assert b[..4] == b;
  }

  lemma StringIsSpelled(b: seq<byte>)
    requires Legal(KString, b) && |b| <= MAX_VALUE && WordAt(b) != 0
    ensures Spells(b, ArgString(b[4..4 + WordAt(b) - 1]))
  {
    var n: nat := WordAt(b);
    var s := b[4..4 + n - 1];
    WordInFront(b);
    assert b[..4 + n - 1] == b[..4] + s;
    assert b[..4 + n] == b[..4 + n - 1] + [0];
    EncodedFront(s, n);
  }

  lemma EncodedFront(s: seq<byte>, n: nat)
    requires n == |s| + 1 <= MAX_VALUE
    ensures var e := EncodeArg(ArgString(s)).value;
            |e| == 4 + RoundUp4(n) && e[..4 + n] == Word(n) + s + [0]
  {
    var content := Word(n) + s + [0];
    assert EncodeArg(ArgString(s)).value == content + Zeros(PadLen(n));
    assert |content| == 4 + n;
  }

  lemma ArrayIsSpelled(b: seq<byte>)
    requires Legal(KArray, b) && |b| <= MAX_VALUE
    ensures Spells(b, ArgArray(b[4..4 + WordAt(b)]))
  {
    var n: nat := WordAt(b);
    var v := b[4..4 + n];
    WordInFront(b);
    assert b[..4 + n] == b[..4] + v;
    assert EncodeArg(ArgArray(v)).value[..4 + n] == Word(n) + v;
  }

  lemma SpelledIsLegal(k: Kind, b: seq<byte>, a: Arg)
    requires Fits(k, a) && Spells(b, a)
    ensures Legal(k, b)
  {
    EncodedIsLegal(k, a);
    var e := EncodeArg(a).value;
    if !k.KFd? {
      WordInFront(b);
      WordInFront(e);
      assert b[..4] == b[..ContentLen(a)][..4] && e[..4] == e[..ContentLen(a)][..4];
    }
    if a.ArgString? {
      assert b[ContentLen(a) - 1] == b[..ContentLen(a)][ContentLen(a) - 1] == e[ContentLen(a) - 1];
    }
  }

  /** What a frame's body may hold for a kind is exactly what marshalling an argument of that kind gives, up to padding
  bytes, and the null string besides. */
  lemma LegalExactly(k: Kind, b: seq<byte>)
    requires |b| <= MAX_VALUE
    ensures Legal(k, b) <==> (k == KString && b == Word(0)) || exists a :: Fits(k, a) && Spells(b, a)
  {
    if Legal(k, b) {
      if k == KString && WordAt(b) == 0 {
        WordInFront(b);
        assert b == b[..4];
      } else {
        LegalIsSpelled(k, b);
      }
    }
    if k == KString && b == Word(0) {
      WordRoundTrip(0, []);
      assert Word(0) + [] == b;
    }
    forall a | Fits(k, a) && Spells(b, a) ensures Legal(k, b) {
      SpelledIsLegal(k, b, a);
    }
  }

  /** The bytes of each argument, as one legal value of each kind. */
  lemma {:induction false} EncodedParts(ks: seq<Kind>, args: seq<Arg>) returns (parts: seq<seq<byte>>)
    requires AllFit(ks, args) && EncodeBody(args).Some?
    ensures |parts| == |ks| && Concat(parts) == EncodeBody(args).value
    ensures forall i | 0 <= i < |ks| :: Carries(ks[i], parts[i], args[i])
  {
    parts := JoinedParts(Encodings(args));
    forall i | 0 <= i < |ks| ensures Carries(ks[i], parts[i], args[i]) {
      EncodedIsLegal(ks[i], args[i]);
    }
  }

  lemma {:induction false} JoinedParts(es: seq<Option<seq<byte>>>) returns (parts: seq<seq<byte>>)
    requires Join(es).Some?
    ensures |parts| == |es| && Concat(parts) == Join(es).value
    ensures forall i | 0 <= i < |es| :: es[i] == Some(parts[i])
  {
    if es == [] {
      parts := [];
    } else {
      var rest := JoinedParts(es[1..]);
      parts := [es[0].value] + rest;
      assert parts[1..] == rest;
    }
  }

  /** Printer against parser, for one body: decoding it in order, under any signature the arguments fit, gives back
  what was sent, never falls back, and ends at its last byte. */
  lemma BodyRoundTrip(ks: seq<Kind>, args: seq<Arg>, i: nat)
    requires AllFit(ks, args) && EncodeBody(args).Some? && i < |ks|
    requires |EncodeBody(args).value| < 0x1_0000_0000
    ensures var d := DecodeAll(ks, EncodeBody(args).value, 0)[i];
            d.value == Meaning(args[i]) && !d.fallback && (i == |ks| - 1 ==> d.offset == |EncodeBody(args).value|)
  {
    var parts := EncodedParts(ks, args);
    var body := Concat(parts);
    assert Carries(ks[i], parts[i], args[i]);
    DecodesPart(ks, parts, i);
    if i == |ks| - 1 {
      assert parts[..i + 1] == parts;
    }
  }

  /** Printer against validator: a printed body is accepted under every signature the arguments fit. */
  lemma PrintedBodyChecks(ks: seq<Kind>, args: seq<Arg>)
    requires AllFit(ks, args) && EncodeBody(args).Some?
    ensures Checks(SigText(ks), EncodeBody(args).value)
  {
    var parts := EncodedParts(ks, args);
    forall i | 0 <= i < |ks| ensures Legal(ks[i], parts[i]) {
      assert Carries(ks[i], parts[i], args[i]);
    }
    assert Matches(ks, parts, SigText(ks), Concat(parts));
    ChecksIsAccepts(SigText(ks), Concat(parts));
  }

  // ---------------------------------------------------- what can be marshalled

  /** The room an argument takes on the wire. */
  function WireLen(a: Arg): nat {
    match a
    case ArgString(s) => 4 + RoundUp4(|s| + 1)
    case ArgArray(v) => 4 + RoundUp4(|v|)
    case ArgFD => 0
    case _ => 4
  }

  function WireLens(args: seq<Arg>): nat {
    if args == [] then 0 else WireLen(args[0]) + WireLens(args[1..])
  }

  lemma EncodedLen(a: Arg)
    ensures EncodeArg(a).Some? ==> a != ArgInvalid && |EncodeArg(a).value| == WireLen(a)
    ensures a != ArgInvalid && WireLen(a) <= MAX_VALUE ==> EncodeArg(a).Some?
  {
  }

  lemma {:induction false} EncodedLens(args: seq<Arg>)
    ensures EncodeBody(args).Some? ==> ArgInvalid !in args && |EncodeBody(args).value| == WireLens(args)
    ensures ArgInvalid !in args && WireLens(args) <= MAX_VALUE ==> EncodeBody(args).Some?
  {
    if args != [] {
      EncodedLen(args[0]);
      EncodedLens(args[1..]);
      assert Encodings(args)[1..] == Encodings(args[1..]);
    }
  }

  /** A request can be marshalled exactly if no argument is the zero `Arg` and the message fits its 16-bit size. */
  lemma MarshalledExactly(obj: u32, opcode: u16, args: seq<Arg>)
    ensures EncodeMessage(obj, opcode, args).Some? <==>
            ArgInvalid !in args && HEADER_SIZE + WireLens(args) <= 0xFFFF
  {
    EncodedLens(args);
    if EncodeBody(args).Some? {
      EncodedBodyIsAligned(args);
      AlignedIsMod(HEADER_SIZE + |EncodeBody(args).value|);
    }
  }

  /** The value a decoder of kind `k` must return for a boxed argument declared with it. */
  predicate StandsFor(b: Boxed, k: Kind, v: Value) {
    match b
    case BUint32(u) => k == KUint && v == VWord(u)
    case BInt32(i) => k == KInt && v.VWord? && ToInt32(v.word) == i
    case BFixed(f) => k == KFixed && v.VWord? && ToInt32(v.word) == f
    case BString(s) => k == KString && v == VBytes(s)
    case BBytes(a) => k == KArray && v == VBytes(a)
    case BObject(id) => (k == KObject || k == KNewId) && v == VWord(id)
    case BNil => k == KObject && v == VWord(0)
    case BUintptr => k == KFd && v == VFd
    case BOther => false
  }

  function BoxedKind(b: Boxed): Option<Kind> {
    match b
    case BUint32(_) => Some(KUint)
    case BInt32(_) => Some(KInt)
    case BFixed(_) => Some(KFixed)
    case BString(_) => Some(KString)
    case BBytes(_) => Some(KArray)
    case BObject(_) => Some(KObject)
    case BNil => Some(KObject)
    case BUintptr => Some(KFd)
    case BOther => None
  }

  /** Boxed arguments come through as what they are: an argument of any supported type, marshalled and decoded, is read
  back, signed ones with their sign; only those of another type and those too long for a length word are refused. */
  lemma BoxedRoundTrip(b: Boxed)
    ensures EncodeBody(UnboxAll([b])).None? <==>
              BoxedKind(b).None? || (b.BString? && |b.s| + 1 > MAX_VALUE) || (b.BBytes? && |b.b| > MAX_VALUE)
    ensures BoxedKind(b).Some? && EncodeBody(UnboxAll([b])).Some? ==>
              var d := DecodeAll([BoxedKind(b).value], EncodeBody(UnboxAll([b])).value, 0)[0];
              StandsFor(b, BoxedKind(b).value, d.value) && !d.fallback
  {
    var arg := Unbox(b);
    assert UnboxAll([b]) == [arg];
    var es := Encodings([arg]);
    assert es == [EncodeArg(arg)] && es[1..] == [] && Join(es[1..]) == Some([]);
    if BoxedKind(b).Some? && EncodeBody([arg]).Some? {
      SingleIsShort(arg);
      BodyRoundTrip([BoxedKind(b).value], [arg], 0);
    }
  }

  lemma SingleIsShort(a: Arg)
    requires EncodeBody([a]).Some?
    ensures |EncodeBody([a]).value| < 0x1_0000_0000
  {
    var es := Encodings([a]);
    assert es == [EncodeArg(a)] && es[1..] == [] && Join(es[1..]) == Some([]);
    assert |Join(es).value| == |EncodeArg(a).value|;
    match a
    case ArgString(s) => assert |EncodeArg(a).value| == 4 + RoundUp4(|s| + 1);
    case ArgArray(v) => assert |EncodeArg(a).value| == 4 + RoundUp4(|v|);
    case _ =>
  }

  lemma EncodedArgIsAligned(a: Arg)
    ensures EncodeArg(a).Some? ==> |EncodeArg(a).value| % 4 == 0
  {
    match a
    case ArgString(s) =>
      PaddingAgrees(|s| + 1);
      AlignedSum(4, RoundUp4(|s| + 1));
      assert EncodeArg(a).Some? ==> |EncodeArg(a).value| == 4 + RoundUp4(|s| + 1);
    case ArgArray(v) =>
      PaddingAgrees(|v|);
      AlignedSum(4, RoundUp4(|v|));
      assert EncodeArg(a).Some? ==> |EncodeArg(a).value| == 4 + RoundUp4(|v|);
    case _ =>
  }

  /** Marshalled bodies are always aligned, so the size check of `sendRequest` only ever refuses long messages. */
  lemma EncodedBodyIsAligned(args: seq<Arg>)
    ensures EncodeBody(args).Some? ==> |EncodeBody(args).value| % 4 == 0
  {
    forall i | 0 <= i < |args| ensures EncodeArg(args[i]).Some? ==> |EncodeArg(args[i]).value| % 4 == 0 {
      EncodedArgIsAligned(args[i]);
    }
    JoinIsAligned(Encodings(args));
  }

  lemma {:induction false} JoinIsAligned(es: seq<Option<seq<byte>>>)
    requires forall i | 0 <= i < |es| :: es[i].Some? ==> |es[i].value| % 4 == 0
    ensures Join(es).Some? ==> |Join(es).value| % 4 == 0
  {
    if es != [] {
      JoinIsAligned(es[1..]);
      if Join(es).Some? {
        AlignedSum(|es[0].value|, |Join(es[1..]).value|);
      }
    }
  }

  // --------------------------------------------------------------- messages

  datatype Message = Message(obj: u32, opcode: u16, args: seq<Arg>)

  predicate Sendable(m: Message) {
    EncodeMessage(m.obj, m.opcode, m.args).Some?
  }

  function Printed(m: Message): seq<byte>
    requires Sendable(m)
  {
    EncodeMessage(m.obj, m.opcode, m.args).value
  }

  function FrameOf(m: Message): Frame
    requires Sendable(m)
  {
    Frame(m.obj, m.opcode, EncodeBody(m.args).value)
  }

  /** All messages, one after the other, as they reach the wire. */
  function WireBytes(ms: seq<Message>): seq<byte>
    requires forall m | m in ms :: Sendable(m)
  {
    if ms == [] then [] else Printed(ms[0]) + WireBytes(ms[1..])
  }

  function FramesOf(ms: seq<Message>): (fs: seq<Frame>)
    requires forall m | m in ms :: Sendable(m)
    ensures |fs| == |ms| && forall i | 0 <= i < |ms| :: fs[i] == FrameOf(ms[i])
  {
    if ms == [] then [] else [FrameOf(ms[0])] + FramesOf(ms[1..])
  }

  lemma ReadEncoded(m: Message, rest: seq<byte>)
    requires Sendable(m)
    ensures ReadFrame(Printed(m) + rest, 0) == Framed(FrameOf(m), rest)
  {
    var body := EncodeBody(m.args).value;
    var size := HEADER_SIZE + |body|;
    var hdr := PutHeader(m.obj, m.opcode, size);
    var s := Printed(m) + rest;
    assert s == hdr + body + rest;
    assert s[..HEADER_SIZE] == hdr + [];
    HeaderRoundTrip(m.obj, m.opcode, size, [], DEFAULT_MAX_MESSAGE_SIZE);
    assert s[HEADER_SIZE..size] == body && s[size..] == rest;
  }

  lemma TakePrinted(m: Message, k: nat, tail: seq<byte>)
    requires Sendable(m) && TakeFrames(k, tail, 0).Taken?
    ensures TakeFrames(k + 1, Printed(m) + tail, 0) ==
            Taken([FrameOf(m)] + TakeFrames(k, tail, 0).frames, TakeFrames(k, tail, 0).rest)
  {
    ReadEncoded(m, tail);
  }

  /** Framing undoes concatenated printing. */
  lemma {:induction false} StreamRoundTrip(ms: seq<Message>, rest: seq<byte>)
    requires forall m | m in ms :: Sendable(m)
    ensures TakeFrames(|ms|, WireBytes(ms) + rest, 0) == Taken(FramesOf(ms), rest)
    decreases |ms|
  {
    if ms == [] {
      assert WireBytes(ms) + rest == rest;
    } else {
      var tail := WireBytes(ms[1..]) + rest;
      assert WireBytes(ms) + rest == Printed(ms[0]) + tail;
      StreamRoundTrip(ms[1..], rest);
      TakePrinted(ms[0], |ms| - 1, tail);
    }
  }
}

/** Socket control messages: the walk of `parseFDs` (scm_linux.go) against the layout the kernel writes. */
module Control {
  import opened Bytes

  const SIZEOF_CMSGHDR := 16
  const SOL_SOCKET := 1
  const SCM_RIGHTS := 1

  /** Padding to the 8-byte alignment of control messages. */
  function Pad8(n: nat): (p: nat)
    ensures p < 8
  {
    if n == 0 then 0 else if n < 8 then 8 - n else Pad8(n - 8)
  }

  /** The kernel's alignment macro rounds up with `(n + 7) &^ 7`: the same. */
  lemma {:induction false} Pad8Agrees(n: nat)
    ensures (n + 7) - (n + 7) % 8 == n + Pad8(n)
    ensures (n + Pad8(n)) % 8 == 0
  {
    if n >= 8 {
      Pad8Agrees(n - 8);
      assert (n + 7) % 8 == (n - 8 + 7) % 8;
    }
  }

  /** `unix.CmsgSpace`. */
  function CmsgSpace(n: nat): nat {
    SIZEOF_CMSGHDR + n + Pad8(n)
  }

  /** `int(hdr.Len)`: the little-endian `size_t`, reinterpreted as a signed 64-bit `int`. */
  function LenAt(oob: seq<byte>): int
    requires |oob| >= SIZEOF_CMSGHDR
  {
    var lo: int, hi: int := WordAt(oob), WordAt(oob[4..]);
    lo + (if hi >= 0x8000_0000 then hi - 0x1_0000_0000 else hi) * 0x1_0000_0000
  }

  predicate IsRights(oob: seq<byte>)
    requires |oob| >= SIZEOF_CMSGHDR
  {
    ToInt32(WordAt(oob[8..])) == SOL_SOCKET && ToInt32(WordAt(oob[12..])) == SCM_RIGHTS
  }

  /** Whole 32-bit words; on anything else `syscall.ParseUnixRights` indexes past its result and panics. */
  predicate Whole(data: seq<byte>) {
    PadLen(|data|) == 0
  }

  function Words(data: seq<byte>): seq<int>
    requires Whole(data)
  {
    if data == [] then [] else [ToInt32(WordAt(data))] + Words(data[4..])
  }

  datatype Outcome = Done(fds: seq<int>) | Malformed(fds: seq<int>) | Panics

  function Prepend(fds: seq<int>, o: Outcome): Outcome {
    match o
    case Done(more) => Done(fds + more)
    case Malformed(more) => Malformed(fds + more)
    case Panics => Panics
  }

  /** Bytes that cannot be the start of a control message. */
  predicate BadHeader(oob: seq<byte>) {
    oob != [] && (|oob| < SIZEOF_CMSGHDR || !(SIZEOF_CMSGHDR <= LenAt(oob) <= |oob|))
  }

  /** The walk as a function of the control buffer. */
  function Walk(oob: seq<byte>): Outcome
    decreases |oob|
  {
    if oob == [] then Done([])
    else if BadHeader(oob) then Malformed([])
    else if IsRights(oob) && !Whole(oob[SIZEOF_CMSGHDR..LenAt(oob)]) then Panics
    else
      var step := CmsgSpace(LenAt(oob) - SIZEOF_CMSGHDR);
      if step > |oob| then Done(FirstFDs(oob)) else Prepend(FirstFDs(oob), Walk(oob[step..]))
  }

  lemma {:induction false} WordsSnoc(data: seq<byte>, i: nat)
    requires i + 4 <= |data| && PadLen(i) == 0
    ensures Whole(data[..i]) && Whole(data[..i + 4])
    ensures Words(data[..i + 4]) == Words(data[..i]) + [ToInt32(WordAt(data[i..]))]
    decreases i
  {
    if i == 0 {
      assert data[..4][4..] == [] && Words([]) == [];
      assert WordAt(data[..4]) == WordAt(data[0..]);
    } else {
      assert i >= 4;
      WordsSnoc(data[4..], i - 4);
      assert data[..i][4..] == data[4..][..i - 4];
      assert data[..i + 4][4..] == data[4..][..i];
      assert data[4..][i - 4..] == data[i..];
      assert WordAt(data[..i + 4]) == WordAt(data[..i]);
    }
  }

  /** `syscall.ParseUnixRights` on a payload of whole words. */
  method ParseUnixRights(data: seq<byte>) returns (fds: seq<int>)
    requires Whole(data)
    ensures fds == Words(data)
  {
    fds := [];
    var i := 0;
    while i < |data|
      invariant i <= |data| && PadLen(i) == 0 && PadLen(|data| - i) == 0
      invariant fds == Words(data[..i])
    {
      WordsSnoc(data, i);
      fds := fds + [ToInt32(WordAt(data[i..]))];
      i := i + 4;
    }
    assert data[..i] == data;
  }

  /** The descriptors of the message at the front of a buffer. */
  function FirstFDs(oob: seq<byte>): seq<int>
    requires !BadHeader(oob) && oob != []
    requires IsRights(oob) ==> Whole(oob[SIZEOF_CMSGHDR..LenAt(oob)])
  {
    if IsRights(oob) then Words(oob[SIZEOF_CMSGHDR..LenAt(oob)]) else []
  }

  /** `parseFDs`: descriptors decoded before a malformed header are kept. */
  method ParseFDs(oob: seq<byte>) returns (out: Outcome)
    ensures out == Walk(oob)
  {
    var rest := oob;
    var fds: seq<int> := [];
    PrependNothing(Walk(oob));
    while |rest| > 0
      invariant Walk(oob) == Prepend(fds, Walk(rest))
      decreases |rest|
    {
      if |rest| < SIZEOF_CMSGHDR {
        return Malformed(fds);
      }
      var length := LenAt(rest);
      if length < SIZEOF_CMSGHDR || length > |rest| {
        return Malformed(fds);
      }
      var data := rest[SIZEOF_CMSGHDR..length];
      var parsed := [];
      if IsRights(rest) {
        if !Whole(data) {
          return Panics;
        }
        parsed := ParseUnixRights(data);
      }
      assert parsed == FirstFDs(rest);
      ghost var before := fds;
      fds := fds + parsed;
      var step := CmsgSpace(length - SIZEOF_CMSGHDR);
      if step > |rest| {
        return Done(fds); // the final control message may omit trailing padding
      }
      PrependTwice(before, parsed, Walk(rest[step..]));
      rest := rest[step..];
    }
    out := Done(fds);
  }

  lemma PrependNothing(o: Outcome)
    ensures Prepend([], o) == o
  {
    if !o.Panics? {
      assert [] + o.fds == o.fds;
    }
  }

  lemma PrependTwice(a: seq<int>, b: seq<int>, o: Outcome)
    ensures Prepend(a, Prepend(b, o)) == Prepend(a + b, o)
  {
    if !o.Panics? {
      assert a + (b + o.fds) == (a + b) + o.fds;
    }
  }

  // ----------------------------------------------------------------- layout

  /** One control message as it lies in memory, with whatever bytes pad it. */
  datatype Cmsg = Cmsg(level: u32, kind: u32, data: seq<byte>, pad: seq<byte>)

  predicate IsRightsMsg(m: Cmsg) {
    ToInt32(m.level) == SOL_SOCKET && ToInt32(m.kind) == SCM_RIGHTS
  }

  predicate WellFormed(m: Cmsg) {
    SIZEOF_CMSGHDR + |m.data| < 0x1_0000_0000 && |m.pad| <= Pad8(|m.data|) && (IsRightsMsg(m) ==> Whole(m.data))
  }

  predicate FullyPadded(m: Cmsg) {
    WellFormed(m) && |m.pad| == Pad8(|m.data|)
  }

  function Layout(m: Cmsg): seq<byte>
    requires WellFormed(m)
  {
    Word(SIZEOF_CMSGHDR + |m.data|) + Word(0) + Word(m.level) + Word(m.kind) + m.data + m.pad
  }

  /** Messages laid out one after the other: only the last may have its padding cut short. */
  predicate Tight(ms: seq<Cmsg>) {
    ms == [] || (WellFormed(ms[0]) && (|ms| > 1 ==> FullyPadded(ms[0])) && Tight(ms[1..]))
  }

  predicate AllPadded(ms: seq<Cmsg>)
    ensures AllPadded(ms) ==> Tight(ms)
  {
    ms == [] || (FullyPadded(ms[0]) && AllPadded(ms[1..]))
  }

  function LayoutAll(ms: seq<Cmsg>): seq<byte>
    requires Tight(ms)
  {
    if ms == [] then [] else Layout(ms[0]) + LayoutAll(ms[1..])
  }

  function CarriedBy(m: Cmsg): seq<int>
    requires WellFormed(m)
  {
    if IsRightsMsg(m) then Words(m.data) else []
  }

  /** The descriptors a list of control messages carries, in order. */
  function Carried(ms: seq<Cmsg>): seq<int>
    requires Tight(ms)
  {
    if ms == [] then [] else CarriedBy(ms[0]) + Carried(ms[1..])
  }

  lemma FourWords(a: u32, b: u32, c: u32, d: u32, body: seq<byte>)
    ensures var s := Word(a) + Word(b) + Word(c) + Word(d) + body;
            WordAt(s) == a && WordAt(s[4..]) == b && WordAt(s[8..]) == c && WordAt(s[12..]) == d && s[16..] == body
  {
    var s := Word(a) + Word(b) + Word(c) + Word(d) + body;
    WordRoundTrip(a, s[4..]);
    WordRoundTrip(b, s[8..]);
    WordRoundTrip(c, s[12..]);
    WordRoundTrip(d, body);
    assert s == Word(a) + s[4..] && s[4..] == Word(b) + s[8..];
    assert s[8..] == Word(c) + s[12..] && s[12..] == Word(d) + body;
  }

  lemma LayoutFields(m: Cmsg, tail: seq<byte>)
    requires WellFormed(m)
    ensures var s := Layout(m) + tail;
            && LenAt(s) == SIZEOF_CMSGHDR + |m.data|
            && (IsRights(s) <==> IsRightsMsg(m))
            && s[SIZEOF_CMSGHDR..SIZEOF_CMSGHDR + |m.data|] == m.data
  {
    var s := Layout(m) + tail;
    var body := m.data + m.pad + tail;
    FourWords(SIZEOF_CMSGHDR + |m.data|, 0, m.level, m.kind, body);
    assert s == Word(SIZEOF_CMSGHDR + |m.data|) + Word(0) + Word(m.level) + Word(m.kind) + body;
    assert s[16..][..|m.data|] == m.data;
  }

  lemma WalkOne(m: Cmsg, tail: seq<byte>)
    requires WellFormed(m) && (FullyPadded(m) || tail == [])
    ensures Walk(Layout(m) + tail) == Prepend(CarriedBy(m), Walk(tail))
  {
    var s := Layout(m) + tail;
    LayoutFields(m, tail);
    if FullyPadded(m) {
      assert s[CmsgSpace(|m.data|)..] == tail;
    } else {
      assert FirstFDs(s) + [] == FirstFDs(s);
    }
  }

  /** Every sequence of well-formed control messages gives its descriptors in order, whether or not the last one is
  padded in full. */
  lemma {:induction false} WalkWellFormed(ms: seq<Cmsg>)
    requires Tight(ms)
    ensures Walk(LayoutAll(ms)) == Done(Carried(ms))
  {
    if ms != [] {
      WalkWellFormed(ms[1..]);
      WalkOne(ms[0], LayoutAll(ms[1..]));
    }
  }

  /** A malformed header after well-formed messages is reported together with exactly their descriptors. */
  lemma {:induction false} WalkMalformed(ms: seq<Cmsg>, junk: seq<byte>)
    requires AllPadded(ms) && BadHeader(junk)
    ensures Walk(LayoutAll(ms) + junk) == Malformed(Carried(ms))
  {
    if ms == [] {
      assert LayoutAll(ms) + junk == junk;
    } else {
      WalkMalformed(ms[1..], junk);
      WalkOne(ms[0], LayoutAll(ms[1..]) + junk);
      assert LayoutAll(ms) + junk == Layout(ms[0]) + (LayoutAll(ms[1..]) + junk);
    }
  }

  /** The message at the front of a buffer. */
  lemma FirstMessage(oob: seq<byte>) returns (m: Cmsg, end: nat)
    requires oob != [] && !BadHeader(oob) && |oob| < 0x1_0000_0000
    requires IsRights(oob) ==> Whole(oob[SIZEOF_CMSGHDR..LenAt(oob)])
    ensures WellFormed(m) && end <= |oob| && (end < |oob| ==> FullyPadded(m)) && Layout(m) == oob[..end]
  {
    var n := LenAt(oob);
    end := if CmsgSpace(n - SIZEOF_CMSGHDR) <= |oob| then CmsgSpace(n - SIZEOF_CMSGHDR) else |oob|;
    m := Cmsg(WordAt(oob[8..]), WordAt(oob[12..]), oob[SIZEOF_CMSGHDR..n], oob[n..end]);
    WordInverse(oob[..4]);
    WordInverse(oob[4..8]);
    WordInverse(oob[8..12]);
    WordInverse(oob[12..16]);
    assert WordAt(oob[..4]) == WordAt(oob) == n && WordAt(oob[4..8]) == WordAt(oob[4..]) == 0;
    assert WordAt(oob[8..12]) == m.level && WordAt(oob[12..16]) == m.kind;
    assert oob[..end] == oob[..4] + oob[4..8] + oob[8..12] + oob[12..16] + oob[16..n] + oob[n..end];
  }

  /** One step of the walk, read backwards: the message it passed over and what is left. */
  lemma Unstep(oob: seq<byte>) returns (m: Cmsg, tail: seq<byte>)
    requires oob != [] && |oob| < 0x1_0000_0000 && !Walk(oob).Panics? && !BadHeader(oob)
    ensures WellFormed(m) && (tail == [] || FullyPadded(m))
    ensures oob == Layout(m) + tail && |tail| < |oob|
    ensures Walk(oob) == Prepend(CarriedBy(m), Walk(tail))
  {
    var end;
    m, end := FirstMessage(oob);
    tail := oob[end..];
    assert oob == oob[..end] + tail;
    WalkOne(m, tail);
  }

  lemma ConsMessage(m: Cmsg, rest: seq<Cmsg>, junk: seq<byte>) returns (ms: seq<Cmsg>)
    requires WellFormed(m) && Tight(rest) && (rest == [] || FullyPadded(m))
    ensures Tight(ms) && (FullyPadded(m) && AllPadded(rest) ==> AllPadded(ms))
    ensures Carried(ms) == CarriedBy(m) + Carried(rest)
    ensures LayoutAll(ms) == Layout(m) + LayoutAll(rest)
    ensures LayoutAll(ms) + junk == Layout(m) + (LayoutAll(rest) + junk)
  {
    ms := [m] + rest;
    assert ms[0] == m && ms[1..] == rest;
  }

  /** Conversely, a buffer the walk gets through is the layout of some well-formed messages, and it returns theirs. */
  lemma {:induction false} WalkDoneMeans(oob: seq<byte>) returns (ms: seq<Cmsg>)
    requires |oob| < 0x1_0000_0000 && Walk(oob).Done?
    ensures Tight(ms) && oob == LayoutAll(ms) && Walk(oob).fds == Carried(ms)
    decreases |oob|
  {
    if oob == [] {
      ms := [];
    } else {
      var m, tail := Unstep(oob);
      var rest := WalkDoneMeans(tail);
      ms := ConsMessage(m, rest, []);
    }
  }

  /** And a buffer it rejects is some fully padded messages followed by a bad header. */
  lemma {:induction false} WalkMalformedMeans(oob: seq<byte>) returns (ms: seq<Cmsg>, junk: seq<byte>)
    requires |oob| < 0x1_0000_0000 && Walk(oob).Malformed?
    ensures AllPadded(ms) && BadHeader(junk)
    ensures oob == LayoutAll(ms) + junk && Walk(oob).fds == Carried(ms)
    decreases |oob|
  {
    if BadHeader(oob) {
      ms, junk := [], oob;
      assert LayoutAll(ms) + junk == oob;
    } else {
      var m, tail := Unstep(oob);
      var rest;
      rest, junk := WalkMalformedMeans(tail);
      ms := ConsMessage(m, rest, junk);
    }
  }
}

/** Machine words, byte strings and the two paddings the transport uses.

Go's fixed-width integers are subset types of `int`, so every conversion that could
wrap is written out where it happens. */
module Bytes {

  type byte = x: int | 0 <= x < 0x100
  type u16 = x: int | 0 <= x < 0x1_0000
  type u32 = x: int | 0 <= x < 0x1_0000_0000

  datatype Option<+T> = None | Some(value: T)

  /** The `n` low-order bytes of `v`, least significant first. */
  function LittleEndian(v: nat, n: nat): (s: seq<byte>)
    ensures |s| == n
  {
    if n == 0 then [] else [v % 0x100] + LittleEndian(v / 0x100, n - 1)
  }

  /** One little-endian wire word. */
  function Word(v: u32): (s: seq<byte>)
    ensures |s| == 4
  {
    LittleEndian(v, 4)
  }

  /** The little-endian word at the front of `s`. */
  function WordAt(s: seq<byte>): u32
    requires |s| >= 4
  {
    var b0: int, b1: int, b2: int, b3: int := s[0], s[1], s[2], s[3];
    b0 + 0x100 * (b1 + 0x100 * (b2 + 0x100 * b3))
  }

  /** The little-endian half word at the front of `s`. */
  function HalfAt(s: seq<byte>): u16
    requires |s| >= 2
  {
    var b0: int, b1: int := s[0], s[1];
    b0 + 0x100 * b1
  }

  /** The halves of a word are what shifting and masking give: `w >> 16` and `w & 0xffff`. */
  lemma HalvesAreShifts(s: seq<byte>)
    requires |s| >= 4
    ensures HalfAt(s[2..]) == WordAt(s) / 0x1_0000 && HalfAt(s) == WordAt(s) % 0x1_0000
  {
    assert WordAt(s) == HalfAt(s) + 0x1_0000 * HalfAt(s[2..]);
  }

  lemma FourBytes(v: u32)
    ensures Word(v) == [v % 0x100, v / 0x100 % 0x100, v / 0x100 / 0x100 % 0x100, v / 0x100 / 0x100 / 0x100]
  {
    var q1 := v / 0x100;
    var q2 := q1 / 0x100;
    var q3 := q2 / 0x100;
    assert LittleEndian(q3 / 0x100, 0) == [];
    assert LittleEndian(q3, 1) == [q3];
    assert LittleEndian(q2, 2) == [q2 % 0x100, q3];
    assert LittleEndian(q1, 3) == [q1 % 0x100, q2 % 0x100, q3];
  }

  lemma WordRoundTrip(v: u32, rest: seq<byte>)
    ensures WordAt(Word(v) + rest) == v
  {
    FourBytes(v);
    var q1 := v / 0x100;
    var q2 := q1 / 0x100;
    assert v == 0x100 * q1 + v % 0x100 && q1 == 0x100 * q2 + q1 % 0x100;
    assert (Word(v) + rest)[..4] == Word(v);
  }

  lemma WordInverse(s: seq<byte>)
    requires |s| == 4
    ensures Word(WordAt(s)) == s
  {
    var v := WordAt(s);
    FourBytes(v);
    var b1: int, b2: int, b3: int := s[1], s[2], s[3];
    assert v / 0x100 == b1 + 0x100 * (b2 + 0x100 * b3);
    assert v / 0x100 / 0x100 == b2 + 0x100 * b3;
  }

  /** `uint32(v)` and `int32(w)`: the two's-complement reinterpretations. */
  function ToWord(v: int): u32
    requires -0x8000_0000 <= v < 0x8000_0000
  {
    if v < 0 then v + 0x1_0000_0000 else v
  }

  function ToInt32(w: u32): int {
    if w >= 0x8000_0000 then w - 0x1_0000_0000 else w
  }

  /** The padding that completes `n` bytes to whole words. */
  function PadLen(n: nat): (p: nat)
    ensures p < 4
  {
    if n == 0 then 0 else if n < 4 then 4 - n else PadLen(n - 4)
  }

  function RoundUp4(n: nat): (r: nat)
    ensures n <= r < n + 4
  {
    n + PadLen(n)
  }

  /** The encoders and decoders compute the padding as `(4 - n % 4) % 4`, and the validator rounds up with
  `(n + 3) &^ 3`: both are the padding above. */
  lemma {:induction false} PaddingAgrees(n: nat)
    ensures (4 - n % 4) % 4 == PadLen(n)
    ensures (n + 3) - (n + 3) % 4 == RoundUp4(n)
    ensures RoundUp4(n) % 4 == 0
  {
    if n >= 4 {
      PaddingAgrees(n - 4);
      assert n % 4 == (n - 4) % 4 && (n + 3) % 4 == (n - 4 + 3) % 4;
      assert RoundUp4(n) == RoundUp4(n - 4) + 4;
    }
  }

  /** Whole words: `n % 4 == 0`. */
  predicate Aligned(n: nat) {
    PadLen(n) == 0
  }

  lemma AlignedIsMod(n: nat)
    ensures Aligned(n) <==> n % 4 == 0
  {
    PaddingAgrees(n);
  }

  lemma AlignedSum(a: nat, b: nat)
    requires a % 4 == 0 && b % 4 == 0
    ensures (a + b) % 4 == 0
  {
  }

  /** `uint32(n)` of a length. */
  function ToUint32(n: nat): u32 {
    n % 0x1_0000_0000
  }

  lemma ToUint32IsExact(n: nat)
    requires n < 0x1_0000_0000
    ensures ToUint32(n) == n
  {
  }

  /** Addition in `uint32`. */
  function WrapAdd(x: u32, y: u32): u32 {
    var sum: int := x + y;
    if sum >= 0x1_0000_0000 then sum - 0x1_0000_0000 else sum
  }

  function Zeros(n: nat): (s: seq<byte>)
    ensures |s| == n
  {
    seq(n, _ => 0)
  }

  lemma Reassociate<T>(a: seq<T>, b: seq<T>, c: seq<T>)
    ensures (a + b) + c == a + (b + c)
  {
  }

  lemma SliceOfSlice<T>(s: seq<T>, a: nat, b: nat, lo: nat, hi: nat)
    requires a <= b <= |s| && lo <= hi <= b - a
    ensures s[a..b][lo..hi] == s[a + lo..a + hi] && s[a..b][hi..] == s[a + hi..b]
  {
    var t := s[a..b];
    forall i | 0 <= i < hi - lo ensures t[lo..hi][i] == s[a + lo..a + hi][i] {
      assert t[lo..hi][i] == t[lo + i] == s[a + lo + i];
    }
    assert t[lo..hi] == s[a + lo..a + hi];
    assert t[hi..] == s[a + hi..b];
  }

  function Concat<T>(xs: seq<seq<T>>): seq<T> {
    if xs == [] then [] else xs[0] + Concat(xs[1..])
  }

  lemma {:induction false} ConcatAppend<T>(xs: seq<seq<T>>, x: seq<T>)
    ensures Concat(xs + [x]) == Concat(xs) + x
  {
    if xs == [] {
      assert xs + [x] == [x];
      assert Concat([x]) == x + Concat<T>([]);
    } else {
      assert (xs + [x])[1..] == xs[1..] + [x];
      ConcatAppend(xs[1..], x);
    }
  }

  /** Concatenates parts that may each be refused; one refusal refuses the whole. */
  function Join(es: seq<Option<seq<byte>>>): Option<seq<byte>> {
    if es == [] then Some([]) else
    match (es[0], Join(es[1..]))
    case (Some(p), Some(b)) => Some(p + b)
    case _ => None
  }

  lemma {:induction false} JoinConcat(a: seq<Option<seq<byte>>>, b: seq<Option<seq<byte>>>)
    ensures Join(a + b) == if Join(a).Some? && Join(b).Some? then Some(Join(a).value + Join(b).value) else None
  {
    var all := a + b;
    if a == [] {
      assert all == b;
      if Join(b).Some? {
        assert [] + Join(b).value == Join(b).value;
      }
    } else {
      assert all[0] == a[0] && all[1..] == a[1..] + b;
      JoinConcat(a[1..], b);
      if Join(a).Some? && Join(b).Some? {
        var p, q, r := a[0].value, Join(a[1..]).value, Join(b).value;
        assert (p + q) + r == p + (q + r);
      }
    }
  }

  /** What a loop has joined so far grows by one part, or the whole is refused. */
  lemma JoinStep(es: seq<Option<seq<byte>>>, i: nat)
    requires i < |es| && Join(es[..i]).Some?
    ensures es[i].Some? ==> Join(es[..i + 1]) == Some(Join(es[..i]).value + es[i].value)
    ensures es[i].None? ==> Join(es).None?
  {
    var one := [es[i]];
    assert es[..i + 1] == es[..i] + one && es == es[..i + 1] + es[i + 1..];
    assert one[1..] == [];
    if es[i].Some? {
      assert es[i].value + [] == es[i].value;
    }
    JoinConcat(es[..i], one);
    JoinConcat(es[..i + 1], es[i + 1..]);
  }
}

/** Event signatures, the grammar of legal bodies, and the validator (signature.go). */
module Signature {
  import opened Bytes

  datatype Kind = KInt | KUint | KFixed | KObject | KNewId | KString | KArray | KFd

  function Name(k: Kind): (name: string)
    ensures ',' !in name
  {
    match k
    case KInt => "int"
    case KUint => "uint"
    case KFixed => "fixed"
    case KObject => "object"
    case KNewId => "new_id"
    case KString => "string"
    case KArray => "array"
    case KFd => "fd"
  }

  /** The signature text of a list of kinds: every kind is terminated by a comma. */
  function SigText(ks: seq<Kind>): string {
    if ks == [] then "" else Name(ks[0]) + "," + SigText(ks[1..])
  }

  /** The grammar: `b` is one legal wire value of kind `k`. A descriptor has no bytes; padding bytes are
  free; a string of length 0 is the null string, any other must end in NUL. */
  predicate Legal(k: Kind, b: seq<byte>) {
    match k
    case KFd => b == []
    case KString =>
      |b| >= 4 && |b| == 4 + RoundUp4(WordAt(b)) &&
      (WordAt(b) > 0 ==> b[4 + WordAt(b) - 1] == 0)
    case KArray => |b| >= 4 && |b| == 4 + RoundUp4(WordAt(b))
    case _ => |b| == 4
  }

  /** `sig` lists the kinds `ks`, and `body` is the concatenation of one legal value for each. */
  ghost predicate Matches(ks: seq<Kind>, parts: seq<seq<byte>>, sig: string, body: seq<byte>) {
    && sig == SigText(ks)
    && |parts| == |ks|
    && (forall i | 0 <= i < |ks| :: Legal(ks[i], parts[i]))
    && body == Concat(parts)
  }

  ghost predicate Accepts(sig: string, body: seq<byte>) {
    exists ks, parts :: Matches(ks, parts, sig, body)
  }

  const KINDS: map<string, Kind> := map[
    "int" := KInt, "uint" := KUint, "fixed" := KFixed, "object" := KObject, "new_id" := KNewId,
    "string" := KString, "array" := KArray, "fd" := KFd]

  function KindOf(name: string): (k: Option<Kind>)
    ensures k.Some? ==> Name(k.value) == name
    ensures k.None? ==> forall j :: Name(j) != name
  {
    if name in KINDS then Some(KINDS[name]) else None
  }

  /** How many bytes at the front of `b` form a value of kind `k`, if any do. */
  function ValueLen(k: Kind, b: seq<byte>): (n: Option<nat>)
    ensures n.Some? ==> n.value <= |b|
  {
    if k == KFd then Some(0)
    else if |b| < 4 then None
    else if k != KString && k != KArray then Some(4)
    else
      var n := WordAt(b);
      if 4 + RoundUp4(n) > |b| then None
      else if k == KString && n > 0 && b[4 + n - 1] != 0 then None
      else Some(4 + RoundUp4(n))
  }

  /** Legal values are self-delimiting: at most one prefix of `b` is a value of kind `k`. */
  lemma LegalPrefix(k: Kind, b: seq<byte>, n: nat)
    requires n <= |b|
    ensures Legal(k, b[..n]) <==> ValueLen(k, b) == Some(n)
  {
    if n >= 4 {
      assert WordAt(b[..n]) == WordAt(b);
    }
  }

  lemma NamesInjective(j: Kind, k: Kind)
    requires Name(j) == Name(k)
    ensures j == k
  {
    assert |Name(j)| == |Name(k)| && Name(j)[0] == Name(k)[0] && Name(j)[1] == Name(k)[1];
  }

  /** A comma ends exactly one kind, so the text determines the first kind and the rest. */
  lemma SplitAtComma(a: string, b: string, restA: string, restB: string)
    requires ',' !in a && ',' !in b
    requires a + "," + restA == b + "," + restB
    ensures a == b && restA == restB
  {
    var s := a + "," + restA;
    assert s == b + "," + restB;
    assert s[|a|] == ',' && s[|b|] == ',';
    assert forall i | 0 <= i < |a| :: s[i] == a[i];
    assert forall i | 0 <= i < |b| :: s[i] == b[i];
    assert |a| == |b|;
    assert s[..|a|] == a && s[..|b|] == b;
    assert s[|a| + 1..] == restA && s[|b| + 1..] == restB;
  }

  lemma MatchesTail(ks: seq<Kind>, parts: seq<seq<byte>>, sig: string, body: seq<byte>)
    requires Matches(ks, parts, sig, body) && ks != []
    ensures Matches(ks[1..], parts[1..], SigText(ks[1..]), body[|parts[0]|..])
    ensures |parts[0]| <= |body| && parts[0] == body[..|parts[0]|]
  {
    assert body == parts[0] + Concat(parts[1..]);
    assert body[|parts[0]|..] == Concat(parts[1..]);
  }

  /** One turn of the validator's loop, as a fact about the grammar. */
  lemma AcceptsStep(name: string, rest: string, b: seq<byte>)
    requires ',' !in name
    ensures Accepts(name + "," + rest, b) <==>
            KindOf(name).Some? && ValueLen(KindOf(name).value, b).Some? &&
            Accepts(rest, b[ValueLen(KindOf(name).value, b).value..])
  {
    if Accepts(name + "," + rest, b) {
      var ks, parts :| Matches(ks, parts, name + "," + rest, b);
      FirstValue(name, rest, b, ks, parts);
    }
    if KindOf(name).Some? && ValueLen(KindOf(name).value, b).Some? {
      PrependValue(KindOf(name).value, rest, b);
    }
  }

  lemma PrependValue(k: Kind, rest: string, b: seq<byte>)
    requires ValueLen(k, b).Some?
    ensures Accepts(rest, b[ValueLen(k, b).value..]) ==> Accepts(Name(k) + "," + rest, b)
  {
    var n := ValueLen(k, b).value;
    LegalPrefix(k, b, n);
    PrependLegal(k, b[..n], rest, b[n..]);
    assert b == b[..n] + b[n..];
  }

  lemma PrependLegal(k: Kind, part: seq<byte>, rest: string, body: seq<byte>)
    requires Legal(k, part)
    ensures Accepts(rest, body) ==> Accepts(Name(k) + "," + rest, part + body)
  {
    if Accepts(rest, body) {
      var ks, parts :| Matches(ks, parts, rest, body);
      MatchesCons(k, part, ks, parts, rest, body);
    }
  }

  lemma FirstValue(name: string, rest: string, b: seq<byte>, ks: seq<Kind>, parts: seq<seq<byte>>)
    requires ',' !in name && Matches(ks, parts, name + "," + rest, b)
    ensures ks != [] && KindOf(name) == Some(ks[0]) && ValueLen(ks[0], b) == Some(|parts[0]|)
    ensures Matches(ks[1..], parts[1..], rest, b[|parts[0]|..])
  {
    SplitAtComma(name, Name(ks[0]), rest, SigText(ks[1..]));
    NamesInjective(KindOf(name).value, ks[0]);
    MatchesTail(ks, parts, name + "," + rest, b);
    LegalPrefix(ks[0], b, |parts[0]|);
  }

  lemma MatchesCons(k: Kind, part: seq<byte>, ks: seq<Kind>, parts: seq<seq<byte>>, sig: string, body: seq<byte>)
    requires Legal(k, part) && Matches(ks, parts, sig, body)
    ensures Matches([k] + ks, [part] + parts, Name(k) + "," + sig, part + body)
  {
    assert ([k] + ks)[1..] == ks && ([part] + parts)[1..] == parts;
  }

  lemma EveryKindEndsInComma(ks: seq<Kind>)
    ensures ks != [] ==> ',' in SigText(ks)
  {
    if ks != [] {
      assert SigText(ks)[|Name(ks[0])|] == ',';
    }
  }

  lemma AcceptsEnd(sig: string, body: seq<byte>)
    requires ',' !in sig
    ensures Accepts(sig, body) <==> sig == "" && body == []
  {
    if Accepts(sig, body) {
      var ks, parts :| Matches(ks, parts, sig, body);
      EveryKindEndsInComma(ks);
    }
    if sig == "" && body == [] {
      assert Matches([], [], sig, body);
    }
  }

  lemma {:induction false} SigTextSnoc(ks: seq<Kind>, k: Kind)
    ensures SigText(ks + [k]) == SigText(ks) + Name(k) + ","
  {
    if ks == [] {
      assert SigText([k]) == Name(k) + "," + SigText([]);
    } else {
      assert (ks + [k])[1..] == ks[1..] + [k];
      SigTextSnoc(ks[1..], k);
    }
  }

  /** The first comma of `s` at or after `i`, or its length. */
  function Comma(s: string, i: nat := 0): (c: nat)
    requires i <= |s|
    ensures i <= c <= |s| && (c < |s| ==> s[c] == ',') && forall j | i <= j < c :: s[j] != ','
    decreases |s| - i
  {
    if i == |s| || s[i] == ',' then i else Comma(s, i + 1)
  }

  /** Left-to-right checking of a body against the text of a signature. */
  predicate Checks(sig: string, body: seq<byte>)
    decreases |sig|
  {
    if sig == "" then body == [] else
    var c := Comma(sig);
    c < |sig| && KindOf(sig[..c]).Some? &&
    var n := ValueLen(KindOf(sig[..c]).value, body);
    n.Some? && Checks(sig[c + 1..], body[n.value..])
  }

  /** Checking is sound and complete for the grammar: a body passes exactly when the signature is a sequence of known,
  comma-terminated kinds and the body is a concatenation of legal values for them with nothing left over. */
  lemma {:induction false} ChecksIsAccepts(sig: string, body: seq<byte>)
    ensures Checks(sig, body) <==> Accepts(sig, body)
    decreases |sig|
  {
    var c := Comma(sig);
    if c < |sig| {
      var name, rest := sig[..c], sig[c + 1..];
      assert sig == name + "," + rest;
      AcceptsStep(name, rest, body);
      if KindOf(name).Some? && ValueLen(KindOf(name).value, body).Some? {
        ChecksIsAccepts(rest, body[ValueLen(KindOf(name).value, body).value..]);
      }
    } else {
      assert sig[..c] == sig;
      AcceptsEnd(sig, body);
    }
  }

  datatype BodyFault = InvalidSignature | InvalidKind | MalformedFrame

  /** The argument switch of `validateEventBody`: where the value of this kind at `pos` ends. */
  method ArgumentEnd(kind: string, body: seq<byte>, pos: nat) returns (fault: Option<BodyFault>, end: nat)
    requires pos <= |body|
    ensures fault.None? <==> KindOf(kind).Some? && ValueLen(KindOf(kind).value, body[pos..]).Some?
    ensures fault.None? ==> end == pos + ValueLen(KindOf(kind).value, body[pos..]).value
  {
    end := pos;
    if kind == "fd" {
      return None, pos;
    }
    if |body| - pos < 4 {
      return Some(MalformedFrame), pos;
    }
    if kind == "int" || kind == "uint" || kind == "fixed" || kind == "object" || kind == "new_id" {
      return None, pos + 4;
    } else if kind == "string" || kind == "array" {
      var n: int := WordAt(body[pos..]);
      end := pos + 4;
      var padded := (n + 3) - (n + 3) % 4; // `(n + 3) &^ 3`, at most 2^32: no overflow in 64 bits
      PaddingAgrees(n);
      if padded > |body| - end {
        return Some(MalformedFrame), pos;
      }
      if kind == "string" && n > 0 && body[end + n - 1] != 0 {
        return Some(MalformedFrame), pos;
      }
      return None, end + padded;
    } else {
      return Some(InvalidKind), pos;
    }
  }

  /** `parts` are legal values of the kinds `ks`, `done` is their signature, `prefix` their bytes, and `marks` the
  offsets at which each of them ends. */
  ghost predicate Trail(ks: seq<Kind>, parts: seq<seq<byte>>, marks: seq<nat>, done: string, prefix: seq<byte>) {
    && Matches(ks, parts, done, prefix)
    && |marks| == |ks|
    && forall i | 0 <= i < |ks| :: marks[i] == |Concat(parts[..i + 1])|
  }

  /** Whether the rest of a body checks. (Bound, so that only proofs that name it look any further.) */
  ghost predicate Judges(verdict: bool, rest: string, b: seq<byte>) {
    forall r | r == rest :: verdict <==> Checks(r, b)
  }

  /** The scanning loop of `validateEventBody`. */
  method FindComma(s: string) returns (end: nat)
    ensures end == Comma(s)
  {
    end := 0;
    while end < |s| && s[end] != ','
      invariant end <= |s| && Comma(s, end) == Comma(s)
    {
      end := end + 1;
    }
  }

  /** `validateEventBody`: it accepts exactly the bodies that check, and `marks` records its position
  after each argument: the end of that argument's value. */
  method ValidateEventBody(sig: string, body: seq<byte>)
    returns (fault: Option<BodyFault>, ghost ks: seq<Kind>, ghost parts: seq<seq<byte>>, ghost marks: seq<nat>)
    ensures fault.None? <==> Checks(sig, body)
    ensures fault.None? ==> Trail(ks, parts, marks, sig, body)
  {
    ks, parts, marks := [], [], [];
    var rest := sig;
    var pos := 0;
    assert Trail(ks, parts, marks, "", []);
    ghost var done, verdict := "", Checks(sig, body);
    assert body[0..] == body;
    while |rest| > 0
      invariant 0 <= pos <= |body|
      invariant Judges(verdict, rest, body[pos..])
      invariant sig == done + rest
      invariant Trail(ks, parts, marks, done, body[..pos])
      decreases |rest|
    {
      var end := FindComma(rest);
      var kind := rest[..end];
      if end == |rest| {
        Rejected(verdict, rest, body[pos..]);
        return Some(InvalidSignature), ks, parts, marks;
      }
      var bad, next := ArgumentEnd(kind, body, pos);
      if bad.Some? {
        Rejected(verdict, rest, body[pos..]);
        return bad, ks, parts, marks;
      }
      ghost var k := KindOf(kind).value;
      ChecksOn(verdict, k, rest, body, pos, next);
      ks, parts, marks, done := OneArgument(k, ks, parts, marks, done, rest, body, pos, next);
      rest, pos := rest[end + 1..], next;
    }
    AllChecked(verdict, rest, body[pos..]);
    if pos != |body| {
      return Some(MalformedFrame), ks, parts, marks;
    }
    assert body[..pos] == body && done == sig;
    fault := None;
  }

  /** Ghost bookkeeping of one accepted argument. */
  lemma OneArgument(k: Kind, ks: seq<Kind>, parts: seq<seq<byte>>, marks: seq<nat>, done: string, rest: string,
                    body: seq<byte>, from: nat, to: nat)
    returns (ks': seq<Kind>, parts': seq<seq<byte>>, marks': seq<nat>, done': string)
    requires from <= to <= |body| && Trail(ks, parts, marks, done, body[..from])
    requires Comma(rest) < |rest| && KindOf(rest[..Comma(rest)]) == Some(k)
    requires ValueLen(k, body[from..]) == Some(to - from)
    ensures marks' == marks + [to] && Trail(ks', parts', marks', done', body[..to])
    ensures done' + rest[Comma(rest) + 1..] == done + rest
  {
    ks', parts', marks', done' := TrailSnoc(k, ks, parts, marks, done, body, from, to);
    Resplit(done, rest, Comma(rest));
  }

  lemma ChecksOn(verdict: bool, k: Kind, rest: string, body: seq<byte>, from: nat, to: nat)
    requires from <= to <= |body| && Comma(rest) < |rest| && KindOf(rest[..Comma(rest)]) == Some(k)
    requires ValueLen(k, body[from..]) == Some(to - from) && Judges(verdict, rest, body[from..])
    ensures Judges(verdict, rest[Comma(rest) + 1..], body[to..])
  {
    assert body[from..][to - from..] == body[to..];
    ChecksNext(verdict, k, rest, body[from..], to - from);
  }

  lemma ChecksNext(verdict: bool, k: Kind, rest: string, b: seq<byte>, n: nat)
    requires Comma(rest) < |rest| && KindOf(rest[..Comma(rest)]) == Some(k) && ValueLen(k, b) == Some(n)
    requires Judges(verdict, rest, b)
    ensures Judges(verdict, rest[Comma(rest) + 1..], b[n..])
  {
    assert verdict <==> Checks(rest, b);
  }

  lemma Rejected(verdict: bool, rest: string, b: seq<byte>)
    requires Judges(verdict, rest, b) && rest != ""
    requires var c := Comma(rest);
             c == |rest| || KindOf(rest[..c]).None? || ValueLen(KindOf(rest[..c]).value, b).None?
    ensures !verdict
  {
    assert verdict <==> Checks(rest, b);
  }

  lemma AllChecked(verdict: bool, rest: string, b: seq<byte>)
    requires Judges(verdict, rest, b) && rest == ""
    ensures verdict <==> b == []
  {
    assert verdict <==> Checks(rest, b);
  }

  lemma Resplit(done: string, rest: string, c: nat)
    requires c < |rest| && rest[c] == ','
    ensures (done + rest[..c] + ",") + rest[c + 1..] == done + rest
  {
    assert rest == rest[..c] + "," + rest[c + 1..];
  }

  lemma TrailSnoc(k: Kind, ks: seq<Kind>, parts: seq<seq<byte>>, marks: seq<nat>, done: string,
                  body: seq<byte>, from: nat, to: nat)
    returns (ks': seq<Kind>, parts': seq<seq<byte>>, marks': seq<nat>, done': string)
    requires from <= to <= |body| && Trail(ks, parts, marks, done, body[..from])
    requires ValueLen(k, body[from..]) == Some(to - from)
    ensures done' == done + Name(k) + "," && Trail(ks', parts', marks', done', body[..to])
    ensures marks' == marks + [to]
  {
    done' := done + Name(k) + ",";
    var part := body[from..to];
    ks', parts', marks' := ks + [k], parts + [part], marks + [to];
    SigTextSnoc(ks, k);
    ConcatAppend(parts, part);
    assert body[..to] == body[..from] + part;
    LegalPrefix(k, body[from..], to - from);
    assert body[from..][..to - from] == part;
    forall i | 0 <= i < |ks'| ensures marks'[i] == |Concat(parts'[..i + 1])| {
      if i < |ks| {
        assert parts'[..i + 1] == parts[..i + 1];
      } else {
        assert parts'[..i + 1] == parts';
      }
    }
  }

  /** The text and the body determine the kinds and the values: the grammar is unambiguous. */
  lemma {:induction false} Unambiguous(ks: seq<Kind>, parts: seq<seq<byte>>, ks': seq<Kind>, parts': seq<seq<byte>>,
                                       sig: string, body: seq<byte>)
    requires Matches(ks, parts, sig, body) && Matches(ks', parts', sig, body)
    ensures ks == ks' && parts == parts'
    decreases |ks|
  {
    if ks != [] {
      assert ks' != [];
      SplitAtComma(Name(ks[0]), Name(ks'[0]), SigText(ks[1..]), SigText(ks'[1..]));
      NamesInjective(ks[0], ks'[0]);
      MatchesTail(ks, parts, sig, body);
      MatchesTail(ks', parts', sig, body);
      LegalPrefix(ks[0], body, |parts[0]|);
      LegalPrefix(ks[0], body, |parts'[0]|);
      Unambiguous(ks[1..], parts[1..], ks'[1..], parts'[1..], SigText(ks[1..]), body[|parts[0]|..]);
      assert ks == [ks[0]] + ks[1..] && ks' == [ks'[0]] + ks'[1..];
      assert parts == [parts[0]] + parts[1..] && parts' == [parts'[0]] + parts'[1..];
    } else {
      EveryKindEndsInComma(ks');
    }
  }

  /** `strings.Count(sig, "fd,")`: non-overlapping occurrences, left to right. */
  function CountFd(sig: string): nat {
    if |sig| < 3 then 0
    else if sig[0] == 'f' && sig[1] == 'd' && sig[2] == ',' then 1 + CountFd(sig[3..])
    else CountFd(sig[1..])
  }

  function FdKinds(ks: seq<Kind>): nat {
    if ks == [] then 0 else (if ks[0] == KFd then 1 else 0) + FdKinds(ks[1..])
  }

  predicate EndsInFd(a: string) {
    |a| >= 2 && a[|a| - 2] == 'f' && a[|a| - 1] == 'd'
  }

  /** Scanning over a name that does not end in "fd" finds nothing. */
  lemma {:induction false} CountFdSkip(a: string, rest: string)
    requires ',' !in a && !EndsInFd(a)
    ensures CountFd(a + "," + rest) == CountFd(rest)
    decreases |a|
  {
    var s := a + "," + rest;
    assert forall i | 0 <= i < |a| :: s[i] == a[i];
    assert s[|a|] == ',';
    if a == "" {
      assert s[1..] == rest;
    } else {
      assert s[1..] == a[1..] + "," + rest;
      CountFdSkip(a[1..], rest);
    }
  }

  /** The descriptor count the dispatcher takes from the text is the number of descriptor arguments. */
  lemma {:induction false} CountFdIsFdKinds(ks: seq<Kind>)
    ensures CountFd(SigText(ks)) == FdKinds(ks)
  {
    if ks != [] {
      CountFdIsFdKinds(ks[1..]);
      var rest := SigText(ks[1..]);
      if ks[0] == KFd {
        assert SigText(ks) == "fd," + rest && ("fd," + rest)[3..] == rest;
      } else {
        CountFdSkip(Name(ks[0]), rest);
      }
    }
  }
}

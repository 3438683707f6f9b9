/** One call of `nextFrame` (client.go), without the buffer: what it must do with the reads and the bytes at hand, and
that nothing else keeps that promise. How a read is parsed and how bytes are framed does not matter here, so both are
parameters. */
module Calls {
  import opened Bytes
  import opened Errors
  import opened Wire

  /** One read: its bytes and its fault. */
  datatype Chunk = Chunk(bytes: seq<byte>, fault: Option<Error>)

  type Source = nat -> Chunk

  /** What some bytes start with. */
  type Look = seq<byte> -> ReadResult

  function Looker(max: u32): Look {
    s => ReadFrame(s, max)
  }

  /** What `fill` remembers of a read's fault: everything but a deadline, and the end of the stream as an unexpected
  one. */
  function Remembered(fault: Option<Error>): Option<Error> {
    match fault
    case None => None
    case Some(Deadline) => None
    case Some(Eof) => Some(UnexpectedEof)
    case Some(_) => fault
  }

  /** What it reports at once: a deadline, a control failure, and anything that came without bytes. */
  function Reported(fault: Option<Error>, empty: bool): Option<Error> {
    if fault == Some(Deadline) then fault
    else if empty || (fault.Some? && fault.value.Protocol?) then Remembered(fault)
    else None
  }

  function ReportedBy(c: Chunk): Option<Error> {
    Reported(c.fault, c.bytes == [])
  }

  /** The bytes of the reads `from`, ..., `end - 1`, behind those at hand. */
  function Gathered(source: Source, before: seq<byte>, from: nat, end: nat): seq<byte>
    requires from <= end
    decreases end
  {
    if from == end then before else Gathered(source, before, from, end - 1) + source(end - 1).bytes
  }

  /** No complete message and no bad header. */
  predicate Partial(r: ReadResult) {
    !r.Framed? && !r.Malformed?
  }

  /** The state `nextFrame` depends on: the number of reads made, the unread bytes, the remembered error. */
  datatype Point = Point(made: nat, unread: seq<byte>, err: Option<Error>)

  datatype Result = Got(frame: Frame) | Failed(err: Error)

  /** On a closed display every error of a read is `net.ErrClosed`. */
  function Failure(e: Error, closed: bool): Result {
    Failed(if closed then Closed else e)
  }

  /** Up to `b`, the call has only read, and had to: nothing was complete, nothing had been remembered, and no read but
  the last had a fault. */
  ghost predicate OnlyRead(source: Source, look: Look, a: Point, b: Point) {
    && a.made <= b.made && (a.made < b.made ==> a.err.None?)
    && (forall k | a.made <= k < b.made :: Partial(look(Gathered(source, a.unread, a.made, k))))
    && (forall k | a.made <= k < b.made - 1 :: source(k).fault.None?)
    && b.unread == Gathered(source, a.unread, a.made, b.made)
    && b.err == if a.made == b.made then a.err else Remembered(source(b.made - 1).fault)
  }

  /** What the last read reports. */
  function LastReported(source: Source, a: Point, b: Point): Option<Error> {
    if a.made < b.made then ReportedBy(source(b.made - 1)) else None
  }

  /** How a call ends that has only read up to `b`: with the error the last read reports, or the frame or the bad header
  the gathered bytes start with, or, when nothing is complete, the remembered error. If there is none it goes on. */
  function Verdict(report: Option<Error>, r: ReadResult, err: Option<Error>, closed: bool): Option<Result> {
    if report.Some? then Some(Failure(report.value, closed))
    else match r
      case Framed(f, _) => Some(Got(f))
      case Malformed(fault) => Some(Failed(Protocol(BadFrameHeader(fault))))
      case _ => if err.Some? then Some(Failure(err.value, closed)) else None
  }

  /** What it leaves unread: a frame is taken off. */
  function Left(out: Result, r: ReadResult, unread: seq<byte>): seq<byte> {
    if out.Got? && r.Framed? then r.rest else unread
  }

  /** A call from `a`: it reads on to `b`, no further than it must, and ends there. */
  ghost predicate CallOk(source: Source, look: Look, closed: bool, a: Point, b: Point, out: Result) {
    OnlyRead(source, look, a, b) && Verdict(LastReported(source, a, b), look(b.unread), b.err, closed) == Some(out)
  }

  /** The gathered bytes in place of the unread ones. */
  function Full(source: Source, a: Point, c: Point): Point
    requires a.made <= c.made
  {
    c.(unread := Gathered(source, a.unread, a.made, c.made))
  }

  /** A whole call, by the states before and after. */
  ghost predicate Concluded(source: Source, look: Look, closed: bool, a: Point, c: Point, out: Result) {
    && a.made <= c.made
    && CallOk(source, look, closed, a, Full(source, a, c), out)
    && c.unread == Left(out, look(Full(source, a, c).unread), Full(source, a, c).unread)
  }

  // ----------------------------------------------------------- what that means

  /** A call does not end where another one reads on. */
  lemma EarlierIsQuiet(source: Source, look: Look, a: Point, c: Point, m: nat)
    requires OnlyRead(source, look, a, c) && a.made <= m < c.made
    ensures a.err.None? && Partial(look(Gathered(source, a.unread, a.made, m)))
    ensures a.made < m ==> source(m - 1).fault.None?
  {
  }

  /** No call that only reads gets past the end of one. */
  lemma NotFurther(source: Source, look: Look, closed: bool, a: Point, b: Point, out: Result, c: Point)
    requires CallOk(source, look, closed, a, b, out) && OnlyRead(source, look, a, c)
    ensures c.made <= b.made
  {
    if b.made < c.made {
      EarlierIsQuiet(source, look, a, c, b.made);
    }
  }

  /** The state before decides how far a call reads, what it returns and what it leaves: there is no other way to keep
  the promise. */
  lemma CallIsDetermined(source: Source, look: Look, closed: bool, a: Point, c: Point, out: Result, c': Point,
                         out': Result)
    requires Concluded(source, look, closed, a, c, out) && Concluded(source, look, closed, a, c', out')
    ensures c == c' && out == out'
  {
    NotFurther(source, look, closed, a, Full(source, a, c), out, Full(source, a, c'));
    NotFurther(source, look, closed, a, Full(source, a, c'), out', Full(source, a, c));
    assert Full(source, a, c) == Full(source, a, c');
  }

  /** A call that has no complete message and no remembered error at hand reads. */
  lemma CallReads(source: Source, look: Look, closed: bool, a: Point, c: Point, out: Result)
    requires Concluded(source, look, closed, a, c, out) && Partial(look(a.unread)) && a.err.None?
    ensures c.made > a.made
  {
  }

  /** If the reads up to `n` have no fault and complete a message, the call returns it, however they were cut. */
  lemma CallDelivers(source: Source, max: u32, closed: bool, a: Point, c: Point, out: Result, n: nat, f: Frame)
    requires Concluded(source, Looker(max), closed, a, c, out) && a.made <= n && a.err.None?
    requires forall k | a.made <= k < n :: source(k).fault.None?
    requires Starts(Gathered(source, a.unread, a.made, n), max, f)
    ensures out == Got(f) && c.made <= n
  {
    var b := Full(source, a, c);
    if n < b.made {
      EarlierIsQuiet(source, Looker(max), a, b, n);
    } else {
      GatheredExtends(source, a.unread, a.made, b.made, n);
      StartsEarlier(b.unread, Gathered(source, a.unread, a.made, n), max, f);
      FaultlessEnd(source, Looker(max), closed, a, b, out);
    }
  }

  /** The bytes start with this message. */
  predicate Starts(s: seq<byte>, max: u32, f: Frame) {
    var r := ReadFrame(s, max);
    r.Framed? && r.frame == f
  }

  lemma StartsEarlier(s: seq<byte>, t: seq<byte>, max: u32, f: Frame)
    requires s <= t && Starts(t, max, f)
    ensures Partial(ReadFrame(s, max)) || Starts(s, max, f)
  {
    assert t == s + t[|s|..];
    ReadFrameExtend(s, t[|s|..], max);
  }

  lemma FaultlessEnd(source: Source, look: Look, closed: bool, a: Point, b: Point, out: Result)
    requires CallOk(source, look, closed, a, b, out) && a.err.None?
    requires a.made < b.made ==> source(b.made - 1).fault.None?
    ensures !Partial(look(b.unread))
    ensures look(b.unread).Framed? ==> out == Got(look(b.unread).frame)
  {
  }

  lemma {:induction false} GatheredExtends(source: Source, before: seq<byte>, from: nat, mid: nat, end: nat)
    requires from <= mid <= end
    ensures Gathered(source, before, from, mid) <= Gathered(source, before, from, end)
    decreases end
  {
    if mid < end {
      GatheredExtends(source, before, from, mid, end - 1);
    }
  }

  /** What the last read reports ends the call, and is remembered unless it is a deadline. */
  lemma LastReport(source: Source, look: Look, closed: bool, a: Point, c: Point, out: Result)
    requires Concluded(source, look, closed, a, c, out) && a.made < c.made && ReportedBy(source(c.made - 1)).Some?
    ensures out == Failure(ReportedBy(source(c.made - 1)).value, closed)
    ensures c.err == Remembered(source(c.made - 1).fault)
  {
  }

  /** A deadline is reported only when the last read missed it, and is not remembered. */
  lemma DeadlineMeans(source: Source, look: Look, a: Point, c: Point)
    requires Concluded(source, look, false, a, c, Failed(Deadline)) && a.err != Some(Deadline)
    ensures a.made < c.made && source(c.made - 1).fault == Some(Deadline) && c.err.None?
  {
  }

  // ------------------------------------------------------------ turn by turn

  /** Once around the loop: a result, or one read. */
  ghost predicate TurnOk(source: Source, look: Look, closed: bool, b: Point, c: Point, out: Option<Result>) {
    match look(b.unread)
    case Framed(f, rest) => out == Some(Got(f)) && c == b.(unread := rest)
    case Malformed(fault) => out == Some(Failed(Protocol(BadFrameHeader(fault)))) && c == b
    case _ =>
      if b.err.Some? then out == Some(Failure(b.err.value, closed)) && c == b
      else
        && c == AfterRead(source, b)
        && out == match ReportedBy(source(b.made)) case Some(e) => Some(Failure(e, closed)) case None => None
  }

  function AfterRead(source: Source, b: Point): Point {
    Point(b.made + 1, b.unread + source(b.made).bytes, Remembered(source(b.made).fault))
  }

  /** A call that has not ended. */
  ghost predicate Underway(source: Source, look: Look, a: Point, b: Point) {
    OnlyRead(source, look, a, b) && LastReported(source, a, b).None?
  }

  /** One more read of a call that must go on. */
  lemma ReadOn(source: Source, look: Look, a: Point, b: Point)
    requires Underway(source, look, a, b) && Partial(look(b.unread)) && b.err.None?
    ensures OnlyRead(source, look, a, AfterRead(source, b))
  {
    var c := AfterRead(source, b);
    forall k | a.made <= k < c.made - 1 ensures source(k).fault.None? {
      if k == b.made - 1 {
        assert Remembered(source(k).fault).None? && ReportedBy(source(k)).None?;
      }
    }
  }

  lemma TurnGoesOn(source: Source, look: Look, closed: bool, a: Point, b: Point, c: Point)
    requires Underway(source, look, a, b) && TurnOk(source, look, closed, b, c, None)
    ensures Underway(source, look, a, c)
  {
    ReadOn(source, look, a, b);
  }

  lemma TurnEnds(source: Source, look: Look, closed: bool, a: Point, b: Point, c: Point, out: Result)
    requires Underway(source, look, a, b) && TurnOk(source, look, closed, b, c, Some(out))
    ensures Concluded(source, look, closed, a, c, out)
  {
    if Partial(look(b.unread)) && b.err.None? {
      ReadOn(source, look, a, b);
      assert Full(source, a, c) == c;
    } else {
      assert Full(source, a, c) == b;
    }
  }
}

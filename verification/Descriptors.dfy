/** Received descriptors under every interleaving of `Dispatch` and `Close` (client.go `Dispatch`, `dispatchFrame`,
`prepareFrame`, `fail`, `Close`; core.go `OwnedFD`, `Event.FD`).

`dispatchMu` serialises dispatchers, so one program counter stands for whichever goroutine holds it; likewise only the
`Close` that wins the swap of `closed` does anything. `recvMu` is explicit. */
module Descriptors {
  import opened Bytes
  import opened Errors
  import opened Wire

  const DISPLAY_OBJECT_ID := 1

  // ---------------------------------------------------------- prepareFrame

  /** What the object table and the signatures say about a frame: whether its body is accepted, and how many
  descriptors the signature calls for. */
  datatype Target = NoObject | NoSignature | Known(accepted: bool, count: nat, zombie: bool)

  datatype Prepared =
    | ForDisplay
    | Assigned(fds: seq<int>, zombie: bool)
    | Refused(err: Error)

  /** The outcome of `prepareFrame`, the queue it leaves, and the descriptors it closes itself. */
  datatype Preparation = Preparation(out: Prepared, pending: seq<int>, shut: seq<int>)

  function Prepare(closed: bool, f: Frame, t: Target, pending: seq<int>, unread: bool): Preparation {
    if closed then Preparation(Refused(Closed), pending, [])
    else if f.obj == DISPLAY_OBJECT_ID then
      if pending != [] && !unread then Preparation(Refused(Protocol(ExtraFd)), pending, [])
      else Preparation(ForDisplay, pending, [])
    else match t
      case NoObject => Preparation(Refused(Protocol(UnknownObject)), pending, [])
      case NoSignature => Preparation(Refused(Protocol(UnknownOpcode)), pending, [])
      case Known(accepted, count, zombie) =>
        if !accepted then Preparation(Refused(Protocol(MalformedPayload)), pending, [])
        else if |pending| < count then Preparation(Refused(Protocol(MissingFd)), pending, [])
        else if !unread && pending[count..] != [] then
          Preparation(Refused(Protocol(ExtraFd)), pending[count..], pending[..count])
        else Preparation(Assigned(pending[..count], zombie), pending[count..], [])
  }

  /** Which frames are refused and why, in the order of the checks, and what the others get. */
  lemma PreparedExactly(closed: bool, f: Frame, t: Target, pending: seq<int>, unread: bool)
    ensures var out := Prepare(closed, f, t, pending, unread).out;
            var ours := !closed && f.obj != DISPLAY_OBJECT_ID;
            && (closed ==> out == Refused(Closed))
            && (!closed && f.obj == DISPLAY_OBJECT_ID ==>
                  out == if pending != [] && !unread then Refused(Protocol(ExtraFd)) else ForDisplay)
            && (ours && t.NoObject? ==> out == Refused(Protocol(UnknownObject)))
            && (ours && t.NoSignature? ==> out == Refused(Protocol(UnknownOpcode)))
            && (ours && t.Known? && !t.accepted ==> out == Refused(Protocol(MalformedPayload)))
            && (ours && t.Known? && t.accepted && |pending| < t.count ==> out == Refused(Protocol(MissingFd)))
            && (ours && t.Known? && t.accepted && t.count < |pending| && !unread ==> out == Refused(Protocol(ExtraFd)))
            && (ours && t.Known? && t.accepted && (t.count == |pending| || (t.count < |pending| && unread)) ==>
                  out == Assigned(pending[..t.count], t.zombie))
  {
  }

  // ----------------------------------------------------------- the machine

  datatype Mutex = Free | HeldByDispatch | HeldByClose

  datatype ReadOutcome = Got(frame: Frame) | Failed(err: Error)

  /** Where the goroutine inside `Dispatch` is. */
  datatype DispatchPc =
    | Idle                                  // nobody holds dispatchMu
    | Entered                               // before recvMu.Lock
    | Locked                                // recvMu held, before closed.Load
    | Reading                               // recvMu held, in nextFrame
    | HaveRead(out: ReadOutcome)            // before the second closed.Load
    | WantPrepare(frame: Frame)             // before recvMu.Lock in dispatchFrame
    | Preparing(frame: Frame)               // recvMu held, in prepareFrame
    | OnDisplay(frame: Frame)               // in handleDisplayEvent
    | Rechecking(fds: seq<int>)             // before the second look at the object table
    | Handling(fds: seq<int>)               // in the handler; `fds` not handed out yet
    | Finishing(fds: seq<int>)              // in the deferred loop; `fds` not closed yet
    | WantFail(err: Error)                  // before recvMu.Lock in fail
    | Failing(fds: seq<int>)                // recvMu held, in closePendingFDs
    | Leaving                               // about to release dispatchMu

  datatype ClosePc =
    | NotClosed
    | Flagged                               // closed is set
    | Hung                                  // the socket is closed, before recvMu.Lock
    | Clearing(fds: seq<int>)               // recvMu held, in closePendingFDs
    | Returned

  /** A prepared frame and its target. */
  datatype Job = Job(frame: Frame, target: Target)

  /** How many descriptors a frame calls for. */
  function Needs(job: Job): nat {
    if job.frame.obj == DISPLAY_OBJECT_ID || !job.target.Known? then 0 else job.target.count
  }

  /** The ghost record of what became of every descriptor. */
  datatype Log = Log(
    arrived: seq<int>,                      // every descriptor ever queued, in order
    handed: multiset<int>,                  // owned by handlers, still open
    taken: multiset<int>,                   // taken over by handlers
    shut: multiset<int>,                    // let go by a closing loop or by OwnedFD.Close
    given: seq<seq<int>>,                   // the descriptors assigned to each prepared frame
    jobs: seq<Job>,                         // and those frames, with what the tables said about them
    intact: bool                            // no Close, no refused frame, no error that clears the queue
  )

  datatype State = State(
    pc: DispatchPc,
    closer: ClosePc,
    closed: bool,
    recvMu: Mutex,
    pending: seq<int>,
    unread: bool,
    settled: bool,                          // no read since the last frame was prepared
    log: Log
  )

  const Init := State(Idle, NotClosed, false, Free, [], false, false,
                      Log([], multiset{}, multiset{}, multiset{}, [], [], true))

  function Shut(log: Log, fd: int): Log {
    log.(shut := log.shut + multiset{fd})
  }

  function ShutAll(log: Log, fds: seq<int>): (log': Log)
    ensures log' == log.(shut := log'.shut)
    decreases |fds|
  {
    if fds == [] then log else ShutAll(Shut(log, fds[0]), fds[1..])
  }

  function Spoil(log: Log, spoiled: bool): Log {
    log.(intact := log.intact && !spoiled)
  }

  /** Descriptors held by the event in dispatch or by a loop that is closing them. */
  function HeldIn(pc: DispatchPc): seq<int> {
    match pc
    case Rechecking(fds) => fds
    case Handling(fds) => fds
    case Finishing(fds) => fds
    case Failing(fds) => fds
    case _ => []
  }

  function HeldInClose(closer: ClosePc): seq<int> {
    if closer.Clearing? then closer.fds else []
  }

  /** The errors on which `fail` closes the queue. */
  predicate Clears(e: Error) {
    e.Protocol? || e == UnexpectedEof
  }

  /** Reading a frame under `recvMu`. */
  datatype ReadStep =
    | Enter | LockRecv | CheckClosed
    | QueueFDs(queued: seq<int>)
    | EndRead(out: ReadOutcome, unread: bool)
    | CheckAgain | LockPrepare

  /** Running the handler of a prepared frame. */
  datatype DeliverStep =
    | EndDisplayEvent(err: Option<Error>)
    | Recheck(same: bool)
    | HandOut | EndHandler | CloseUnclaimed | EndFrame

  /** `fail`, and leaving `Dispatch`. */
  datatype FailStep = LockFail | CloseQueued | EndFail | Leave

  /** A handler's own use of the descriptors it was given. */
  datatype UserStep = UserClose(fd: int) | UserTake(fd: int)

  datatype CloseStep = SetClosed | CloseSocket | LockClose | CloseOne | EndClose

  datatype Action =
    | Reads(r: ReadStep)
    | Prepares(target: Target)
    | Delivers(d: DeliverStep)
    | Fails(f: FailStep)
    | Uses(u: UserStep)
    | Closes(c: CloseStep)

  predicate CanRead(s: State, r: ReadStep) {
    match r
    case Enter => s.pc.Idle?
    case LockRecv => s.pc.Entered? && s.recvMu.Free?
    case CheckClosed => s.pc.Locked?
    case QueueFDs(_) => s.pc.Reading?
    case EndRead(_, _) => s.pc.Reading?
    case CheckAgain => s.pc.HaveRead?
    case LockPrepare => s.pc.WantPrepare? && s.recvMu.Free?
  }

  function AfterRead(s: State, r: ReadStep): State
    requires CanRead(s, r)
  {
    match r
    case Enter => s.(pc := Entered)
    case LockRecv => s.(pc := Locked, recvMu := HeldByDispatch)
    case CheckClosed =>
      if s.closed then s.(pc := Leaving, recvMu := Free) else s.(pc := Reading, settled := false)
    case QueueFDs(queued) => s.(pending := s.pending + queued, log := s.log.(arrived := s.log.arrived + queued))
    case EndRead(out, unread) => s.(pc := HaveRead(out), recvMu := Free, unread := unread)
    case CheckAgain =>
      if s.closed then s.(pc := Leaving)
      else if s.pc.out.Got? then s.(pc := WantPrepare(s.pc.out.frame))
      else s.(pc := WantFail(s.pc.out.err), log := Spoil(s.log, Clears(s.pc.out.err)))
    case LockPrepare => s.(pc := Preparing(s.pc.frame), recvMu := HeldByDispatch)
  }

  predicate CanDeliver(s: State, d: DeliverStep) {
    match d
    case EndDisplayEvent(_) => s.pc.OnDisplay?
    case Recheck(_) => s.pc.Rechecking?
    case HandOut => s.pc.Handling? && s.pc.fds != []
    case EndHandler => s.pc.Handling?
    case CloseUnclaimed => s.pc.Finishing? && s.pc.fds != []
    case EndFrame => s.pc.Finishing? && s.pc.fds == []
  }

  function AfterDeliver(s: State, d: DeliverStep): State
    requires CanDeliver(s, d)
  {
    match d
    case EndDisplayEvent(err) =>
      if err.None? then s.(pc := Leaving) else s.(pc := WantFail(err.value), log := Spoil(s.log, Clears(err.value)))
    case Recheck(same) => if same then s.(pc := Handling(s.pc.fds)) else s.(pc := Finishing(s.pc.fds))
    case HandOut => s.(pc := Handling(s.pc.fds[1..]), log := s.log.(handed := s.log.handed + multiset{s.pc.fds[0]}))
    case EndHandler => s.(pc := Finishing(s.pc.fds))
    case CloseUnclaimed => s.(pc := Finishing(s.pc.fds[1..]), log := Shut(s.log, s.pc.fds[0]))
    case EndFrame => s.(pc := Leaving)
  }

  predicate CanFail(s: State, f: FailStep) {
    match f
    case LockFail => s.pc.WantFail? && s.recvMu.Free?
    case CloseQueued => s.pc.Failing? && s.pc.fds != []
    case EndFail => s.pc.Failing? && s.pc.fds == []
    case Leave => s.pc.Leaving?
  }

  function AfterFail(s: State, f: FailStep): State
    requires CanFail(s, f)
  {
    match f
    case LockFail =>
      if Clears(s.pc.err) then s.(pc := Failing(s.pending), recvMu := HeldByDispatch, pending := [])
      else s.(pc := Failing([]), recvMu := HeldByDispatch)
    case CloseQueued => s.(pc := Failing(s.pc.fds[1..]), log := Shut(s.log, s.pc.fds[0]))
    case EndFail => s.(pc := Leaving, recvMu := Free)
    case Leave => s.(pc := Idle)
  }

  function AfterUse(s: State, u: UserStep): State {
    match u
    case UserClose(fd) => s.(log := s.log.(handed := s.log.handed - multiset{fd}, shut := s.log.shut + multiset{fd}))
    case UserTake(fd) => s.(log := s.log.(handed := s.log.handed - multiset{fd}, taken := s.log.taken + multiset{fd}))
  }

  predicate CanClose(s: State, c: CloseStep) {
    match c
    case SetClosed => s.closer.NotClosed?
    case CloseSocket => s.closer.Flagged?
    case LockClose => s.closer.Hung? && s.recvMu.Free?
    case CloseOne => s.closer.Clearing? && s.closer.fds != []
    case EndClose => s.closer.Clearing? && s.closer.fds == []
  }

  function AfterClose(s: State, c: CloseStep): State
    requires CanClose(s, c)
  {
    match c
    case SetClosed => s.(closer := Flagged, closed := true, log := Spoil(s.log, true))
    case CloseSocket => s.(closer := Hung)
    case LockClose => s.(closer := Clearing(s.pending), recvMu := HeldByClose, pending := [])
    case CloseOne => s.(closer := Clearing(s.closer.fds[1..]), log := Shut(s.log, s.closer.fds[0]))
    case EndClose => s.(closer := Returned, recvMu := Free)
  }

  predicate Enabled(s: State, a: Action) {
    match a
    case Reads(r) => CanRead(s, r)
    case Prepares(_) => s.pc.Preparing?
    case Delivers(d) => CanDeliver(s, d)
    case Fails(f) => CanFail(s, f)
    case Uses(u) => u.fd in s.log.handed && (u.UserTake? ==> u.fd >= 0)
    case Closes(c) => CanClose(s, c)
  }

  function Next(s: State, a: Action): State
    requires Enabled(s, a)
  {
    match a
    case Reads(r) => AfterRead(s, r)
    case Prepares(target) => AfterPrepare(s, target)
    case Delivers(d) => AfterDeliver(s, d)
    case Fails(f) => AfterFail(s, f)
    case Uses(u) => AfterUse(s, u)
    case Closes(c) => AfterClose(s, c)
  }

  function AfterPrepare(s: State, target: Target): State
    requires s.pc.Preparing?
  {
    var p := Prepare(s.closed, s.pc.frame, target, s.pending, s.unread);
    var s' := s.(recvMu := Free, pending := p.pending);
    match p.out
    case Refused(e) =>
      s'.(pc := WantFail(e), log := ShutAll(s.log, p.shut).(intact := false))
    case ForDisplay =>
      s'.(pc := OnDisplay(s.pc.frame), settled := true, log := Give(s.log, [], Job(s.pc.frame, target)))
    case Assigned(fds, zombie) =>
      s'.(pc := if zombie then Finishing(fds) else Rechecking(fds), settled := true,
          log := Give(s.log, fds, Job(s.pc.frame, target)))
  }

  function Give(log: Log, fds: seq<int>, job: Job): Log {
    log.(given := log.given + [fds], jobs := log.jobs + [job])
  }

  /** A schedule is any sequence of enabled steps. */
  predicate Legal(s: State, steps: seq<Action>)
    decreases |steps|
  {
    steps == [] || (Enabled(s, steps[0]) && Legal(Next(s, steps[0]), steps[1..]))
  }

  function Run(s: State, steps: seq<Action>): State
    requires Legal(s, steps)
    decreases |steps|
  {
    if steps == [] then s else Run(Next(s, steps[0]), steps[1..])
  }

  // --------------------------------------------------------- conservation

  /** Every descriptor ever queued is in exactly one place: descriptor number `x` has been queued as often as it now
  stands in the queue, in an event, in a closing loop, with a handler, taken over, or let go for closing. */
  predicate Conserved(s: State, x: int) {
    Count(s.log.arrived, x) ==
    Count(s.pending, x) + Count(HeldIn(s.pc), x) + Count(HeldInClose(s.closer), x)
    + s.log.handed[x] + s.log.taken[x] + s.log.shut[x]
  }

  function Count(s: seq<int>, x: int): nat {
    if s == [] then 0 else (if s[0] == x then 1 else 0) + Count(s[1..], x)
  }

  lemma {:induction false} CountAppend(a: seq<int>, b: seq<int>, x: int)
    ensures Count(a + b, x) == Count(a, x) + Count(b, x)
  {
    if a == [] {
      assert a + b == b;
    } else {
      assert (a + b)[1..] == a[1..] + b;
      CountAppend(a[1..], b, x);
    }
  }

  lemma CountSplit(s: seq<int>, n: nat, x: int)
    requires n <= |s|
    ensures Count(s, x) == Count(s[..n], x) + Count(s[n..], x)
  {
    assert s == s[..n] + s[n..];
    CountAppend(s[..n], s[n..], x);
  }

  lemma PrepareConserves(closed: bool, f: Frame, t: Target, pending: seq<int>, unread: bool, x: int)
    ensures var p := Prepare(closed, f, t, pending, unread);
            Count(pending, x) ==
            Count(p.pending, x) + Count(p.shut, x) + if p.out.Assigned? then Count(p.out.fds, x) else 0
    ensures !Prepare(closed, f, t, pending, unread).out.Refused? ==> Prepare(closed, f, t, pending, unread).shut == []
  {
    if t.Known? && t.count <= |pending| {
      CountSplit(pending, t.count, x);
    }
  }

  lemma {:induction false} ShutAllCounts(log: Log, fds: seq<int>, x: int)
    ensures ShutAll(log, fds).shut[x] == log.shut[x] + Count(fds, x)
    decreases |fds|
  {
    if fds != [] {
      ShutAllCounts(Shut(log, fds[0]), fds[1..], x);
    }
  }

  lemma PrepareItConserves(s: State, t: Target, x: int)
    requires Conserved(s, x) && s.pc.Preparing?
    ensures Conserved(AfterPrepare(s, t), x)
  {
    PrepareConserves(s.closed, s.pc.frame, t, s.pending, s.unread, x);
    ShutAllCounts(s.log, Prepare(s.closed, s.pc.frame, t, s.pending, s.unread).shut, x);
  }

  lemma HandOutConserves(s: State, x: int)
    requires Conserved(s, x) && s.pc.Handling? && s.pc.fds != []
    ensures Conserved(AfterDeliver(s, HandOut), x)
  {
  }

  lemma CloseUnclaimedConserves(s: State, x: int)
    requires Conserved(s, x) && s.pc.Finishing? && s.pc.fds != []
    ensures Conserved(AfterDeliver(s, CloseUnclaimed), x)
  {
  }

  lemma EndDisplayConserves(s: State, err: Option<Error>, x: int)
    requires Conserved(s, x) && CanDeliver(s, EndDisplayEvent(err))
    ensures Conserved(AfterDeliver(s, EndDisplayEvent(err)), x)
  {
  }

  lemma DeliverConserves(s: State, d: DeliverStep, x: int)
    requires Conserved(s, x) && CanDeliver(s, d)
    ensures Conserved(AfterDeliver(s, d), x)
  {
    match d
    case HandOut => HandOutConserves(s, x);
    case CloseUnclaimed => CloseUnclaimedConserves(s, x);
    case EndDisplayEvent(err) => EndDisplayConserves(s, err, x);
    case _ =>
  }

  lemma CloseQueuedConserves(s: State, x: int)
    requires Conserved(s, x) && s.pc.Failing? && s.pc.fds != []
    ensures Conserved(AfterFail(s, CloseQueued), x)
  {
  }

  lemma LockFailConserves(s: State, x: int)
    requires Conserved(s, x) && CanFail(s, LockFail)
    ensures Conserved(AfterFail(s, LockFail), x)
  {
  }

  lemma FailConserves(s: State, f: FailStep, x: int)
    requires Conserved(s, x) && CanFail(s, f)
    ensures Conserved(AfterFail(s, f), x)
  {
    match f
    case LockFail => LockFailConserves(s, x);
    case CloseQueued => CloseQueuedConserves(s, x);
    case _ =>
  }

  lemma CloseConserves(s: State, c: CloseStep, x: int)
    requires Conserved(s, x) && CanClose(s, c)
    ensures Conserved(AfterClose(s, c), x)
  {
  }

  lemma ReadConserves(s: State, r: ReadStep, x: int)
    requires Conserved(s, x) && CanRead(s, r)
    ensures Conserved(AfterRead(s, r), x)
  {
    if r.QueueFDs? {
      CountAppend(s.pending, r.queued, x);
      CountAppend(s.log.arrived, r.queued, x);
    }
  }

  lemma UseConserves(s: State, u: UserStep, x: int)
    requires Conserved(s, x) && u.fd in s.log.handed
    ensures Conserved(AfterUse(s, u), x)
  {
  }

  lemma StepConserves(s: State, a: Action, x: int)
    requires Conserved(s, x) && Enabled(s, a)
    ensures Conserved(Next(s, a), x)
  {
    match a
    case Reads(r) => ReadConserves(s, r, x);
    case Prepares(t) => PrepareItConserves(s, t, x);
    case Delivers(d) => DeliverConserves(s, d, x);
    case Fails(f) => FailConserves(s, f, x);
    case Uses(u) => UseConserves(s, u, x);
    case Closes(c) => CloseConserves(s, c, x);
  }

  /** Conservation at every reachable state of every schedule: nothing is lost, nothing is closed twice. */
  lemma {:induction false} DescriptorsConserved(s: State, steps: seq<Action>, x: int)
    requires Conserved(s, x) && Legal(s, steps)
    ensures Conserved(Run(s, steps), x)
    decreases |steps|
  {
    if steps != [] {
      StepConserves(s, steps[0], x);
      DescriptorsConserved(Next(s, steps[0]), steps[1..], x);
    }
  }

  /** How often `unix.Close` was called on `x`: every closing path skips what is not a descriptor. */
  function Closings(log: Log, x: int): nat {
    if x >= 0 then log.shut[x] else 0
  }

  /** Once the connection is closed, no dispatch is in progress and handlers have let go, every descriptor that ever
  arrived has been closed exactly once, and nothing else has. */
  lemma NoLeakAfterClose(steps: seq<Action>)
    requires Legal(Init, steps)
    requires var s := Run(Init, steps);
             s.closer.Returned? && HeldIn(s.pc) == [] && s.log.handed == s.log.taken == multiset{}
    ensures forall x ::
              Closings(Run(Init, steps).log, x) == if x >= 0 then Count(Run(Init, steps).log.arrived, x) else 0
  {
    var s := Run(Init, steps);
    SafeAlways(Init, steps);
    forall x ensures Closings(s.log, x) == if x >= 0 then Count(s.log.arrived, x) else 0 {
      DescriptorsConserved(Init, steps, x);
    }
  }

  // ------------------------------------------------------- frames do get through

  lemma Then(s: State, a: Action, rest: seq<Action>) returns (steps: seq<Action>)
    requires Enabled(s, a) && Legal(Next(s, a), rest)
    ensures Legal(s, steps) && Run(s, steps) == Run(Next(s, a), rest)
  {
    steps := [a] + rest;
    assert steps[1..] == rest;
  }

  /** A handler that takes all its event holds. */
  lemma {:induction false} HandsOutAll(s: State, fds: seq<int>) returns (steps: seq<Action>)
    requires s.pc == Handling(fds)
    ensures Legal(s, steps)
    ensures Run(s, steps) == s.(pc := Idle, log := s.log.(handed := s.log.handed + multiset(fds)))
    decreases |fds|
  {
    if fds == [] {
      var s1 := Next(s, Delivers(EndHandler));
      steps := ClosesAll(s1, []);
      steps := Then(s, Delivers(EndHandler), steps);
    } else {
      assert fds == [fds[0]] + fds[1..];
      steps := HandsOutAll(Next(s, Delivers(HandOut)), fds[1..]);
      steps := Then(s, Delivers(HandOut), steps);
    }
  }

  /** What an event still holds at its end is closed. */
  lemma {:induction false} ClosesAll(s: State, fds: seq<int>) returns (steps: seq<Action>)
    requires s.pc == Finishing(fds)
    ensures Legal(s, steps)
    ensures Run(s, steps) == s.(pc := Idle, log := s.log.(shut := s.log.shut + multiset(fds)))
    decreases |fds|
  {
    if fds == [] {
      var s1 := Next(s, Delivers(EndFrame));
      steps := Then(s1, Fails(Leave), []);
      steps := Then(s, Delivers(EndFrame), steps);
    } else {
      assert fds == [fds[0]] + fds[1..];
      steps := ClosesAll(Next(s, Delivers(CloseUnclaimed)), fds[1..]);
      steps := Then(s, Delivers(CloseUnclaimed), steps);
    }
  }

  /** Nobody dispatches, nobody closes. */
  predicate Quiescent(s: State) {
    s.pc.Idle? && s.recvMu.Free? && !s.closed
  }

  lemma ReadsUpToPrepare(s: State, queued: seq<int>, f: Frame, unread: bool, rest: seq<Action>)
    returns (steps: seq<Action>)
    requires Quiescent(s) && Legal(Ready(s, queued, f, unread), rest)
    ensures Legal(s, steps) && Run(s, steps) == Run(Ready(s, queued, f, unread), rest)
  {
    var s1 := Next(s, Reads(Enter));
    var s2 := Next(s1, Reads(LockRecv));
    var s3 := Next(s2, Reads(CheckClosed));
    var s4 := Next(s3, Reads(QueueFDs(queued)));
    var s5 := Next(s4, Reads(EndRead(Got(f), unread)));
    var s6 := Next(s5, Reads(CheckAgain));
    steps := Then(s6, Reads(LockPrepare), rest);
    steps := Then(s5, Reads(CheckAgain), steps);
    steps := Then(s4, Reads(EndRead(Got(f), unread)), steps);
    steps := Then(s3, Reads(QueueFDs(queued)), steps);
    steps := Then(s2, Reads(CheckClosed), steps);
    steps := Then(s1, Reads(LockRecv), steps);
    steps := Then(s, Reads(Enter), steps);
  }

  /** A frame has been read with some descriptors and is about to be prepared. */
  function Ready(s: State, queued: seq<int>, f: Frame, unread: bool): State {
    s.(pc := Preparing(f), recvMu := HeldByDispatch, pending := s.pending + queued, unread := unread, settled := false,
       log := s.log.(arrived := s.log.arrived + queued))
  }

  /** A dispatcher that is left alone gets an accepted frame to its handler together with the descriptors it calls for;
  those of a zombie's frame are closed. */
  lemma FrameGetsThrough(s: State, queued: seq<int>, f: Frame, t: Target, unread: bool) returns (steps: seq<Action>)
    requires Quiescent(s) && f.obj != DISPLAY_OBJECT_ID && t.Known? && t.accepted
    requires t.count <= |s.pending + queued| && (unread || t.count == |s.pending + queued|)
    ensures Legal(s, steps)
    ensures var fds := (s.pending + queued)[..t.count];
            var s' := Run(s, steps);
            && Quiescent(s') && s'.pending == (s.pending + queued)[t.count..]
            && s'.log.given == s.log.given + [fds] && s'.log.jobs == s.log.jobs + [Job(f, t)]
            && s'.log.handed == (if t.zombie then s.log.handed else s.log.handed + multiset(fds))
            && s'.log.shut == (if t.zombie then s.log.shut + multiset(fds) else s.log.shut)
  {
    var fds := (s.pending + queued)[..t.count];
    var s1 := Ready(s, queued, f, unread);
    var s2 := Next(s1, Prepares(t));
    if t.zombie {
      steps := ClosesAll(s2, fds);
    } else {
      steps := HandsOutAll(Next(s2, Delivers(Recheck(true))), fds);
      steps := Then(s2, Delivers(Recheck(true)), steps);
    }
    steps := Then(s1, Prepares(t), steps);
    steps := ReadsUpToPrepare(s, queued, f, unread, steps);
  }

  lemma {:induction false} ShutsAll(s: State, fds: seq<int>) returns (steps: seq<Action>)
    requires s.pc == Failing(fds)
    ensures Legal(s, steps)
    ensures Run(s, steps) == s.(pc := Idle, recvMu := Free, log := s.log.(shut := s.log.shut + multiset(fds)))
    decreases |fds|
  {
    if fds == [] {
      var s1 := Next(s, Fails(EndFail));
      steps := Then(s1, Fails(Leave), []);
      steps := Then(s, Fails(EndFail), steps);
    } else {
      assert fds == [fds[0]] + fds[1..];
      steps := ShutsAll(Next(s, Fails(CloseQueued)), fds[1..]);
      steps := Then(s, Fails(CloseQueued), steps);
    }
  }

  /** A protocol error and a lost connection close the whole queue; any other error keeps it. */
  predicate QueueAfter(queue: seq<int>, e: Error, s: State, s': State) {
    if e.Protocol? || e == UnexpectedEof
    then s'.pending == [] && s'.log.shut == s.log.shut + multiset(queue)
    else s'.pending == queue && s'.log.shut == s.log.shut
  }

  lemma FailGetsThrough(s: State) returns (steps: seq<Action>)
    requires s.pc.WantFail? && s.recvMu.Free? && !s.closed
    ensures Legal(s, steps)
    ensures Quiescent(Run(s, steps)) && QueueAfter(s.pending, s.pc.err, s, Run(s, steps))
  {
    var s1 := Next(s, Fails(LockFail));
    steps := ShutsAll(s1, s1.pc.fds);
    steps := Then(s, Fails(LockFail), steps);
  }

  /** A read that fails leaves the queue, with what came in by then, as its error says. */
  lemma ReadErrorGetsThrough(s: State, queued: seq<int>, e: Error, unread: bool) returns (steps: seq<Action>)
    requires Quiescent(s)
    ensures Legal(s, steps)
    ensures Quiescent(Run(s, steps)) && QueueAfter(s.pending + queued, e, s, Run(s, steps))
  {
    var s1 := Next(s, Reads(Enter));
    var s2 := Next(s1, Reads(LockRecv));
    var s3 := Next(s2, Reads(CheckClosed));
    var s4 := Next(s3, Reads(QueueFDs(queued)));
    var s5 := Next(s4, Reads(EndRead(Failed(e), unread)));
    steps := FailGetsThrough(Next(s5, Reads(CheckAgain)));
    steps := Then(s5, Reads(CheckAgain), steps);
    steps := Then(s4, Reads(EndRead(Failed(e), unread)), steps);
    steps := Then(s3, Reads(QueueFDs(queued)), steps);
    steps := Then(s2, Reads(CheckClosed), steps);
    steps := Then(s1, Reads(LockRecv), steps);
    steps := Then(s, Reads(Enter), steps);
  }

  /** So does a display event whose handling fails; one that succeeds takes no descriptor. */
  lemma DisplayEventGetsThrough(s: State, queued: seq<int>, f: Frame, t: Target, unread: bool, err: Option<Error>)
    returns (steps: seq<Action>)
    requires Quiescent(s) && f.obj == DISPLAY_OBJECT_ID && (s.pending + queued == [] || unread)
    ensures Legal(s, steps)
    ensures var queue := s.pending + queued;
            var s' := Run(s, steps);
            && Quiescent(s')
            && (err.Some? ==> QueueAfter(queue, err.value, s, s'))
            && (err.None? ==> s'.pending == queue && s'.log.shut == s.log.shut)
  {
    var s1 := Ready(s, queued, f, unread);
    var s2 := Next(s1, Prepares(t));
    var s3 := Next(s2, Delivers(EndDisplayEvent(err)));
    if err.Some? {
      steps := FailGetsThrough(s3);
    } else {
      steps := Then(s3, Fails(Leave), []);
    }
    steps := Then(s2, Delivers(EndDisplayEvent(err)), steps);
    steps := Then(s1, Prepares(t), steps);
    steps := ReadsUpToPrepare(s, queued, f, unread, steps);
  }

  /** And a frame that is refused, wherever its descriptors were by then, leaves none behind. */
  lemma RefusalGetsThrough(s: State, queued: seq<int>, f: Frame, t: Target, unread: bool) returns (steps: seq<Action>)
    requires Quiescent(s) && Prepare(false, f, t, s.pending + queued, unread).out.Refused?
    ensures Legal(s, steps)
    ensures var s' := Run(s, steps);
            Quiescent(s') && s'.pending == [] && s'.log.shut == s.log.shut + multiset(s.pending + queued)
  {
    var queue := s.pending + queued;
    var s1 := Ready(s, queued, f, unread);
    var s2 := Next(s1, Prepares(t));
    RefusedSplit(f, t, queue, unread);
    ShutAllIs(s1.log, Prepare(false, f, t, queue, unread).shut);
    steps := FailGetsThrough(s2);
    steps := Then(s1, Prepares(t), steps);
    steps := ReadsUpToPrepare(s, queued, f, unread, steps);
  }

  lemma RefusedSplit(f: Frame, t: Target, queue: seq<int>, unread: bool)
    requires Prepare(false, f, t, queue, unread).out.Refused?
    ensures var p := Prepare(false, f, t, queue, unread);
            p.out.err.Protocol? && multiset(p.shut) + multiset(p.pending) == multiset(queue)
  {
    var p := Prepare(false, f, t, queue, unread);
    assert queue == p.shut + p.pending;
  }

  lemma {:induction false} ShutAllIs(log: Log, fds: seq<int>)
    ensures ShutAll(log, fds).shut == log.shut + multiset(fds)
    decreases |fds|
  {
    if fds != [] {
      assert fds == [fds[0]] + fds[1..];
      ShutAllIs(Shut(log, fds[0]), fds[1..]);
    }
  }

  lemma {:induction false} ClearsAll(s: State, fds: seq<int>) returns (steps: seq<Action>)
    requires s.closer == Clearing(fds)
    ensures Legal(s, steps)
    ensures Run(s, steps) == s.(closer := Returned, recvMu := Free, log := s.log.(shut := s.log.shut + multiset(fds)))
    decreases |fds|
  {
    if fds == [] {
      steps := Then(s, Closes(EndClose), []);
    } else {
      assert fds == [fds[0]] + fds[1..];
      steps := ClearsAll(Next(s, Closes(CloseOne)), fds[1..]);
      steps := Then(s, Closes(CloseOne), steps);
    }
  }

  /** And `Close` returns with the whole queue closed. */
  lemma CloseGetsThrough(s: State) returns (steps: seq<Action>)
    requires s.closer.NotClosed? && s.recvMu.Free?
    ensures Legal(s, steps)
    ensures var s' := Run(s, steps);
            && s'.closer.Returned? && s'.closed && s'.recvMu.Free? && s'.pending == []
            && s'.log.shut == s.log.shut + multiset(s.pending)
  {
    var s1 := Next(s, Closes(SetClosed));
    var s2 := Next(s1, Closes(CloseSocket));
    var s3 := Next(s2, Closes(LockClose));
    steps := ClearsAll(s3, s.pending);
    steps := Then(s2, Closes(LockClose), steps);
    steps := Then(s1, Closes(CloseSocket), steps);
    steps := Then(s, Closes(SetClosed), steps);
  }

  // ------------------------------------------------------------- mutual exclusion, Close

  /** Lock ownership matches the program counters, and clearing the queue in `Close` is final. */
  predicate Safe(s: State) {
    && (s.recvMu.HeldByDispatch? <==> s.pc.Locked? || s.pc.Reading? || s.pc.Preparing? || s.pc.Failing?)
    && (s.recvMu.HeldByClose? <==> s.closer.Clearing?)
    && (s.closed <==> !s.closer.NotClosed?)
    && (s.closer.Clearing? || s.closer.Returned? ==> s.pending == [] && !s.pc.Reading?)
  }

  /** What the queue, the record of arrivals and the record of assignments do in one safe step. */
  predicate Quiet(s: State, s': State) {
    s.closer.Clearing? || s.closer.Returned? ==>
      s'.log.arrived == s.log.arrived && s'.log.given == s.log.given && (s'.closer.Clearing? || s'.closer.Returned?)
  }

  lemma ReadSafe(s: State, r: ReadStep)
    requires Safe(s) && CanRead(s, r)
    ensures Safe(AfterRead(s, r)) && Quiet(s, AfterRead(s, r))
  {
  }

  lemma PrepareSafe(s: State, t: Target)
    requires Safe(s) && s.pc.Preparing?
    ensures Safe(AfterPrepare(s, t)) && Quiet(s, AfterPrepare(s, t))
  {
  }

  lemma DeliverSafe(s: State, d: DeliverStep)
    requires Safe(s) && CanDeliver(s, d)
    ensures Safe(AfterDeliver(s, d)) && Quiet(s, AfterDeliver(s, d))
  {
  }

  lemma FailSafe(s: State, f: FailStep)
    requires Safe(s) && CanFail(s, f)
    ensures Safe(AfterFail(s, f)) && Quiet(s, AfterFail(s, f))
  {
  }

  lemma CloseSafe(s: State, c: CloseStep)
    requires Safe(s) && CanClose(s, c)
    ensures Safe(AfterClose(s, c)) && Quiet(s, AfterClose(s, c))
  {
  }

  lemma StepSafe(s: State, a: Action)
    requires Safe(s) && Enabled(s, a)
    ensures Safe(Next(s, a)) && Quiet(s, Next(s, a))
  {
    match a
    case Reads(r) => ReadSafe(s, r);
    case Prepares(t) => PrepareSafe(s, t);
    case Delivers(d) => DeliverSafe(s, d);
    case Fails(f) => FailSafe(s, f);
    case Uses(u) =>
    case Closes(c) => CloseSafe(s, c);
  }

  lemma {:induction false} SafeAlways(s: State, steps: seq<Action>)
    requires Safe(s) && Legal(s, steps)
    ensures Safe(Run(s, steps))
    decreases |steps|
  {
    if steps != [] {
      StepSafe(s, steps[0]);
      SafeAlways(Next(s, steps[0]), steps[1..]);
    }
  }

  /** Once the winning `Close` has cleared the queue it stays empty for ever, and no later step of any schedule queues
  or assigns a descriptor. */
  lemma {:induction false} CloseIsFinal(s: State, steps: seq<Action>)
    requires Safe(s) && Legal(s, steps) && (s.closer.Clearing? || s.closer.Returned?)
    ensures Run(s, steps).pending == []
    ensures Run(s, steps).log.arrived == s.log.arrived && Run(s, steps).log.given == s.log.given
    decreases |steps|
  {
    if steps != [] {
      StepSafe(s, steps[0]);
      CloseIsFinal(Next(s, steps[0]), steps[1..]);
    }
  }

  // ------------------------------------------------------------- alignment

  /** The descriptors assigned so far, then the queue, are the arrival stream; each frame got as many as its signature
  calls for; and between a prepared frame and the next read a surplus implies unread bytes. */
  ghost predicate AlignedState(s: State) {
    && AlignedLog(s.log, s.pending)
    && (s.settled ==> (s.pending == [] || s.unread) && !s.pc.Reading?)
    && (s.pc.WantFail? && s.log.intact ==> !Clears(s.pc.err))
    && (s.closed ==> !s.log.intact)
  }

  ghost predicate AlignedLog(log: Log, pending: seq<int>) {
    && |log.given| == |log.jobs|
    && (forall i | 0 <= i < |log.jobs| :: |log.given[i]| == Needs(log.jobs[i]))
    && (log.intact ==> log.arrived == Concat(log.given) + pending)
  }

  lemma QueueAligned(log: Log, pending: seq<int>, queued: seq<int>)
    requires AlignedLog(log, pending)
    ensures AlignedLog(log.(arrived := log.arrived + queued), pending + queued)
  {
    assert Concat(log.given) + (pending + queued) == (Concat(log.given) + pending) + queued;
  }

  lemma GiveAligned(log: Log, pending: seq<int>, job: Job)
    requires AlignedLog(log, pending) && Needs(job) <= |pending|
    ensures AlignedLog(Give(log, pending[..Needs(job)], job), pending[Needs(job)..])
  {
    var n := Needs(job);
    ConcatAppend(log.given, pending[..n]);
    assert pending == pending[..n] + pending[n..];
    assert Concat(log.given) + pending == (Concat(log.given) + pending[..n]) + pending[n..];
  }

  lemma ReadAligned(s: State, r: ReadStep)
    requires AlignedState(s) && CanRead(s, r)
    ensures AlignedState(AfterRead(s, r))
  {
    if r.QueueFDs? {
      QueueAligned(s.log, s.pending, r.queued);
    }
  }

  lemma PrepareAligned(s: State, t: Target)
    requires AlignedState(s) && s.pc.Preparing?
    ensures AlignedState(AfterPrepare(s, t))
  {
    var p := Prepare(s.closed, s.pc.frame, t, s.pending, s.unread);
    if p.out.ForDisplay? {
      GiveAligned(s.log, s.pending, Job(s.pc.frame, t));
    } else if p.out.Assigned? {
      GiveAligned(s.log, s.pending, Job(s.pc.frame, t));
    }
  }

  lemma DeliverAligned(s: State, d: DeliverStep)
    requires AlignedState(s) && CanDeliver(s, d)
    ensures AlignedState(AfterDeliver(s, d))
  {
  }

  lemma FailAligned(s: State, f: FailStep)
    requires AlignedState(s) && CanFail(s, f)
    ensures AlignedState(AfterFail(s, f))
  {
  }

  lemma CloseAligned(s: State, c: CloseStep)
    requires AlignedState(s) && Safe(s) && CanClose(s, c)
    ensures AlignedState(AfterClose(s, c))
  {
  }

  lemma StepAligned(s: State, a: Action)
    requires AlignedState(s) && Safe(s) && Enabled(s, a)
    ensures AlignedState(Next(s, a))
  {
    match a
    case Reads(r) => ReadAligned(s, r);
    case Prepares(t) => PrepareAligned(s, t);
    case Delivers(d) => DeliverAligned(s, d);
    case Fails(f) => FailAligned(s, f);
    case Uses(u) =>
    case Closes(c) => CloseAligned(s, c);
  }

  lemma {:induction false} AlignedAlways(s: State, steps: seq<Action>)
    requires AlignedState(s) && Safe(s) && Legal(s, steps)
    ensures AlignedState(Run(s, steps))
    decreases |steps|
  {
    if steps != [] {
      StepAligned(s, steps[0]);
      StepSafe(s, steps[0]);
      AlignedAlways(Next(s, steps[0]), steps[1..]);
    }
  }

  function Sum(ns: seq<nat>): nat {
    if ns == [] then 0 else ns[0] + Sum(ns[1..])
  }

  lemma {:induction false} ConcatSlice(parts: seq<seq<int>>, counts: seq<nat>, i: nat)
    requires |parts| == |counts| && (forall j | 0 <= j < |counts| :: |parts[j]| == counts[j]) && i < |counts|
    ensures Sum(counts[..i]) + counts[i] <= |Concat(parts)|
    ensures Concat(parts)[Sum(counts[..i])..][..counts[i]] == parts[i]
  {
    if i == 0 {
      assert counts[..0] == [];
    } else {
      ConcatSlice(parts[1..], counts[1..], i - 1);
      assert counts[..i][0] == counts[0] && counts[..i][1..] == counts[1..][..i - 1];
      var off := Sum(counts[1..][..i - 1]);
      assert Concat(parts)[counts[0] + off..] == Concat(parts[1..])[off..];
    }
  }

  /** Descriptor alignment: in every schedule without a protocol error or `Close`, the i-th prepared frame, zombie or
  not, is assigned exactly the slice of the arrival stream that starts after the descriptors of all earlier frames. */
  lemma DescriptorAlignment(steps: seq<Action>, i: nat)
    requires Legal(Init, steps) && Run(Init, steps).log.intact && i < |Run(Init, steps).log.given|
    ensures var log := Run(Init, steps).log;
            && |log.jobs| == |log.given|
            && GotItsOwn(log.jobs, log.given, log.arrived, i)
  {
    AlignedAlways(Init, steps);
    var log := Run(Init, steps).log;
    ConcatAligned(log.jobs, log.given, log.arrived[|Concat(log.given)|..], i);
    assert log.arrived == Concat(log.given) + log.arrived[|Concat(log.given)|..];
  }

  function Counts(jobs: seq<Job>): (counts: seq<nat>)
    ensures |counts| == |jobs| && forall i | 0 <= i < |jobs| :: counts[i] == Needs(jobs[i])
  {
    seq(|jobs|, i requires 0 <= i < |jobs| => Needs(jobs[i]))
  }

  /** Frame `i` was given its own slice of the arrivals: as many as it calls for, after those of all earlier frames. */
  predicate GotItsOwn(jobs: seq<Job>, given: seq<seq<int>>, arrived: seq<int>, i: nat)
    requires |given| == |jobs| && i < |jobs|
  {
    var off := Sum(Counts(jobs)[..i]);
    off + Needs(jobs[i]) <= |arrived| && given[i] == arrived[off..][..Needs(jobs[i])]
  }

  lemma ConcatAligned(jobs: seq<Job>, given: seq<seq<int>>, rest: seq<int>, i: nat)
    requires |given| == |jobs| && i < |jobs| && (forall j | 0 <= j < |jobs| :: |given[j]| == Needs(jobs[j]))
    ensures GotItsOwn(jobs, given, Concat(given) + rest, i)
  {
    var counts := Counts(jobs);
    ConcatSlice(given, counts, i);
    var off := Sum(counts[..i]);
    var all := Concat(given) + rest;
    assert all[off..][..counts[i]] == Concat(given)[off..][..counts[i]];
  }

  /** After a dispatched frame, and until the next read, a non-empty queue implies unread bytes. */
  lemma SurplusImpliesUnread(steps: seq<Action>)
    requires Legal(Init, steps) && Run(Init, steps).settled
    ensures Run(Init, steps).pending != [] ==> Run(Init, steps).unread
  {
    AlignedAlways(Init, steps);
  }
}

/** Concurrent senders (core.go `sendChecked`, `SendDestructor`; scm_linux.go `sendmsgWithFDs`): every interleaving of
their lock-level steps with each other, with all object table steps, and with `Close`. */
module Sending {
  import opened Bytes
  import opened Objects
  import Ids

  /** A goroutine, by identity. */
  type Tid = nat

  /** Where a sender is. Everything but `Waiting` is under `sendMu`. */
  datatype Pc =
    | Waiting(p: Pid, destructor: bool)   // first CheckProxy passed, message marshalled
    | InLock(p: Pid, destructor: bool)    // not closed; the guard runs next
    | Checked(p: Pid)                     // claimDestroy: CheckProxy passed
    | Swapping(p: Pid)                    // claimDestroy: proxies.CompareAndDelete succeeded
    | Ready(p: Pid, destructor: bool)     // guard passed; the write is next
    | Unlocking

  /** One message on the wire; `whole` is false for the fragment a failed write may leave. */
  datatype Sent = Sent(p: Pid, id: u32, destructor: bool, whole: bool)

  datatype World = World(
    objs: Objects.State,
    closed: bool,                         // Close has been called
    open: bool,                           // the socket accepts writes
    sendMu: Option<Tid>,
    sends: map<Tid, Pc>,
    wire: seq<Sent>
  )

  const Start := World(Objects.Init, false, true, None, map[], [])

  /** `CheckProxy`: the context is open and this very proxy is registered under its ID. */
  predicate CheckProxy(w: World, p: Pid) {
    !w.closed && p in w.objs.idOf && w.objs.idOf[p] != 0 && Holds(w.objs.proxies, w.objs.idOf[p], p)
  }

  datatype Step =
    | Other(a: Objects.Action)            // Register, Unregister, Abandon, AllocateID, any delete_id
    | Begin(t: Tid, p: Pid, destructor: bool)
    | Lock(t: Tid)
    | Refuse(t: Tid)                      // descriptors on a connection that cannot carry them
    | Guard(t: Tid)
    | Claim(t: Tid)
    | Swap(t: Tid)
    | Write(t: Tid, ok: bool, fragment: bool)
    | Unlock(t: Tid)
    | Close

  predicate At(w: World, t: Tid) {
    t in w.sends
  }

  predicate Enabled(w: World, s: Step) {
    match s
    case Other(a) => Objects.Allowed(w.objs, a)
    case Begin(t, p, _) => !At(w, t) && CheckProxy(w, p) && p in w.objs.done
    case Lock(t) => At(w, t) && w.sends[t].Waiting? && w.sendMu.None?
    case Refuse(t) => At(w, t) && w.sends[t].InLock?
    case Guard(t) => At(w, t) && w.sends[t].InLock?
    case Claim(t) => At(w, t) && w.sends[t].Checked? && w.sends[t].p in w.objs.idOf
    case Swap(t) => At(w, t) && w.sends[t].Swapping? && w.sends[t].p in w.objs.idOf && w.objs.idOf[w.sends[t].p] != 0
    case Write(t, _, _) => At(w, t) && w.sends[t].Ready? && w.sends[t].p in w.objs.idOf
    case Unlock(t) => At(w, t) && w.sends[t].Unlocking?
    case Close => true
  }

  function Goto(w: World, t: Tid, pc: Pc): World {
    w.(sends := w.sends[t := pc])
  }

  function Next(w: World, s: Step): World
    requires Enabled(w, s)
  {
    match s
    case Other(a) => w.(objs := Objects.Next(w.objs, a))
    case Begin(t, p, destructor) => Goto(w, t, Waiting(p, destructor))
    case Lock(t) =>
      var pc := w.sends[t];
      Goto(w.(sendMu := Some(t)), t, if w.closed then Unlocking else InLock(pc.p, pc.destructor))
    case Refuse(t) => Goto(w, t, Unlocking)
    case Guard(t) =>
      var pc := w.sends[t];
      Goto(w, t, if !CheckProxy(w, pc.p) then Unlocking
                 else if pc.destructor then Checked(pc.p)
                 else Ready(pc.p, false))
    case Claim(t) =>
      var p := w.sends[t].p;
      if Holds(w.objs.proxies, w.objs.idOf[p], p)
      then Goto(w.(objs := Objects.Next(w.objs, ClaimProxy(p))), t, Swapping(p))
      else Goto(w, t, Unlocking)
    case Swap(t) =>
      var p := w.sends[t].p;
      Goto(w.(objs := Objects.Next(w.objs, Entomb(p))), t, Ready(p, true))
    case Write(t, ok, fragment) => AfterWrite(w, t, ok, fragment)
    case Unlock(t) => w.(sends := w.sends - {t}, sendMu := None)
    case Close => w.(closed := true, open := false)
  }

  /** A failed or partial write shuts the socket, so nothing follows the fragment it may have left. */
  function AfterWrite(w: World, t: Tid, ok: bool, fragment: bool): World
    requires At(w, t) && w.sends[t].Ready? && w.sends[t].p in w.objs.idOf
  {
    var pc := w.sends[t];
    var m := Sent(pc.p, w.objs.idOf[pc.p], pc.destructor, ok);
    if w.open && (ok || fragment) then Goto(w.(wire := w.wire + [m], open := ok), t, Unlocking)
    else Goto(w.(open := false), t, Unlocking)
  }

  // ---------------------------------------------------------------- invariant

  /** No destructor of `p` is on the wire. */
  predicate Clean(wire: seq<Sent>, p: Pid) {
    forall i | 0 <= i < |wire| :: wire[i].p == p ==> !wire[i].destructor
  }

  /** What holds of a sender at each point: all but waiting ones own the lock, and one that is past its guard has seen
  no destructor of its proxy on the wire. */
  predicate PcOk(w: World, t: Tid, pc: Pc) {
    && (!pc.Waiting? ==> w.sendMu == Some(t))
    && (!pc.Unlocking? ==> pc.p in w.objs.idOf && w.objs.idOf[pc.p] != 0 && pc.p in w.objs.done)
    && (pc.Ready? || pc.Swapping? ==> Clean(w.wire, pc.p))
    && (pc.Swapping? || (pc.Ready? && pc.destructor) ==> pc.p in w.objs.gone && pc.p in w.objs.claimed)
  }

  /** The wire order: nothing of a proxy follows its destructor, and a fragment is last. */
  predicate WireOk(w: World) {
    && (forall i | 0 <= i < |w.wire| && w.wire[i].destructor :: w.wire[i].p in w.objs.gone)
    && (forall i, j | 0 <= i < j < |w.wire| && w.wire[i].destructor :: w.wire[j].p != w.wire[i].p)
    && (forall i | 0 <= i < |w.wire| && !w.wire[i].whole :: i == |w.wire| - 1 && !w.open)
    && (forall i | 0 <= i < |w.wire| :: w.wire[i].p in w.objs.idOf && w.wire[i].id == w.objs.idOf[w.wire[i].p])
  }

  predicate Inv(w: World) {
    && Objects.Shape(w.objs)
    && WireOk(w)
    && (forall t | t in w.sends :: PcOk(w, t, w.sends[t]))
  }

  /** Object steps only ever add to the sets of registered, removed and claimed proxies, and never change a proxy's
  ID. */
  lemma ObjectStepGrows(s: Objects.State, a: Objects.Action)
    requires Objects.Allowed(s, a)
    ensures var s' := Objects.Next(s, a);
            && s.done <= s'.done && s.gone <= s'.gone && s.claimed <= s'.claimed
            && (forall p | p in s.idOf :: p in s'.idOf && s'.idOf[p] == s.idOf[p])
  {
  }

  lemma OtherKeeps(w: World, a: Objects.Action)
    requires Inv(w) && Objects.Allowed(w.objs, a)
    ensures Inv(w.(objs := Objects.Next(w.objs, a)))
  {
    Objects.ShapeStep(w.objs, a);
    ObjectStepGrows(w.objs, a);
  }

  /** Moving one sender keeps the invariant when its new place is justified. */
  lemma GotoKeeps(w: World, t: Tid, pc: Pc)
    requires Inv(w) && PcOk(w, t, pc)
    ensures Inv(Goto(w, t, pc))
  {
  }

  lemma GuardKeeps(w: World, t: Tid)
    requires Inv(w) && Enabled(w, Guard(t))
    ensures Inv(Next(w, Guard(t)))
  {
    var pc := w.sends[t];
    assert PcOk(w, t, pc);
    if CheckProxy(w, pc.p) {
      assert pc.p !in w.objs.gone;
    }
  }

  lemma ClaimKeeps(w: World, t: Tid)
    requires Inv(w) && Enabled(w, Claim(t))
    ensures Inv(Next(w, Claim(t)))
  {
    var p := w.sends[t].p;
    assert PcOk(w, t, w.sends[t]);
    if Holds(w.objs.proxies, w.objs.idOf[p], p) {
      assert p !in w.objs.gone;
      OtherKeeps(w, ClaimProxy(p));
      GotoKeeps(w.(objs := Objects.Next(w.objs, ClaimProxy(p))), t, Swapping(p));
    }
  }

  lemma SwapKeeps(w: World, t: Tid)
    requires Inv(w) && Enabled(w, Swap(t))
    ensures Inv(Next(w, Swap(t)))
  {
    var p := w.sends[t].p;
    assert PcOk(w, t, w.sends[t]);
    OtherKeeps(w, Entomb(p));
    GotoKeeps(w.(objs := Objects.Next(w.objs, Entomb(p))), t, Ready(p, true));
  }

  lemma WriteKeeps(w: World, t: Tid, ok: bool, fragment: bool)
    requires Inv(w) && Enabled(w, Write(t, ok, fragment))
    ensures Inv(AfterWrite(w, t, ok, fragment))
  {
    var w' := AfterWrite(w, t, ok, fragment);
    assert PcOk(w, t, w.sends[t]);
    forall u | u in w'.sends ensures PcOk(w', u, w'.sends[u]) {
      assert u in w.sends && PcOk(w, u, w.sends[u]);
    }
  }

  lemma LockKeeps(w: World, t: Tid)
    requires Inv(w) && Enabled(w, Lock(t))
    ensures Inv(Next(w, Lock(t)))
  {
    var w' := Next(w, Lock(t));
    assert PcOk(w, t, w.sends[t]);
    forall u | u in w'.sends ensures PcOk(w', u, w'.sends[u]) {
      assert u in w.sends && PcOk(w, u, w.sends[u]);
    }
  }

  lemma UnlockKeeps(w: World, t: Tid)
    requires Inv(w) && Enabled(w, Unlock(t))
    ensures Inv(Next(w, Unlock(t)))
  {
    var w' := Next(w, Unlock(t));
    assert PcOk(w, t, w.sends[t]);
    forall u | u in w'.sends ensures PcOk(w', u, w'.sends[u]) {
      assert u in w.sends && PcOk(w, u, w.sends[u]);
    }
  }

  lemma StepKeeps(w: World, s: Step)
    requires Inv(w) && Enabled(w, s)
    ensures Inv(Next(w, s))
  {
    match s
    case Other(a) => OtherKeeps(w, a);
    case Begin(t, p, d) => GotoKeeps(w, t, Waiting(p, d));
    case Lock(t) => LockKeeps(w, t);
    case Refuse(t) =>
      assert PcOk(w, t, w.sends[t]);
      GotoKeeps(w, t, Unlocking);
    case Guard(t) => GuardKeeps(w, t);
    case Claim(t) => ClaimKeeps(w, t);
    case Swap(t) => SwapKeeps(w, t);
    case Write(t, ok, fragment) => WriteKeeps(w, t, ok, fragment);
    case Unlock(t) => UnlockKeeps(w, t);
    case Close =>
  }

  // -------------------------------------------------------------------- runs

  predicate Legal(w: World, steps: seq<Step>)
    decreases |steps|
  {
    steps == [] || (Enabled(w, steps[0]) && Legal(Next(w, steps[0]), steps[1..]))
  }

  function Run(w: World, steps: seq<Step>): World
    requires Legal(w, steps)
    decreases |steps|
  {
    if steps == [] then w else Run(Next(w, steps[0]), steps[1..])
  }

  lemma {:induction false} InvAlways(w: World, steps: seq<Step>)
    requires Inv(w) && Legal(w, steps)
    ensures Inv(Run(w, steps))
    decreases |steps|
  {
    if steps != [] {
      StepKeeps(w, steps[0]);
      InvAlways(Next(w, steps[0]), steps[1..]);
    }
  }

  /** Wire order under every interleaving and against every compositor: for each proxy at most one destructor is
  written and no request of that proxy, destructor or not, whole or fragment, comes after it. */
  lemma WireOrder(steps: seq<Step>, i: nat, j: nat)
    requires Legal(Start, steps) && i < j < |Run(Start, steps).wire| && Run(Start, steps).wire[i].destructor
    ensures Run(Start, steps).wire[j].p != Run(Start, steps).wire[i].p
  {
    InvAlways(Start, steps);
  }

  /** A sender that is past its guard for `p`. */
  predicate PastGuard(w: World, t: Tid, p: Pid) {
    t in w.sends && (w.sends[t] == Swapping(p) || (w.sends[t].Ready? && w.sends[t].p == p))
  }

  predicate Settled(w: World, p: Pid) {
    p in w.objs.gone && forall t | t in w.sends :: !PastGuard(w, t, p)
  }

  lemma SettledStep(w: World, s: Step, p: Pid)
    requires Inv(w) && Enabled(w, s) && Settled(w, p)
    ensures Settled(Next(w, s), p)
    ensures w.wire <= Next(w, s).wire
    ensures forall i | |w.wire| <= i < |Next(w, s).wire| :: Next(w, s).wire[i].p != p
  {
    if s.Other? {
      ObjectStepGrows(w.objs, s.a);
    } else if !s.Close? {
      var w' := Next(w, s);
      forall u | u in w'.sends ensures !PastGuard(w', u, p) {
        if u in w.sends {
          assert !PastGuard(w, u, p);
        }
      }
    }
  }

  /** Losers of the race write nothing: once `p` is out of the table and no sender is past its guard for it, no
  message of `p` ever reaches the wire again. */
  lemma {:induction false} GoneStaysSilent(w: World, steps: seq<Step>, p: Pid)
    requires Inv(w) && Legal(w, steps) && Settled(w, p)
    ensures w.wire <= Run(w, steps).wire
    ensures forall i | |w.wire| <= i < |Run(w, steps).wire| :: Run(w, steps).wire[i].p != p
    decreases |steps|
  {
    if steps != [] {
      var w1 := Next(w, steps[0]);
      SettledStep(w, steps[0], p);
      StepKeeps(w, steps[0]);
      GoneStaysSilent(w1, steps[1..], p);
      var wn := Run(w, steps);
      forall i | |w.wire| <= i < |wn.wire| ensures wn.wire[i].p != p {
        if i < |w1.wire| {
          assert wn.wire[i] == w1.wire[i];
        }
      }
    }
  }

  /** A shut socket takes nothing more. */
  lemma {:induction false} ShutStaysSilent(w: World, steps: seq<Step>)
    requires !w.open && Legal(w, steps)
    ensures Run(w, steps).wire == w.wire
    decreases |steps|
  {
    if steps != [] {
      ShutStaysSilent(Next(w, steps[0]), steps[1..]);
    }
  }

  /** Some continuation puts a message of `p` on the wire. */
  ghost predicate CanStillWrite(w: World, p: Pid) {
    exists steps | Legal(w, steps) :: WroteSince(w, Run(w, steps), p)
  }

  ghost predicate WroteSince(w: World, w': World, p: Pid) {
    exists i :: |w.wire| <= i < |w'.wire| && w'.wire[i].p == p
  }

  /** The send that is past its guard goes through. */
  lemma PastGuardWrites(w: World, t: Tid, p: Pid) returns (steps: seq<Step>)
    requires Inv(w) && w.open && PastGuard(w, t, p)
    ensures Legal(w, steps)
    ensures var destructor := w.sends[t].Swapping? || w.sends[t].destructor;
            Run(w, steps).wire == w.wire + [Sent(p, w.objs.idOf[p], destructor, true)]
  {
    assert PcOk(w, t, w.sends[t]);
    steps := [];
    if w.sends[t].Swapping? {
      steps := Cons(Next(w, Swap(t)), Write(t, true, false), steps);
      steps := Cons(w, Swap(t), steps);
    } else {
      steps := Cons(w, Write(t, true, false), steps);
    }
  }

  /** Exactly when a removed proxy, stale or not, can still reach the wire: while the socket is open and a sender is
  past its guard for it. */
  lemma GoneWritesExactlyPastGuard(w: World, p: Pid)
    requires Inv(w) && p in w.objs.gone
    ensures CanStillWrite(w, p) <==> w.open && exists t :: PastGuard(w, t, p)
  {
    if w.open && exists t :: PastGuard(w, t, p) {
      var t :| PastGuard(w, t, p);
      var steps := PastGuardWrites(w, t, p);
      assert Run(w, steps).wire[|w.wire|].p == p;
      assert WroteSince(w, Run(w, steps), p);
    } else {
      forall steps | Legal(w, steps) ensures !WroteSince(w, Run(w, steps), p) {
        if w.open {
          GoneStaysSilent(w, steps, p);
        } else {
          ShutStaysSilent(w, steps);
        }
      }
    }
  }

  /** After `Close` nobody writes, whoever is under way; after a write that fell short nothing follows its fragment. */
  lemma ClosedIsSilent(w: World, s: Step, steps: seq<Step>)
    requires Enabled(w, s) && Legal(Next(w, s), steps)
    ensures s.Close? ==> Run(Next(w, s), steps).wire == w.wire
    ensures s.Write? && !s.ok ==>
              var p := w.sends[s.t].p;
              Run(Next(w, s), steps).wire ==
              w.wire + if w.open && s.fragment then [Sent(p, w.objs.idOf[p], w.sends[s.t].destructor, false)] else []
  {
    if s.Close? || (s.Write? && !s.ok) {
      ShutStaysSilent(Next(w, s), steps);
    }
  }

  /** Right after a destructor is written nobody else is past a guard for its proxy: the lock was held throughout. */
  lemma DestructorSettles(w: World, t: Tid)
    requires Inv(w) && At(w, t) && w.sends[t].Ready? && w.sends[t].destructor
    ensures Settled(Goto(w, t, Unlocking), w.sends[t].p)
  {
    var p := w.sends[t].p;
    var w' := Goto(w, t, Unlocking);
    assert PcOk(w, t, w.sends[t]);
    forall u | u in w'.sends ensures !PastGuard(w', u, p) {
      if u != t {
        assert PcOk(w, u, w.sends[u]);
      }
    }
  }

  // ---------------------------------------------------------- requests do go out

  /** A step of sender `t`. */
  predicate OwnStep(s: Step, t: Tid) {
    !s.Other? && !s.Close? && s.t == t
  }

  ghost predicate OwnSteps(steps: seq<Step>, t: Tid) {
    forall i | 0 <= i < |steps| :: OwnStep(steps[i], t)
  }

  /** What a sender leaves that was alone: its message on the wire, and the lock free again. */
  predicate SentAlone(w: World, w': World, p: Pid, destructor: bool)
    requires p in w.objs.idOf
  {
    && w'.wire == w.wire + [Sent(p, w.objs.idOf[p], destructor, true)]
    && w'.sends == w.sends && w'.sendMu == None && w'.open && !w'.closed
  }

  /** Whenever the socket is open, the send lock free and the proxy registered, a sender that is left alone gets its
  message onto the wire. */
  lemma RequestGoesOut(w: World, t: Tid, p: Pid) returns (steps: seq<Step>)
    requires CheckProxy(w, p) && p in w.objs.done && w.open && w.sendMu.None? && !At(w, t)
    ensures Legal(w, steps) && OwnSteps(steps, t)
    ensures SentAlone(w, Run(w, steps), p, false) && Run(w, steps).objs == w.objs
  {
    var w1 := Next(w, Begin(t, p, false));
    var w2 := Next(w1, Lock(t));
    var w3 := Next(w2, Guard(t));
    var w4 := Next(w3, Write(t, true, false));
    steps := Cons(w4, Unlock(t), []);
    steps := Cons(w3, Write(t, true, false), steps);
    steps := Cons(w2, Guard(t), steps);
    steps := Cons(w1, Lock(t), steps);
    steps := Cons(w, Begin(t, p, false), steps);
    assert w4.sends - {t} == w.sends;
  }

  /** And so does a destructor, which claims the proxy on the way and leaves its zombie. */
  lemma DestructorGoesOut(w: World, t: Tid, p: Pid) returns (steps: seq<Step>)
    requires CheckProxy(w, p) && p in w.objs.done && w.open && w.sendMu.None? && !At(w, t)
    ensures Legal(w, steps) && OwnSteps(steps, t) && SentAlone(w, Run(w, steps), p, true)
    ensures var s := Run(w, steps).objs;
            && p in s.gone && p in s.claimed && p in s.buried && s.idOf == w.objs.idOf && s.alloc == w.objs.alloc
            && s.proxies == w.objs.proxies - {s.idOf[p]}
            && (Holds(w.objs.objects, s.idOf[p], Live(p)) ==> s.objects == w.objs.objects[s.idOf[p] := Zombie(p)])
  {
    var w1 := Next(w, Begin(t, p, true));
    var w2 := Next(w1, Lock(t));
    var w3 := Next(w2, Guard(t));
    var rest := ClaimedGoesOut(w3, t, p);
    steps := Cons(w2, Guard(t), rest);
    steps := Cons(w1, Lock(t), steps);
    steps := Cons(w, Begin(t, p, true), steps);
    assert w3.sends - {t} == w.sends;
  }

  lemma ClaimedGoesOut(w: World, t: Tid, p: Pid) returns (steps: seq<Step>)
    requires CheckProxy(w, p) && p in w.objs.done && w.open && At(w, t) && w.sends[t] == Checked(p)
    ensures Legal(w, steps) && OwnSteps(steps, t)
    ensures var w' := Run(w, steps);
            && w'.wire == w.wire + [Sent(p, w.objs.idOf[p], true, true)]
            && w'.sends == w.sends - {t} && w'.sendMu == None && w'.open && !w'.closed
    ensures Run(w, steps).objs == Objects.Next(Objects.Next(w.objs, ClaimProxy(p)), Entomb(p))
  {
    var w1 := Next(w, Claim(t));
    var w2 := Next(w1, Swap(t));
    var w3 := Next(w2, Write(t, true, false));
    steps := Cons(w3, Unlock(t), []);
    steps := Cons(w2, Write(t, true, false), steps);
    steps := Cons(w1, Swap(t), steps);
    steps := Cons(w, Claim(t), steps);
    assert w3.sends - {t} == w.sends - {t};
  }

  // ------------------------------------------------------------ holders of an ID

  /** `p` was registered and is no longer: taken out, or its place taken by another proxy. It never comes back. */
  predicate Lost(s: Objects.State, p: Pid) {
    p in s.started && p in s.idOf && !Holds(s.proxies, s.idOf[p], p)
  }

  lemma LostStays(s: Objects.State, a: Objects.Action, p: Pid)
    requires Objects.Shape(s) && Objects.Allowed(s, a) && Lost(s, p)
    ensures Lost(Objects.Next(s, a), p)
  {
  }

  /** Every message of another proxy under the same ID is by one that has lost its place. */
  predicate Yields(w: World, p: Pid) {
    forall i | 0 <= i < |w.wire| && p in w.objs.idOf && w.wire[i].id == w.objs.idOf[p] && w.wire[i].p != p ::
      Lost(w.objs, w.wire[i].p)
  }

  /** No message of another proxy under its ID follows a message of `p`. */
  predicate Uninterrupted(w: World, p: Pid) {
    forall i, j | 0 <= i < j < |w.wire| && w.wire[i].p == p && w.wire[j].id == w.wire[i].id :: w.wire[j].p == p
  }

  predicate Blocks(wire: seq<Sent>) {
    forall i, j, k | 0 <= i < j < k < |wire| && wire[i].id == wire[j].id && wire[i].p == wire[k].p ::
      wire[j].p == wire[i].p
  }

  /** Once a second proxy has written under an ID, the first has lost its place; and a sender past its guard has lost
  neither to anybody who has written. */
  predicate HoldersOk(w: World) {
    && (forall i | 0 <= i < |w.wire| :: w.wire[i].p in w.objs.started)
    && (forall i, j | 0 <= i < j < |w.wire| && w.wire[i].id == w.wire[j].id && w.wire[i].p != w.wire[j].p ::
          Lost(w.objs, w.wire[i].p))
    && (forall t | t in w.sends && (w.sends[t].Ready? || w.sends[t].Swapping?) ::
          Yields(w, w.sends[t].p) && Uninterrupted(w, w.sends[t].p))
    && Blocks(w.wire)
  }

  /** A proxy that is registered now has not been interrupted, and all others under its ID have lost their place. */
  lemma HolderIsFree(w: World, p: Pid)
    requires Inv(w) && HoldersOk(w) && p in w.objs.idOf && Holds(w.objs.proxies, w.objs.idOf[p], p)
    ensures Yields(w, p) && Uninterrupted(w, p)
  {
    assert !Lost(w.objs, p);
  }

  /** Object steps lose no `Lost`. */
  lemma HoldersOther(w: World, a: Objects.Action)
    requires Inv(w) && HoldersOk(w) && Objects.Allowed(w.objs, a)
    ensures HoldersOk(w.(objs := Objects.Next(w.objs, a)))
  {
    var w' := w.(objs := Objects.Next(w.objs, a));
    ObjectStepGrows(w.objs, a);
    forall p | Lost(w.objs, p) ensures Lost(w'.objs, p) {
      LostStays(w.objs, a, p);
    }
    forall t | t in w.sends && (w.sends[t].Ready? || w.sends[t].Swapping?)
      ensures Yields(w', w.sends[t].p) && Uninterrupted(w', w.sends[t].p)
    {
      assert PcOk(w, t, w.sends[t]);
      assert Yields(w, w.sends[t].p) && Uninterrupted(w, w.sends[t].p);
    }
  }

  /** It does not depend on the lock or the socket. */
  lemma HoldersFrame(w: World, w': World)
    requires HoldersOk(w) && w'.objs == w.objs && w'.wire == w.wire
    requires forall t | t in w'.sends :: t in w.sends && w'.sends[t] == w.sends[t]
    ensures HoldersOk(w')
  {
    forall t | t in w'.sends && (w'.sends[t].Ready? || w'.sends[t].Swapping?)
      ensures Yields(w', w'.sends[t].p) && Uninterrupted(w', w'.sends[t].p)
    {
      assert Yields(w, w.sends[t].p) && Uninterrupted(w, w.sends[t].p);
    }
  }

  lemma HoldersGoto(w: World, t: Tid, pc: Pc)
    requires HoldersOk(w) && (pc.Ready? || pc.Swapping? ==> Yields(w, pc.p) && Uninterrupted(w, pc.p))
    ensures HoldersOk(Goto(w, t, pc))
  {
    var w' := Goto(w, t, pc);
    forall u | u in w'.sends && (w'.sends[u].Ready? || w'.sends[u].Swapping?)
      ensures Yields(w', w'.sends[u].p) && Uninterrupted(w', w'.sends[u].p)
    {
      assert Yields(w, w'.sends[u].p) && Uninterrupted(w, w'.sends[u].p);
    }
  }

  /** One more message, by a proxy that yields to nobody and was not interrupted. */
  lemma BlocksSnoc(wire: seq<Sent>, m: Sent)
    requires Blocks(wire)
    requires forall i, j | 0 <= i < j < |wire| && wire[i].p == m.p && wire[j].id == wire[i].id :: wire[j].p == m.p
    ensures Blocks(wire + [m])
  {
  }

  lemma HoldersAppend(w: World, m: Sent, t: Tid)
    requires Inv(w) && HoldersOk(w) && m.p in w.objs.started && m.p in w.objs.idOf && m.id == w.objs.idOf[m.p]
    requires Yields(w, m.p) && Uninterrupted(w, m.p)
    requires forall u | u in w.sends && u != t :: w.sends[u].Waiting?
    ensures HoldersOk(Goto(w.(wire := w.wire + [m]), t, Unlocking))
  {
    BlocksSnoc(w.wire, m);
    var w' := Goto(w.(wire := w.wire + [m]), t, Unlocking);
    forall i, j | 0 <= i < j < |w'.wire| && w'.wire[i].id == w'.wire[j].id && w'.wire[i].p != w'.wire[j].p
      ensures Lost(w'.objs, w'.wire[i].p)
    {
      if j < |w.wire| {
        assert Lost(w.objs, w.wire[i].p);
      } else {
        assert w.wire[i].id == w.objs.idOf[m.p];
      }
    }
  }

  lemma HoldersWrite(w: World, t: Tid, ok: bool, fragment: bool)
    requires Inv(w) && HoldersOk(w) && Enabled(w, Write(t, ok, fragment))
    ensures HoldersOk(AfterWrite(w, t, ok, fragment))
  {
    var pc := w.sends[t];
    assert PcOk(w, t, pc);
    forall u | u in w.sends && u != t ensures w.sends[u].Waiting? {
      assert PcOk(w, u, w.sends[u]);
    }
    if w.open && (ok || fragment) {
      var m := Sent(pc.p, w.objs.idOf[pc.p], pc.destructor, ok);
      HoldersAppend(w, m, t);
      HoldersFrame(Goto(w.(wire := w.wire + [m]), t, Unlocking), AfterWrite(w, t, ok, fragment));
    } else {
      HoldersGoto(w, t, Unlocking);
      HoldersFrame(Goto(w, t, Unlocking), AfterWrite(w, t, ok, fragment));
    }
  }

  lemma HoldersStep(w: World, s: Step)
    requires Inv(w) && HoldersOk(w) && Enabled(w, s)
    ensures HoldersOk(Next(w, s))
  {
    match s
    case Other(a) => HoldersOther(w, a);
    case Begin(t, p, d) => HoldersGoto(w, t, Waiting(p, d));
    case Lock(t) => HoldersLock(w, t);
    case Refuse(t) => HoldersGoto(w, t, Unlocking);
    case Guard(t) => HoldersGuard(w, t);
    case Claim(t) => HoldersClaim(w, t);
    case Swap(t) => HoldersSwap(w, t);
    case Write(t, ok, fragment) => HoldersWrite(w, t, ok, fragment);
    case Unlock(t) => HoldersFrame(w, Next(w, Unlock(t)));
    case Close => HoldersFrame(w, Next(w, Close));
  }

  lemma HoldersLock(w: World, t: Tid)
    requires HoldersOk(w) && Enabled(w, Lock(t))
    ensures HoldersOk(Next(w, Lock(t)))
  {
    var pc := if w.closed then Unlocking else InLock(w.sends[t].p, w.sends[t].destructor);
    HoldersGoto(w, t, pc);
    HoldersFrame(Goto(w, t, pc), Next(w, Lock(t)));
  }

  lemma HoldersGuard(w: World, t: Tid)
    requires Inv(w) && HoldersOk(w) && Enabled(w, Guard(t))
    ensures HoldersOk(Next(w, Guard(t)))
  {
    var pc := w.sends[t];
    if !CheckProxy(w, pc.p) {
      HoldersGoto(w, t, Unlocking);
    } else if pc.destructor {
      HoldersGoto(w, t, Checked(pc.p));
    } else {
      HolderIsFree(w, pc.p);
      HoldersGoto(w, t, Ready(pc.p, false));
    }
  }

  lemma HoldersClaim(w: World, t: Tid)
    requires Inv(w) && HoldersOk(w) && Enabled(w, Claim(t))
    ensures HoldersOk(Next(w, Claim(t)))
  {
    var p := w.sends[t].p;
    assert PcOk(w, t, w.sends[t]);
    if Holds(w.objs.proxies, w.objs.idOf[p], p) {
      HolderIsFree(w, p);
      HoldersGoto(w, t, Swapping(p));
      GotoKeeps(w, t, Unlocking);
      ClaimIsObjectStep(w, t, p);
    } else {
      HoldersGoto(w, t, Unlocking);
    }
  }

  lemma ClaimIsObjectStep(w: World, t: Tid, p: Pid)
    requires Inv(w) && HoldersOk(Goto(w, t, Swapping(p))) && Objects.Allowed(w.objs, ClaimProxy(p))
    ensures HoldersOk(Goto(w.(objs := Objects.Next(w.objs, ClaimProxy(p))), t, Swapping(p)))
  {
    var w1 := Goto(w, t, Swapping(p));
    ObjectStepGrows(w.objs, ClaimProxy(p));
    var w' := w1.(objs := Objects.Next(w.objs, ClaimProxy(p)));
    forall q | Lost(w.objs, q) ensures Lost(w'.objs, q) {
      LostStays(w.objs, ClaimProxy(p), q);
    }
    forall u | u in w'.sends && (w'.sends[u].Ready? || w'.sends[u].Swapping?)
      ensures Yields(w', w'.sends[u].p) && Uninterrupted(w', w'.sends[u].p)
    {
      assert Yields(w1, w'.sends[u].p) && Uninterrupted(w1, w'.sends[u].p);
      assert u != t ==> PcOk(w, u, w.sends[u]);
    }
  }

  lemma HoldersSwap(w: World, t: Tid)
    requires Inv(w) && HoldersOk(w) && Enabled(w, Swap(t))
    ensures HoldersOk(Next(w, Swap(t)))
  {
    var p := w.sends[t].p;
    assert PcOk(w, t, w.sends[t]);
    HoldersOther(w, Entomb(p));
    var w1 := w.(objs := Objects.Next(w.objs, Entomb(p)));
    HoldersGoto(w1, t, Ready(p, true));
  }

  lemma {:induction false} HoldersAlways(w: World, steps: seq<Step>)
    requires Inv(w) && HoldersOk(w) && Legal(w, steps)
    ensures HoldersOk(Run(w, steps))
    decreases |steps|
  {
    if steps != [] {
      StepKeeps(w, steps[0]);
      HoldersStep(w, steps[0]);
      HoldersAlways(Next(w, steps[0]), steps[1..]);
    }
  }

  /** Messages under one ID never alternate between proxies, against every compositor: once another proxy has written
  under the ID of an old one, nothing of the old one follows. */
  lemma HoldersDoNotAlternate(steps: seq<Step>, i: nat, j: nat, k: nat)
    requires Legal(Start, steps) && i < j < k < |Run(Start, steps).wire|
    requires var wire := Run(Start, steps).wire; wire[i].id == wire[j].id && wire[i].p != wire[j].p
    ensures Run(Start, steps).wire[k].p != Run(Start, steps).wire[i].p
  {
    HoldersAlways(Start, steps);
  }

  // --------------------------------------------------------- what can overtake

  /** `Abandon` does not take the send lock: wherever a plain request is past its guard, the proxy can be abandoned in
  full before the request reaches the wire. Only destructors order the wire. */
  lemma AbandonOvertakes(w: World, t: Tid, p: Pid) returns (steps: seq<Step>)
    requires At(w, t) && w.sends[t] == Ready(p, false) && w.open && CheckProxy(w, p) && p in w.objs.done
    ensures Legal(w, steps) && p in Run(w, steps).objs.buried
    ensures Run(w, steps).wire == w.wire + [Sent(p, w.objs.idOf[p], false, true)]
  {
    var w1 := Next(w, Other(ClaimProxy(p)));
    var w2 := Next(w1, Other(Entomb(p)));
    steps := [];
    steps := Cons(w2, Write(t, true, false), steps);
    steps := Cons(w1, Other(Entomb(p)), steps);
    steps := Cons(w, Other(ClaimProxy(p)), steps);
  }

  /** The first proxy of a fresh connection, registered. */
  function FirstProxy(): Objects.State {
    var s1 := Objects.Next(Objects.Init, Assign(0));
    assert s1.idOf[0] == 3;
    Objects.Next(Objects.Next(s1, StoreProxy(0)), StoreObject(0))
  }

  /** Such a state is reachable. */
  lemma PlainRequestPastGuard() returns (steps: seq<Step>)
    ensures Legal(Start, steps)
    ensures var w := Run(Start, steps);
            && At(w, 7) && w.sends[7] == Ready(0, false) && w.open && CheckProxy(w, 0) && 0 in w.objs.done
            && w.wire == [] && w.objs == FirstProxy()
  {
    assert Ids.Allocate(Start.objs.alloc).id == 3;
    var w1 := Next(Start, Other(Assign(0)));
    var w2 := Next(w1, Other(StoreProxy(0)));
    var w3 := Next(w2, Other(StoreObject(0)));
    var w4 := Next(w3, Begin(7, 0, false));
    var w5 := Next(w4, Lock(7));
    steps := [];
    steps := Cons(w5, Guard(7), steps);
    steps := Cons(w4, Lock(7), steps);
    steps := Cons(w3, Begin(7, 0, false), steps);
    steps := Cons(w2, Other(StoreObject(0)), steps);
    steps := Cons(w1, Other(StoreProxy(0)), steps);
    steps := Cons(Start, Other(Assign(0)), steps);
  }

  /** And a request past its guard can outlive even its proxy's ID: here the proxy is abandoned, its ID deleted and
  given to another proxy, which is live by the time the old request is written under that ID. */
  lemma StaleRequestOvertaken() returns (steps: seq<Step>)
    ensures Legal(Start, steps)
    ensures var w := Run(Start, steps);
            w.wire == [Sent(0, 3, false, true)] && Stale(w.objs, 0) && Holds(w.objs.objects, 3, Live(1))
  {
    var first := PlainRequestPastGuard();
    var w := Run(Start, first);
    var abandon := Abandoned(w);
    Append(Start, first, abandon);
    var w1 := Run(w, abandon);
    var succeed := Succeeded(w1);
    Append(Start, first + abandon, succeed);
    var w2 := Run(w1, succeed);
    var write := Cons(w2, Write(7, true, false), []);
    Append(Start, first + abandon + succeed, write);
    steps := first + abandon + succeed + write;
  }

  /** Nothing but the objects has moved. */
  predicate SameSends(w: World, w': World) {
    w' == w.(objs := w'.objs)
  }

  lemma Abandoned(w: World) returns (steps: seq<Step>)
    requires w.objs == FirstProxy()
    ensures Legal(w, steps) && SameSends(w, Run(w, steps))
    ensures var s := Run(w, steps).objs;
            && s.alloc == Ids.Allocator(4, [3], {3}) && s.idOf == map[0 := 3]
            && s.owner == map[] && s.done == s.started == {0}
  {
    assert w.objs.owner == map[3 := 0] && w.objs.alloc == Ids.Allocator(4, [], {});
    var w1 := Next(w, Other(ClaimProxy(0)));
    var w2 := Next(w1, Other(Entomb(0)));
    steps := [];
    steps := Cons(w2, Other(DeleteId(3)), steps);
    steps := Cons(w1, Other(Entomb(0)), steps);
    steps := Cons(w, Other(ClaimProxy(0)), steps);
  }

  lemma Succeeded(w: World) returns (steps: seq<Step>)
    requires w.objs.alloc == Ids.Allocator(4, [3], {3}) && w.objs.idOf == map[0 := 3]
    requires w.objs.done == w.objs.started == {0}
    ensures Legal(w, steps) && SameSends(w, Run(w, steps))
    ensures var s := Run(w, steps).objs;
            s.idOf == map[0 := 3, 1 := 3] && Owns(s, 3, 1) && 0 in s.done && Holds(s.objects, 3, Live(1))
  {
    var w1 := Next(w, Other(Assign(1)));
    var w2 := Next(w1, Other(StoreProxy(1)));
    steps := [];
    steps := Cons(w2, Other(StoreObject(1)), steps);
    steps := Cons(w1, Other(StoreProxy(1)), steps);
    steps := Cons(w, Other(Assign(1)), steps);
  }

  lemma {:induction false} Append(w: World, a: seq<Step>, b: seq<Step>)
    requires Legal(w, a) && Legal(Run(w, a), b)
    ensures Legal(w, a + b) && Run(w, a + b) == Run(Run(w, a), b)
    decreases |a|
  {
    if a == [] {
      assert a + b == b;
    } else {
      assert (a + b)[1..] == a[1..] + b;
      Append(Next(w, a[0]), a[1..], b);
    }
  }

  lemma Cons(w: World, s: Step, rest: seq<Step>) returns (steps: seq<Step>)
    requires Enabled(w, s) && Legal(Next(w, s), rest)
    ensures steps == [s] + rest && Legal(w, steps) && Run(w, steps) == Run(Next(w, s), rest)
  {
    steps := [s] + rest;
    assert steps[1..] == rest;
  }
}

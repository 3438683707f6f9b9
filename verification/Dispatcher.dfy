/** Dispatching frames to objects (client.go `Dispatch`, `dispatchFrame`, `prepareFrame`, `handleDisplayEvent`, `fail`,
`Roundtrip`). The frames come from a `Receiver`; the tables are the state of `Objects`.

Code the library does not control, handlers and other goroutines alike, is a script: at each of the points marked
`Interfere` it may take any steps of `Objects` it is able to take, except on callbacks, which `Roundtrip` keeps to
itself, and except delete_id, which is the compositor's. */
module Dispatching {
  import opened Bytes
  import Calls
  import opened Errors
  import opened Wire
  import opened Signature
  import opened Descriptors
  import Codec
  import Ids
  import Objects
  import Receive

  type Pid = Objects.Pid
  type World = Objects.State

  /** What the registry declares about its events. */
  const REGISTRY_EVENTS: map<u16, string> := map[0 := "uint,string,uint,", 1 := "uint,"]
  const CALLBACK_EVENTS: map<u16, string> := map[0 := "uint,"]

  function Lookup<K, V>(m: map<K, V>, k: K): Option<V> {
    if k in m then Some(m[k]) else None
  }

  /** Two worlds in which `p` is the same: same ID, same stage of its life. */
  ghost predicate Same(w: World, w': World, p: Pid) {
    && (p in w.idOf <==> p in w'.idOf)
    && (p in w.idOf ==> w'.idOf[p] == w.idOf[p])
    && (p in w.done <==> p in w'.done)
    && (p in w.buried <==> p in w'.buried)
  }

  /** `p` has been unregistered: its ID leads nowhere. */
  ghost predicate Finished(w: World, w': World, p: Pid) {
    && p in w.idOf && p in w'.idOf && w'.idOf[p] == w.idOf[p]
    && p in w'.done && p in w'.buried && w'.idOf[p] !in w'.objects
  }

  /** The frame is the done event of `p`, whose life has not ended. */
  ghost predicate Awaited(w: World, f: Frame, p: Pid) {
    p in w.done && p !in w.buried && p in w.idOf && IsDone(f, w.idOf[p])
  }

  /** `p` can be waited for: it is in the table, and nobody is still to be registered over it. */
  ghost predicate Secure(w: World, p: Pid) {
    Objects.Waits(w, p) && Objects.NoRival(w, p)
  }

  ghost predicate StaysSecure(w: World, w': World, p: Pid) {
    Secure(w, p) ==> Secure(w', p)
  }

  /** What one dispatched frame does to a callback: its done event ends it if it can be waited for, and anything else
  leaves it alone. */
  ghost predicate Advanced(w: World, w': World, f: Frame, p: Pid) {
    && (p in w.idOf ==> p in w'.idOf && w'.idOf[p] == w.idOf[p])
    && (p in w.done ==> p in w'.done)
    && (!Awaited(w, f, p) ==> Same(w, w', p) && StaysSecure(w, w', p))
    && (Awaited(w, f, p) && Secure(w, p) ==> Finished(w, w', p))
  }

  /** A step names `p`. */
  predicate Names(a: Objects.Action, ps: set<Pid>) {
    match a
    case AllocateOnly => false
    case DeleteId(_) => true
    case _ => a.p in ps
  }

  lemma OthersLeaveItAlone(w: World, a: Objects.Action, p: Pid)
    requires Objects.Sound(w) && Objects.Allowed(w, a) && (a.DeleteId? || !Names(a, {p}))
    ensures Same(w, Objects.Next(w, a), p) && StaysSecure(w, Objects.Next(w, a), p)
  {
    if Secure(w, p) {
      Objects.WaitsStep(w, a, p);
    }
  }

  /** What other code does with a list of steps: those it is able to take and that are its own to take. */
  function Others(w: World, steps: seq<Objects.Action>, private: set<Pid>): World {
    if steps == [] then w else
    var n := |steps| - 1;
    OtherStep(Others(w, steps[..n], private), steps[n], private)
  }

  function OtherStep(w: World, a: Objects.Action, private: set<Pid>): World {
    if Objects.Allowed(w, a) && !Names(a, private) then Objects.Next(w, a) else w
  }

  /** It breaks no invariant, leaves private objects alone, and does not disturb one that can be waited for. */
  lemma {:induction false} OthersAreHarmless(w: World, steps: seq<Objects.Action>, private: set<Pid>)
    requires Objects.Sound(w)
    ensures Objects.Sound(Others(w, steps, private))
    ensures Objects.Inv(w) ==> Objects.Inv(Others(w, steps, private))
    ensures forall p | p in private ::
              Same(w, Others(w, steps, private), p) && StaysSecure(w, Others(w, steps, private), p)
  {
    if steps != [] {
      var n := |steps| - 1;
      OthersAreHarmless(w, steps[..n], private);
      var w' := Others(w, steps[..n], private);
      if Objects.Allowed(w', steps[n]) && !Names(steps[n], private) {
        OtherStepIsHarmless(w', steps[n], private);
      }
    }
  }

  lemma OtherStepIsHarmless(w: World, a: Objects.Action, private: set<Pid>)
    requires Objects.Sound(w) && Objects.Allowed(w, a) && !Names(a, private)
    ensures Objects.Sound(Objects.Next(w, a))
    ensures Objects.Inv(w) ==> Objects.Inv(Objects.Next(w, a))
    ensures forall p | p in private :: Same(w, Objects.Next(w, a), p) && StaysSecure(w, Objects.Next(w, a), p)
  {
    Objects.SoundStep(w, a);
    if Objects.Inv(w) {
      Objects.StepKeeps(w, a);
    }
    forall p | p in private ensures Same(w, Objects.Next(w, a), p) && StaysSecure(w, Objects.Next(w, a), p) {
      OthersLeaveItAlone(w, a, p);
    }
  }

  /** Other code can use up the client's IDs, one by one; a `Roundtrip` then gets none. */
  lemma {:induction false} OthersAllocate(n: nat, private: set<Pid>)
    requires 3 + n <= Ids.FIRST_SERVER_ID
    ensures Others(Objects.Init, seq(n, _ => Objects.AllocateOnly), private) ==
            Objects.Init.(alloc := Ids.Allocator(3 + n, [], {}))
  {
    if n > 0 {
      var steps := seq(n, _ => Objects.AllocateOnly);
      assert steps[..n - 1] == seq(n - 1, _ => Objects.AllocateOnly);
      OthersAllocate(n - 1, private);
    }
  }

  lemma OthersCanExhaust(private: set<Pid>) returns (steps: seq<Objects.Action>)
    ensures Objects.Inv(Others(Objects.Init, steps, private))
    ensures Ids.Allocate(Others(Objects.Init, steps, private).alloc).id == 0
  {
    steps := seq(Ids.FIRST_SERVER_ID - 3, _ => Objects.AllocateOnly);
    OthersAllocate(Ids.FIRST_SERVER_ID - 3, private);
    Objects.InitInv();
    Objects.InvIsSound(Objects.Init);
    OthersAreHarmless(Objects.Init, steps, private);
  }

  /** Exactly when other code can leave a callback's ID empty before its done event has come: if and only if some proxy
  that is not registered in full yet has that ID too. */
  lemma OthersExactlyRivals(w: World, cb: Pid, private: set<Pid>)
    requires Objects.Sound(w) && Objects.Waits(w, cb) && cb in private
    requires forall q | q in private && q in w.idOf && w.idOf[q] != 0 :: q in w.done
    ensures (forall steps :: w.idOf[cb] in Others(w, steps, private).objects) <==> Objects.NoRival(w, cb)
  {
    if Objects.NoRival(w, cb) {
      forall steps ensures w.idOf[cb] in Others(w, steps, private).objects {
        OthersAreHarmless(w, steps, private);
        assert Same(w, Others(w, steps, private), cb) && StaysSecure(w, Others(w, steps, private), cb);
      }
    } else {
      var q :| q in w.idOf && q != cb && w.idOf[q] == w.idOf[cb] && q !in w.done;
      Objects.RivalTakesItAlong(w, q);
      OthersRun(w, Objects.PassThrough(w, q), private);
      assert w.idOf[cb] !in Others(w, Objects.PassThrough(w, q), private).objects;
    }
  }

  /** Other code takes every step of a run that is its own. */
  lemma {:induction false} OthersRun(w: World, steps: seq<Objects.Action>, private: set<Pid>)
    requires Objects.Legal(w, steps) && forall i | 0 <= i < |steps| :: !Names(steps[i], private)
    ensures Others(w, steps, private) == Objects.Run(w, steps)
    decreases |steps|
  {
    if steps != [] {
      OthersRun(Objects.Next(w, steps[0]), steps[1..], private);
      OthersCons(w, steps, private);
    }
  }

  lemma {:induction false} OthersCons(w: World, steps: seq<Objects.Action>, private: set<Pid>)
    requires steps != []
    ensures Others(w, steps, private) == Others(OtherStep(w, steps[0], private), steps[1..], private)
    decreases |steps|
  {
    var n := |steps| - 1;
    if n == 0 {
      assert steps[..0] == [] && steps[1..] == [];
    } else {
      OthersCons(w, steps[..n], private);
      assert steps[..n][1..] == steps[1..][..n - 1] && steps[1..][n - 1] == steps[n];
    }
  }

  /** Such a rival needs a delete_id that was not on time: here ID 3 is deleted before proxy 0 is registered, and
  callback 1 is given it. */
  lemma EarlyDeleteMakesRival()
    ensures var w := AfterEarlyDelete();
            Objects.Sound(w) && Objects.Waits(w, 1) && !Objects.NoRival(w, 1)
  {
    Objects.InitInv();
    Objects.InvIsSound(Objects.Init);
    EarlyDeleteIsSound();
    Ids.AllocateOk(EarlyDelete().alloc);
    GivenIsSound(EarlyDelete(), 1);
  }

  lemma EarlyDeleteIsSound()
    requires Objects.Sound(Objects.Init)
    ensures Objects.Sound(EarlyDelete())
  {
    var w := Objects.Init;
    Objects.SoundStep(w, Objects.Assign(0));
    Objects.SoundStep(Objects.Next(w, Objects.Assign(0)), Objects.DeleteId(3));
  }

  lemma GivenIsSound(w: World, p: Pid)
    requires Objects.Sound(w) && p !in w.idOf && Ids.Allocate(w.alloc).id != 0
    ensures Objects.Sound(Given(w, p)) && Objects.Waits(Given(w, p), p)
    ensures Objects.NoRival(Given(w, p), p) <==> Objects.Unclaimed(w, Ids.Allocate(w.alloc).id, p)
  {
    Ids.AllocateOk(w.alloc);
    var w1 := Objects.Next(w, Objects.Assign(p));
    var w2 := Objects.Next(w1, Objects.StoreProxy(p));
    Objects.SoundStep(w, Objects.Assign(p));
    Objects.SoundStep(w1, Objects.StoreProxy(p));
    Objects.SoundStep(w2, Objects.StoreObject(p));
  }

  function EarlyDelete(): (w: World)
    ensures w.alloc == Ids.Allocator(4, [3], {3}) && w.idOf == map[0 := 3]
    ensures w.started == w.done == w.gone == w.buried == {}
  {
    var s1 := Objects.Next(Objects.Init, Objects.Assign(0));
    assert s1.alloc == Ids.Allocator(4, [], {}) && s1.idOf == map[0 := 3];
    Objects.Next(s1, Objects.DeleteId(3))
  }

  function AfterEarlyDelete(): World {
    Given(EarlyDelete(), 1)
  }

  /** A proxy is given an ID and registered. */
  function Given(w: World, p: Pid): (w': World)
    requires Ids.Allocate(w.alloc).id != 0
    ensures w'.idOf == w.idOf[p := Ids.Allocate(w.alloc).id]
    ensures w'.started == w.started + {p} && w'.done == w.done + {p} && w'.gone == w.gone && w'.buried == w.buried
    ensures Objects.Holds(w'.objects, Ids.Allocate(w.alloc).id, Objects.Live(p))
  {
    var w1 := Objects.Next(w, Objects.Assign(p));
    var w2 := Objects.Next(w1, Objects.StoreProxy(p));
    Objects.Next(w2, Objects.StoreObject(p))
  }

  /** The entry found for a frame is the awaited object, or the frame awaits another. */
  lemma FoundOrNot(w: World, f: Frame, p: Pid, e: Objects.Entry)
    requires Objects.Sound(w) && Objects.Holds(w.objects, f.obj, e)
    ensures Awaited(w, f, p) && Secure(w, p) ==> e == Objects.Live(p)
    ensures e == Objects.Live(p) && f.opcode == 0 ==> Awaited(w, f, p)
  {
  }

  /** Nothing but its done event has happened to it, and not even that. */
  lemma UnmovedIsAdvanced(w: World, w': World, f: Frame, p: Pid)
    requires Same(w, w', p) && StaysSecure(w, w', p) && !(Awaited(w, f, p) && Secure(w, p))
    ensures Advanced(w, w', f, p)
  {
  }

  /** What the handler of a callback does to it. */
  ghost predicate Ended(w: World, w': World, p: Pid) {
    && (p in w.idOf ==> p in w'.idOf && w'.idOf[p] == w.idOf[p])
    && (p in w.done ==> p in w'.done)
    && (Objects.Waits(w, p) ==> Finished(w, w', p))
  }

  lemma HandledIsAdvanced(w: World, now: World, w': World, f: Frame, p: Pid, e: Objects.Entry)
    requires Objects.Sound(now) && Same(w, now, p) && StaysSecure(w, now, p) && Objects.Holds(now.objects, f.obj, e)
    requires Awaited(w, f, p) && Secure(w, p) ==> e == Objects.Live(p)
    requires if e == Objects.Live(p) && f.opcode == 0 then Ended(now, w', p)
             else Same(now, w', p) && StaysSecure(now, w', p)
    ensures Advanced(w, w', f, p)
  {
    FoundOrNot(now, f, p, e);
  }

  /** A frame that was dispatched has advanced a callback; one that was not has left it alone. */
  ghost predicate Moved(w: World, w': World, f: Frame, p: Pid, err: Option<Error>) {
    if err.None? then Advanced(w, w', f, p) else Same(w, w', p) && StaysSecure(w, w', p)
  }

  /** Callbacks are registered as soon as they have an ID. */
  ghost predicate Settled(w: World, callbacks: set<Pid>) {
    forall q | q in callbacks :: q in w.idOf && (w.idOf[q] != 0 ==> q in w.done)
  }

  lemma SettledOn(w: World, w': World, callbacks: set<Pid>)
    requires Settled(w, callbacks)
    requires forall q | q in callbacks :: Same(w, w', q) || exists f :: Advanced(w, w', f, q)
    ensures Settled(w', callbacks)
  {
  }

  /** Anything but its done event leaves a waiting callback in the table. */
  lemma StillThere(w: World, w': World, f: Frame, p: Pid)
    requires Objects.Sound(w) && p in w.idOf && Advanced(w, w', f, p)
    ensures p in w'.idOf && w'.idOf[p] == w.idOf[p]
    ensures Secure(w, p) ==> (IsDone(f, w.idOf[p]) <==> w.idOf[p] !in w'.objects)
    ensures Secure(w, p) && !IsDone(f, w.idOf[p]) ==> Secure(w', p)
  {
    if Secure(w, p) {
      assert Objects.LiveEntryOk(w, w.idOf[p], p);
    }
  }

  /** wl_callback.done for the object at `id`. */
  predicate IsDone(f: Frame, id: u32) {
    f.obj == id && f.opcode == 0
  }

  ghost predicate Unanswered(fs: seq<Frame>, id: u32) {
    forall i | 0 <= i < |fs| :: !IsDone(fs[i], id)
  }

  /** The last frame is the first done event. */
  ghost predicate EndsWithDone(fs: seq<Frame>, id: u32) {
    fs != [] && IsDone(fs[|fs| - 1], id) && Unanswered(fs[..|fs| - 1], id)
  }

  datatype Trip = Answered | Broken(err: Error) | Unsent | Waiting

  /** The barrier: with an ID, it is answered exactly by the first done event; without, by the first frame. */
  ghost predicate TripOk(result: Trip, fs: seq<Frame>, id: u32) {
    if id == 0 then |fs| == (if result == Answered then 1 else 0)
    else if result == Answered then EndsWithDone(fs, id)
    else Unanswered(fs, id)
  }

  lemma OneMore(fs: seq<Frame>, f: Frame, id: u32)
    requires TripOk(Waiting, fs, id)
    ensures TripOk(if id == 0 || IsDone(f, id) then Answered else Waiting, fs + [f], id)
  {
    assert (fs + [f])[..|fs|] == fs;
  }

  const ERROR_SIGNATURE := "object," + "uint," + "string,"
  const ERROR_KINDS: seq<Kind> := [KObject, KUint, KString]

  function ErrorArgs(obj: u32, code: u32, message: seq<byte>): seq<Codec.Arg> {
    [Codec.ArgWord(obj), Codec.ArgWord(code), Codec.ArgString(message)]
  }

  lemma ErrorSignature()
    ensures SigText(ERROR_KINDS) == ERROR_SIGNATURE
  {
    assert ERROR_KINDS[1..] == [KUint, KString] && [KUint, KString][1..] == [KString];
    assert SigText([KString]) == "string,";
    assert SigText([KUint, KString]) == "uint,string,";
  }

  /** What an accepted error event says, value by value. */
  function ErrorOf(parts: seq<seq<byte>>): Error
    requires |parts| == 3
    requires Signature.Legal(KObject, parts[0]) && Signature.Legal(KUint, parts[1])
    requires Signature.Legal(KString, parts[2])
  {
    Display(WordAt(parts[0]), WordAt(parts[1]), Codec.ValueOf(KString, parts[2]).bytes)
  }

  /** The decoders read exactly that, also from a null string or with odd padding. */
  lemma ErrorDecodes(parts: seq<seq<byte>>, body: seq<byte>)
    requires Matches(ERROR_KINDS, parts, ERROR_SIGNATURE, body) && |body| < 0x1_0000_0000
    ensures var d0 := Codec.Uint32At(body, 0);
            var d1 := Codec.Uint32At(body, d0.offset);
            var d2 := Codec.StringAt(body, d1.offset);
            && d0.value == Codec.VWord(ErrorOf(parts).obj) && d1.value == Codec.VWord(ErrorOf(parts).code)
            && d2.value == Codec.VBytes(ErrorOf(parts).message)
  {
    Codec.DecodesPart(ERROR_KINDS, parts, 0);
    Codec.DecodesPart(ERROR_KINDS, parts, 1);
    Codec.DecodesPart(ERROR_KINDS, parts, 2);
    DecodesThree(body);
  }

  /** An error event says what the compositor put into it. */
  lemma ErrorRoundTrip(obj: u32, code: u32, message: seq<byte>) returns (parts: seq<seq<byte>>)
    requires Codec.EncodeBody(ErrorArgs(obj, code, message)).Some?
    ensures Matches(ERROR_KINDS, parts, ERROR_SIGNATURE, Codec.EncodeBody(ErrorArgs(obj, code, message)).value)
    ensures ErrorOf(parts) == Display(obj, code, message)
  {
    var args := ErrorArgs(obj, code, message);
    parts := Codec.EncodedParts(ERROR_KINDS, args);
    ErrorSignature();
    assert Codec.Carries(KObject, parts[0], args[0]);
    assert Codec.Carries(KUint, parts[1], args[1]);
    assert Codec.Carries(KString, parts[2], args[2]);
  }

  lemma DecodesThree(body: seq<byte>)
    ensures var ds := Codec.DecodeAll(ERROR_KINDS, body, 0);
            && ds[0] == Codec.Uint32At(body, 0)
            && ds[1] == Codec.Uint32At(body, ds[0].offset)
            && ds[2] == Codec.StringAt(body, ds[1].offset)
  {
    assert ERROR_KINDS[1..] == [KUint, KString] && [KUint, KString][1..] == [KString];
    var d0 := Codec.Uint32At(body, 0);
    var d1 := Codec.Uint32At(body, d0.offset);
    var d2 := Codec.StringAt(body, d1.offset);
    assert Codec.DecodeAll([KString], body, d1.offset) == [d2];
    assert Codec.DecodeAll([KUint, KString], body, d0.offset) == [d1] + [d2];
  }

  /** A callback that has been asked for and can be waited for; with no ID it is nowhere. */
  ghost predicate Expected(w: World, cb: Pid, id: u32) {
    cb in w.idOf && w.idOf[cb] == id && (id != 0 ==> Secure(w, cb))
  }

  /** Some of the queue has moved, in order, to the descriptors that have left it. */
  ghost predicate Dequeued(gone: seq<int>, queue: seq<int>, gone': seq<int>, queue': seq<int>) {
    gone' + queue' == gone + queue && gone <= gone'
  }

  /** While nothing went wrong: job by job the frames of the stream, each with as many descriptors as it calls for, and
  together all that have left the queue. */
  ghost predicate Kept(intact: bool, jobs: seq<Job>, given: seq<seq<int>>, delivered: seq<Frame>, gone: seq<int>) {
    intact ==>
      && |jobs| == |given| == |delivered|
      && (forall i | 0 <= i < |jobs| :: jobs[i].frame == delivered[i] && |given[i]| == Needs(jobs[i]))
      && gone == Concat(given)
  }

  /** One more frame was prepared, and got what it calls for. */
  ghost predicate Advances(jobs: seq<Job>, given: seq<seq<int>>, gone: seq<int>,
                           jobs': seq<Job>, given': seq<seq<int>>, gone': seq<int>, job: Job)
  {
    && gone <= gone' && |gone'| == |gone| + Needs(job)
    && jobs' == jobs + [job] && given' == given + [gone'[|gone|..]]
  }

  lemma AdvanceKeeps(jobs: seq<Job>, given: seq<seq<int>>, delivered: seq<Frame>, gone: seq<int>,
                     jobs': seq<Job>, given': seq<seq<int>>, gone': seq<int>, job: Job)
    requires Kept(true, jobs, given, delivered, gone) && Advances(jobs, given, gone, jobs', given', gone', job)
    ensures Kept(true, jobs', given', delivered + [job.frame], gone')
  {
    ConcatAppend(given, gone'[|gone|..]);
    assert gone' == gone + gone'[|gone|..];
  }

  /** Of what has left the queue, all that names a descriptor has been closed. */
  ghost predicate ClosedAll(gone: seq<int>, shut: seq<int>, gone': seq<int>, shut': seq<int>) {
    gone <= gone' && shut' == shut + Receive.Owned(gone'[|gone|..])
  }

  lemma ClosedTwice(gone: seq<int>, shut: seq<int>, gone': seq<int>, shut': seq<int>,
                    gone'': seq<int>, shut'': seq<int>)
    requires ClosedAll(gone, shut, gone', shut') && ClosedAll(gone', shut', gone'', shut'')
    ensures ClosedAll(gone, shut, gone'', shut'')
  {
    var a, b := gone'[|gone|..], gone''[|gone'|..];
    assert gone''[|gone|..] == a + b;
    Receive.OwnedConcat(a, b);
    Reassociate(shut, Receive.Owned(a), Receive.Owned(b));
  }

  lemma ClosedSoFar(early: seq<int>, gone: seq<int>, shut: seq<int>, gone': seq<int>, shut': seq<int>)
    requires Receive.Owned(early) + shut == Receive.Owned(gone) && ClosedAll(gone, shut, gone', shut')
    ensures Receive.Owned(early) + shut' == Receive.Owned(gone')
  {
    var more := gone'[|gone|..];
    assert gone' == gone + more;
    Receive.OwnedConcat(gone, more);
    Reassociate(Receive.Owned(early), shut, Receive.Owned(more));
  }

  /** The descriptors a preparation takes off the queue. */
  function Removed(p: Preparation): seq<int> {
    if p.out.Assigned? then p.out.fds else p.shut
  }

  /** What must become of a frame, by the tables, the grammar and the queue alone: `known` says whether its object is in
  the table, `sig` is the signature of the event, `zombie` whether the object was destroyed. */
  ghost predicate PlacedRight(closed: bool, f: Frame, known: bool, sig: Option<string>, zombie: bool, queue: seq<int>,
                              unread: bool, out: Prepared)
  {
    if closed then out == Refused(Closed)
    else if f.obj == DISPLAY_OBJECT_ID then
      out == if queue != [] && !unread then Refused(Protocol(ExtraFd)) else ForDisplay
    else if !known then out == Refused(Protocol(UnknownObject))
    else if sig.None? then out == Refused(Protocol(UnknownOpcode))
    else if !Accepts(sig.value, f.body) then out == Refused(Protocol(MalformedPayload))
    else if |queue| < CountFd(sig.value) then out == Refused(Protocol(MissingFd))
    else if |queue| > CountFd(sig.value) && !unread then out == Refused(Protocol(ExtraFd))
    else out == Assigned(queue[..CountFd(sig.value)], zombie)
  }

  /** One dispatched frame: what came off the stream or why nothing did, the queue it found, where it went. */
  datatype Trace = Trace(f: Frame, bad: Option<Error>, queue: seq<int>, out: Prepared)

  /** The descriptors a prepared frame got. */
  function FdsIn(out: Prepared): seq<int> {
    if out.Assigned? then out.fds else []
  }

  /** Taking descriptors off the queue does not disturb the receiver. */
  twostate lemma StillValid(rx: Receive.Receiver)
    requires old(rx.Valid()) && Dequeued(old(rx.dequeued), old(rx.pendingFDs), rx.dequeued, rx.pendingFDs)
    requires unchanged(rx`readCount, rx`rbuf, rx`rlen, rx`rpos, rx`readErr, rx`delivered) && unchanged(old(rx.rbuf))
    ensures rx.Valid()
  {
  }

  class Dispatcher {
    const rx: Receive.Receiver
    const script: nat -> seq<Objects.Action>
    const generated: Pid -> Option<map<u16, string>>
    const registryEvents: map<u16, string>
    const callbackEvents: map<u16, string>
    var legacy: map<(u32, u16), string>
    var world: World
    var callbacks: set<Pid>
    var ticks: nat
    var shut: seq<int>
    ghost var dispatched: seq<Frame>  // the frames whose dispatch ended without an error, in order
    ghost var heard: seq<Pid>         // the objects whose handler ran, in order
    ghost var jobs: seq<Job>          // the frames that were prepared, with what the tables then said about them
    ghost var given: seq<seq<int>>    // and the descriptors each of them got
    ghost var intact: bool            // no frame was refused and no error has cleared the queue
    ghost const early: seq<int>       // the descriptors that had left the queue before

    ghost predicate Valid()
      reads this, rx, rx.rbuf
    {
      rx.Valid() && Objects.Sound(world) && Settled(world, callbacks)
    }

    constructor (rx: Receive.Receiver, script: nat -> seq<Objects.Action>, generated: Pid -> Option<map<u16, string>>)
      requires rx.Valid()
      ensures Valid() && this.rx == rx && this.script == script && this.generated == generated
      ensures registryEvents == REGISTRY_EVENTS && callbackEvents == CALLBACK_EVENTS && legacy == map[]
      ensures world == Objects.Init && callbacks == {} && shut == [] && dispatched == [] && heard == []
      ensures early == rx.dequeued && InStep() && (intact <==> rx.delivered == [] && rx.dequeued == [])
    {
      this.rx, this.script, this.generated := rx, script, generated;
      registryEvents, callbackEvents := REGISTRY_EVENTS, CALLBACK_EVENTS;
      legacy, world, callbacks, ticks, shut := map[], Objects.Init, {}, 0, [];
      dispatched, heard, early := [], [], rx.dequeued;
      jobs, given, intact := [], [], rx.delivered == [] && rx.dequeued == [];
      Objects.InitInv();
      Objects.InvIsSound(Objects.Init);
    }

    /** The prepared frames are those that came off the stream, and the descriptors they got are those that left the
    queue; whatever went wrong, all that left it have been closed. */
    ghost predicate InStep()
      reads this, rx
    {
      && Kept(intact, jobs, given, rx.delivered, rx.dequeued)
      && Receive.Owned(early) + shut == Receive.Owned(rx.dequeued)
    }

    /** Descriptor conservation over successive `Dispatch` calls, failed ones included: every descriptor that ever
    arrived has been closed or is still queued, in the order of arrival. */
    lemma AllAccountedFor()
      requires Valid() && InStep()
      ensures Receive.Owned(early) + shut + Receive.Owned(rx.pendingFDs) ==
              Receive.Owned(Receive.FdsUpTo(rx.conn, rx.readCount))
    {
      Receive.OwnedConcat(rx.dequeued, rx.pendingFDs);
    }

    /** Exactly when nothing other code does can make `Roundtrip` take its callback for answered: no proxy that is not
    registered in full has the same ID. */
    lemma BarrierExactlyWithoutRival(cb: Pid)
      requires Valid() && cb in callbacks && Objects.Waits(world, cb)
      ensures (forall steps :: world.idOf[cb] in Others(world, steps, callbacks).objects) <==>
              Objects.NoRival(world, cb)
    {
      OthersExactlyRivals(world, cb, callbacks);
    }

    /** Descriptor alignment over successive `Dispatch` calls: frame `i` of the stream got exactly its own slice of the
    descriptors that arrived, however frames and descriptors were cut into reads. */
    lemma StreamAligned(i: nat)
      requires Valid() && InStep() && intact && i < |rx.delivered|
      ensures |jobs| == |given| == |rx.delivered| && jobs[i].frame == rx.delivered[i]
      ensures GotItsOwn(jobs, given, Receive.FdsUpTo(rx.conn, rx.readCount), i)
    {
      ConcatAligned(jobs, given, rx.pendingFDs, i);
    }

    /** The events an object declares, and for one that declares none the registered signatures. */
    function SignatureOf(e: Objects.Entry, obj: u32, opcode: u16): Option<string>
      reads `legacy, `callbacks
    {
      match e
      case Core => Lookup(registryEvents, opcode)
      case _ =>
        if e.p in callbacks then Lookup(callbackEvents, opcode)
        else match generated(e.p)
          case Some(events) => Lookup(events, opcode)
          case None => Lookup(legacy, (obj, opcode))
    }

    /** `RegisterEventSignature`: it gives events to objects that declare none, and cannot override one that does. */
    method RegisterEventSignature(obj: u32, opcode: u16, sig: string)
      modifies `legacy
      ensures forall e: Objects.Entry, o: u32, op: u16 ::
                SignatureOf(e, o, op) ==
                if !e.Core? && e.p !in callbacks && generated(e.p).None? && (o, op) == (obj, opcode) && obj > 1
                then Some(sig)
                else old(SignatureOf(e, o, op))
    {
      if obj == 0 || obj == DISPLAY_OBJECT_ID {
        return;
      }
      legacy := legacy[(obj, opcode) := sig];
    }

    /** Where an event's signature comes from: an object that declares its events is bound by what it declares. */
    lemma DeclaredSignatures(e: Objects.Entry, obj: u32, opcode: u16)
      ensures e.Core? ==> SignatureOf(e, obj, opcode) == Lookup(registryEvents, opcode)
      ensures !e.Core? && e.p in callbacks ==> SignatureOf(e, obj, opcode) == Lookup(callbackEvents, opcode)
      ensures !e.Core? && e.p !in callbacks && generated(e.p).Some? ==>
                SignatureOf(e, obj, opcode) == Lookup(generated(e.p).value, opcode)
      ensures !e.Core? && e.p !in callbacks && generated(e.p).None? ==>
                SignatureOf(e, obj, opcode) == Lookup(legacy, (obj, opcode))
    {
    }

    /** The signature of the event a frame carries, and whether its object was destroyed. */
    ghost function EventOf(f: Frame): Option<string>
      reads `world, `legacy, `callbacks
    {
      if f.obj in world.objects then SignatureOf(world.objects[f.obj], f.obj, f.opcode) else None
    }

    ghost predicate IsZombie(obj: u32)
      reads `world
    {
      obj in world.objects && world.objects[obj].Zombie?
    }

    /** What the tables say about a frame. */
    ghost function TargetOf(f: Frame): Target
      reads `world, `legacy, `callbacks
    {
      if f.obj !in world.objects then NoObject
      else match SignatureOf(world.objects[f.obj], f.obj, f.opcode)
        case None => NoSignature
        case Some(sig) => Known(Accepts(sig, f.body), CountFd(sig), world.objects[f.obj].Zombie?)
    }

    /** The look-up in the middle of `prepareFrame`. */
    method LookUp(f: Frame) returns (t: Target)
      ensures t == TargetOf(f)
      ensures t != NoObject ==> f.obj in world.objects
    {
      if f.obj !in world.objects {
        return NoObject;
      }
      var obj := world.objects[f.obj];
      var sig := SignatureOf(obj, f.obj, f.opcode);
      if sig.None? {
        return NoSignature;
      }
      var bad, _, _, _ := ValidateEventBody(sig.value, f.body);
      ChecksIsAccepts(sig.value, f.body);
      return Known(bad.None?, CountFd(sig.value), obj.Zombie?);
    }

    /** Takes the first `n` descriptors off the queue. */
    method Dequeue(n: nat) returns (fds: seq<int>)
      requires n <= |rx.pendingFDs|
      modifies rx`pendingFDs, rx`dequeued
      ensures fds == old(rx.pendingFDs)[..n] && rx.pendingFDs == old(rx.pendingFDs)[n..]
      ensures rx.dequeued == old(rx.dequeued) + fds
      ensures Dequeued(old(rx.dequeued), old(rx.pendingFDs), rx.dequeued, rx.pendingFDs)
    {
      fds := rx.pendingFDs[..n];
      assert rx.pendingFDs == fds + rx.pendingFDs[n..];
      rx.dequeued := rx.dequeued + fds;
      rx.pendingFDs := rx.pendingFDs[n..];
    }

    /** `prepareFrame`, given what the tables say: outcome, queue and what it closes are those of `Prepare`. */
    method PrepareFrame(f: Frame, t: Target) returns (out: Prepared)
      modifies rx`pendingFDs, rx`dequeued, `shut
      ensures var p := Prepare(rx.closed, f, t, old(rx.pendingFDs), rx.rpos < rx.rlen);
              && out == p.out && rx.pendingFDs == p.pending && shut == old(shut) + Receive.Owned(p.shut)
              && rx.dequeued == old(rx.dequeued) + Removed(p)
      ensures Dequeued(old(rx.dequeued), old(rx.pendingFDs), rx.dequeued, rx.pendingFDs)
    {
      if rx.closed {
        return Refused(Closed);
      }
      if f.obj == DISPLAY_OBJECT_ID {
        if |rx.pendingFDs| != 0 && rx.rpos >= rx.rlen {
          return Refused(Protocol(ExtraFd));
        }
        return ForDisplay;
      }
      if t.NoObject? {
        return Refused(Protocol(UnknownObject));
      }
      if t.NoSignature? {
        return Refused(Protocol(UnknownOpcode));
      }
      if !t.accepted {
        return Refused(Protocol(MalformedPayload));
      }
      if |rx.pendingFDs| < t.count {
        return Refused(Protocol(MissingFd));
      }
      var fds := Dequeue(t.count);
      if rx.rpos >= rx.rlen && |rx.pendingFDs| != 0 {
        shut := shut + Receive.Owned(fds);
        return Refused(Protocol(ExtraFd));
      }
      return Assigned(fds, t.zombie);
    }

    /** Code outside the library takes its next steps. */
    method Interfere()
      requires Objects.Sound(world)
      modifies `world, `ticks
      ensures world == Others(old(world), script(old(ticks)), callbacks) && ticks == old(ticks) + 1
      ensures Objects.Sound(world)
      ensures forall p | p in callbacks :: Same(old(world), world, p) && StaysSecure(old(world), world, p)
    {
      var steps := script(ticks);
      ticks := ticks + 1;
      for i := 0 to |steps|
        invariant world == Others(old(world), steps[..i], callbacks) && ticks == old(ticks) + 1
      {
        assert steps[..i + 1][..i] == steps[..i];
        if Objects.Allowed(world, steps[i]) && !Names(steps[i], callbacks) {
          world := Objects.Next(world, steps[i]);
        }
      }
      assert steps[..|steps|] == steps;
      OthersAreHarmless(old(world), steps, callbacks);
    }

    /** wl_display.error, once validated: the decoders in order. */
    method DisplayError(body: seq<byte>) returns (err: Error)
      ensures err.Display?
      ensures forall parts | Matches(ERROR_KINDS, parts, ERROR_SIGNATURE, body) && |body| < 0x1_0000_0000 ::
                err == ErrorOf(parts)
    {
      var event := new Codec.Event(body, []);
      var obj := event.Uint32();
      var code := event.Uint32();
      var message := event.String();
      forall parts | Matches(ERROR_KINDS, parts, ERROR_SIGNATURE, body) && |body| < 0x1_0000_0000
        ensures Display(obj, code, message) == ErrorOf(parts)
      {
        ErrorDecodes(parts, body);
      }
      return Display(obj, code, message);
    }

    /** delete_id: a zombie goes in any case, the ID is retired only if it may be. */
    method DeleteID(id: u32) returns (err: Option<Error>)
      requires Objects.Sound(world)
      modifies `world
      ensures Objects.Sound(world)
      ensures world == Objects.Next(old(world), Objects.DeleteId(id))
      ensures forall p :: Same(old(world), world, p) && StaysSecure(old(world), world, p)
      ensures err == if Ids.Retirable(old(world).alloc, id, Objects.LiveAt(old(world), id)) then None
                     else Some(Protocol(InvalidDeleteId))
    {
      Objects.SoundStep(world, Objects.DeleteId(id));
      forall p ensures Same(world, Objects.Next(world, Objects.DeleteId(id)), p) &&
                       StaysSecure(world, Objects.Next(world, Objects.DeleteId(id)), p)
      {
        OthersLeaveItAlone(world, Objects.DeleteId(id), p);
      }
      var ok := Ids.Retirable(world.alloc, id, Objects.LiveAt(world, id));
      world := Objects.Next(world, Objects.DeleteId(id));
      return if ok then None else Some(Protocol(InvalidDeleteId));
    }

    /** `handleDisplayEvent`. */
    method HandleDisplayEvent(opcode: u16, body: seq<byte>) returns (err: Option<Error>)
      requires Objects.Sound(world)
      modifies `world
      ensures opcode == 0 ==> if Checks(ERROR_SIGNATURE, body) then err.Some? && err.value.Display?
                              else err == Some(Protocol(MalformedDisplayError))
      ensures forall parts | Matches(ERROR_KINDS, parts, ERROR_SIGNATURE, body) && |body| < 0x1_0000_0000 ::
                opcode == 0 ==> err == Some(ErrorOf(parts))
      ensures opcode == 0 ==> world == old(world)
      ensures opcode == 1 && |body| != 4 ==> err == Some(Protocol(ShortDeleteId)) && world == old(world)
      ensures opcode == 1 && |body| == 4 ==>
                && world == Objects.Next(old(world), Objects.DeleteId(WordAt(body)))
                && err == if Ids.Retirable(old(world).alloc, WordAt(body), Objects.LiveAt(old(world), WordAt(body)))
                          then None else Some(Protocol(InvalidDeleteId))
      ensures opcode > 1 ==> err == Some(Protocol(UnknownOpcode)) && world == old(world)
      ensures Objects.Sound(world)
      ensures forall p | p in callbacks :: Same(old(world), world, p) && StaysSecure(old(world), world, p)
    {
      if opcode == 0 {
        var bad, _, _, _ := ValidateEventBody(ERROR_SIGNATURE, body);
        if bad.Some? {
          ChecksIsAccepts(ERROR_SIGNATURE, body);
          return Some(Protocol(MalformedDisplayError));
        }
        var e := DisplayError(body);
        return Some(e);
      }
      if opcode == 1 {
        if |body| != 4 {
          return Some(Protocol(ShortDeleteId));
        }
        err := DeleteID(WordAt(body));
        return;
      }
      return Some(Protocol(UnknownOpcode));
    }

    /** `Unregister`, as the callback's handler calls it on itself. */
    method Unregister(p: Pid)
      requires Objects.Sound(world)
      modifies `world
      ensures Objects.Sound(world)
      ensures forall q | q != p :: Same(old(world), world, q) && StaysSecure(old(world), world, q)
      ensures Objects.Waits(old(world), p) ==> Finished(old(world), world, p)
      ensures p in old(world).idOf ==> p in world.idOf && world.idOf[p] == old(world).idOf[p]
      ensures p in old(world).done ==> p in world.done
    {
      var steps := [Objects.DropProxy(p), Objects.DropObject(p)];
      for i := 0 to |steps|
        invariant Objects.Sound(world)
        invariant forall q | q != p :: Same(old(world), world, q) && StaysSecure(old(world), world, q)
        invariant p in old(world).done ==>
                    p in world.done && (i > 0 ==> p in world.gone) && (i > 1 ==> p in world.buried)
        invariant p in old(world).idOf ==> p in world.idOf && world.idOf[p] == old(world).idOf[p]
        invariant Objects.Waits(old(world), p) && i > 1 ==> world.idOf[p] !in world.objects
        invariant i <= 1 ==> world.objects == old(world).objects
      {
        var a := steps[i];
        if Objects.Allowed(world, a) {
          Objects.SoundStep(world, a);
          ghost var before := world;
          world := Objects.Next(world, a);
          forall q | q != p ensures Same(old(world), world, q) && StaysSecure(old(world), world, q) {
            OthersLeaveItAlone(before, a, q);
            assert Same(old(world), before, q) && StaysSecure(old(world), before, q);
          }
        }
      }
    }

    /** The object's own handler runs; that of the registry runs the user's. */
    method Handle(e: Objects.Entry, f: Frame)
      requires Objects.Sound(world) && !e.Zombie?
      modifies `world, `ticks, `heard
      ensures Objects.Sound(world)
      ensures forall q | q in callbacks && !(e == Objects.Live(q) && f.opcode == 0) ::
                Same(old(world), world, q) && StaysSecure(old(world), world, q)
      ensures forall q | q in callbacks && e == Objects.Live(q) && f.opcode == 0 ::
                Ended(old(world), world, q)
      ensures heard == if e.Live? then old(heard) + [e.p] else old(heard)
    {
      if e.Live? {
        heard := heard + [e.p];
      }
      if !e.Live? || e.p !in callbacks {
        Interfere();
      } else if f.opcode == 0 {
        Unregister(e.p);
      }
    }

    /** `dispatchFrame`, after `prepareFrame` found an object: the table is looked at again before the handler runs. */
    method Deliver(f: Frame, e: Objects.Entry)
      requires Objects.Sound(world)
      requires Objects.Holds(world.objects, f.obj, e) && f.obj != DISPLAY_OBJECT_ID
      modifies `world, `ticks, `heard
      ensures Objects.Sound(world)
      ensures forall q | q in callbacks :: Advanced(old(world), world, f, q)
      // a handler runs exactly if its object is live and still there at the second look
      ensures heard == if e.Live? && Objects.Holds(Others(old(world), script(old(ticks)), callbacks).objects, f.obj, e)
                       then old(heard) + [e.p] else old(heard)
      // an event for a destroyed object is dropped without anybody noticing
      ensures e.Zombie? ==> world == old(world)
    {
      ghost var before := world;
      forall q | q in callbacks ensures Awaited(before, f, q) && Secure(before, q) ==> e == Objects.Live(q) {
        FoundOrNot(before, f, q, e);
      }
      if e.Zombie? {
        return;
      }
      Interfere();
      ghost var now := world;
      if f.obj !in world.objects || world.objects[f.obj] != e {
        forall q | q in callbacks ensures Advanced(before, now, f, q) {
          UnmovedIsAdvanced(before, now, f, q);
        }
        return;
      }
      Handle(e, f);
      forall q | q in callbacks ensures Advanced(before, world, f, q) {
        HandledIsAdvanced(before, now, world, f, q, e);
      }
    }

    /** Both together: where a frame goes, and the queue it leaves. */
    method Sort(f: Frame) returns (out: Prepared, ghost t: Target)
      modifies rx`pendingFDs, rx`dequeued, `shut
      ensures t == TargetOf(f)
      ensures var p := Prepare(rx.closed, f, t, old(rx.pendingFDs), rx.rpos < rx.rlen);
              && out == p.out && rx.pendingFDs == p.pending && shut == old(shut) + Receive.Owned(p.shut)
              && rx.dequeued == old(rx.dequeued) + Removed(p)
      ensures Dequeued(old(rx.dequeued), old(rx.pendingFDs), rx.dequeued, rx.pendingFDs)
      ensures PlacedRight(rx.closed, f, f.obj in world.objects, EventOf(f), IsZombie(f.obj), old(rx.pendingFDs),
                          rx.rpos < rx.rlen, out)
    {
      PreparedExactly(rx.closed, f, TargetOf(f), rx.pendingFDs, rx.rpos < rx.rlen);
      var target := LookUp(f);
      t := target;
      out := PrepareFrame(f, target);
    }

    /** The part of it `dispatchFrame` goes by, put on record: a frame that is not refused gets as many descriptors as
    it calls for. */
    method Place(f: Frame) returns (out: Prepared)
      modifies rx`pendingFDs, rx`dequeued, `shut, `jobs, `given, `intact
      ensures Dequeued(old(rx.dequeued), old(rx.pendingFDs), rx.dequeued, rx.pendingFDs)
      ensures out.ForDisplay? ==> f.obj == DISPLAY_OBJECT_ID
      ensures out.Assigned? ==> f.obj != DISPLAY_OBJECT_ID && f.obj in world.objects
      ensures PlacedRight(rx.closed, f, f.obj in world.objects, EventOf(f), IsZombie(f.obj), old(rx.pendingFDs),
                          rx.rpos < rx.rlen, out)
      ensures !out.Refused? ==> rx.dequeued == old(rx.dequeued) + FdsIn(out) && shut == old(shut)
      ensures !out.Refused? ==> !rx.closed && (rx.pendingFDs != [] ==> rx.rpos < rx.rlen)
      ensures out.Refused? ==> ClosedAll(old(rx.dequeued), old(shut), rx.dequeued, shut)
      ensures if out.Refused? then !intact
              else intact == old(intact) &&
                   Advances(old(jobs), old(given), old(rx.dequeued), jobs, given, rx.dequeued, Job(f, TargetOf(f)))
    {
      ghost var t;
      out, t := Sort(f);
      if out.Refused? {
        intact := false;
        ghost var p := Prepare(rx.closed, f, t, old(rx.pendingFDs), rx.rpos < rx.rlen);
        assert rx.dequeued[|old(rx.dequeued)|..] == p.shut;
      } else {
        assert rx.dequeued[|old(rx.dequeued)|..] == FdsIn(out);
        jobs, given := jobs + [Job(f, t)], given + [FdsIn(out)];
      }
    }

    /** An event of the display itself concerns no callback. */
    method OnDisplay(f: Frame) returns (err: Option<Error>)
      requires f.obj == DISPLAY_OBJECT_ID && Objects.Sound(world)
      modifies `world
      ensures Objects.Sound(world)
      ensures forall q | q in callbacks :: Same(old(world), world, q) && StaysSecure(old(world), world, q)
      ensures forall q | q in callbacks :: Advanced(old(world), world, f, q)
      ensures EndsRight(old(world), f, ForDisplay, err)
    {
      err := HandleDisplayEvent(f.opcode, f.body);
      forall q | q in callbacks ensures Advanced(old(world), world, f, q) {
        UnmovedIsAdvanced(old(world), world, f, q);
      }
    }

    /** The handler of a live object runs, once, exactly for a frame that was assigned to it and finds it still
    there. */
    ghost predicate Hears(w: World, tick: nat, f: Frame, out: Prepared, before: seq<Pid>, after: seq<Pid>)
      reads `callbacks
    {
      after ==
      if out.Assigned? && f.obj in w.objects && w.objects[f.obj].Live? &&
         Objects.Holds(Others(w, script(tick), callbacks).objects, f.obj, w.objects[f.obj])
      then before + [w.objects[f.obj].p] else before
    }

    /** How `dispatchFrame` ends, once it is known where the frame goes. */
    ghost predicate EndsRight(w: World, f: Frame, out: Prepared, err: Option<Error>) {
      match out
      case Refused(e) => err == Some(e)
      case Assigned(_, _) => err.None?
      case ForDisplay =>
        err.None? <==>
        f.opcode == 1 && |f.body| == 4 &&
        Ids.Retirable(w.alloc, WordAt(f.body), Objects.LiveAt(w, WordAt(f.body)))
    }

    /** What happens to a frame that was not refused; what its event holds is closed at the end. */
    method Perform(f: Frame, out: Prepared) returns (err: Option<Error>)
      requires Objects.Sound(world)
      requires out.ForDisplay? ==> f.obj == DISPLAY_OBJECT_ID
      requires out.Assigned? ==> f.obj != DISPLAY_OBJECT_ID && f.obj in world.objects
      requires !out.Refused?
      modifies `shut, `world, `ticks, `heard
      ensures Hears(old(world), old(ticks), f, out, old(heard), heard)
      ensures EndsRight(old(world), f, out, err)
      ensures out.Assigned? && old(world).objects[f.obj].Zombie? ==> world == old(world)
      ensures Objects.Sound(world)
      ensures forall q | q in callbacks :: Moved(old(world), world, f, q, err)
      ensures shut == old(shut) + Receive.Owned(FdsIn(out))
    {
      if out.ForDisplay? {
        err := OnDisplay(f);
      } else {
        Deliver(f, world.objects[f.obj]);
        shut := shut + Receive.Owned(out.fds);
        err := None;
      }
    }

    /** `dispatchFrame`: the descriptors the event still holds are closed when it ends. */
    method DispatchFrame(f: Frame) returns (err: Option<Error>, ghost out: Prepared)
      requires Objects.Sound(world)
      modifies rx`pendingFDs, rx`dequeued, `shut, `world, `ticks, `dispatched, `heard, `jobs, `given, `intact
      ensures Objects.Sound(world)
      ensures Dequeued(old(rx.dequeued), old(rx.pendingFDs), rx.dequeued, rx.pendingFDs)
      ensures dispatched == if err.None? then old(dispatched) + [f] else old(dispatched)
      ensures forall q | q in callbacks :: Moved(old(world), world, f, q, err)
      ensures err.None? ==> !rx.closed && (rx.pendingFDs != [] ==> rx.rpos < rx.rlen)
      // where it goes is decided by the tables and the grammar, and its handler runs only if it was accepted
      ensures old(PlacedRight(rx.closed, f, f.obj in world.objects, EventOf(f), IsZombie(f.obj), rx.pendingFDs,
                              rx.rpos < rx.rlen, out))
      ensures EndsRight(old(world), f, out, err) && Hears(old(world), old(ticks), f, out, old(heard), heard)
      ensures out.Assigned? && old(IsZombie(f.obj)) ==> world == old(world)
      // the frame gets as many descriptors as it calls for
      ensures intact ==>
                Advances(old(jobs), old(given), old(rx.dequeued), jobs, given, rx.dequeued, Job(f, old(TargetOf(f))))
      ensures (intact ==> old(intact)) && (err.None? ==> intact == old(intact))
      // and all that leave the queue are closed when it ends, refused or not
      ensures ClosedAll(old(rx.dequeued), old(shut), rx.dequeued, shut)
    {
      var placed := Place(f);
      out := placed;
      if placed.Refused? {
        return Some(placed.err), out;
      }
      assert rx.dequeued[|old(rx.dequeued)|..] == FdsIn(placed);
      err := Perform(f, placed);
      if err.None? {
        dispatched := dispatched + [f];
      }
    }

    /** `fail`: a protocol violation or a lost connection closes the queued descriptors. */
    method Fail(err: Option<Error>)
      modifies rx`pendingFDs, rx`dequeued, `shut, `intact
      ensures intact == (old(intact) && !(err.Some? && Clears(err.value)))
      ensures !(err.Some? && Clears(err.value)) ==> rx.dequeued == old(rx.dequeued)
      ensures Dequeued(old(rx.dequeued), old(rx.pendingFDs), rx.dequeued, rx.pendingFDs)
      // a protocol error and a lost connection clear the queue, and nothing else does
      ensures rx.pendingFDs == if err.Some? && (err.value.Protocol? || err.value == UnexpectedEof) then []
                               else old(rx.pendingFDs)
      ensures shut == old(shut) + if err.Some? && Clears(err.value) then Receive.Owned(old(rx.pendingFDs)) else []
      ensures ClosedAll(old(rx.dequeued), old(shut), rx.dequeued, shut)
    {
      if err.Some? && (err.value.Protocol? || err.value == UnexpectedEof) {
        ghost var queue := rx.pendingFDs;
        var fds := rx.ClosePendingFDs();
        shut := shut + fds;
        intact := false;
        assert rx.dequeued[|old(rx.dequeued)|..] == queue;
      }
    }

    /** The next frame, its body copied out of the receive buffer it aliases. */
    method Take() returns (f: Frame, err: Option<Error>)
      requires Valid()
      modifies rx, rx.rbuf
      ensures Valid() && (rx.rbuf == old(rx.rbuf) || fresh(rx.rbuf))
      ensures rx.delivered == (if err.None? then old(rx.delivered) + [f] else old(rx.delivered))
      ensures rx.dequeued == old(rx.dequeued) && rx.closed == old(rx.closed)
      ensures Calls.Concluded(Receive.Chunks(rx.conn), Calls.Looker(rx.maxMsgLen), rx.closed, old(rx.Here()), rx.Here(),
                        if err.Some? then Calls.Failed(err.value) else Calls.Got(f))
    {
      var obj, opcode, body;
      obj, opcode, body, err := rx.NextFrame();
      f := Frame(obj, opcode, if err.None? then body.arr[body.lo..body.hi] else []);
    }

    /** The frame, if one came, is dispatched. */
    method Attempt(f: Frame, bad: Option<Error>, ghost before: seq<Frame>)
      returns (err: Option<Error>, ghost out: Prepared)
      requires Objects.Sound(world) && Kept(intact, jobs, given, before, rx.dequeued)
      requires rx.delivered == if bad.None? then before + [f] else before
      modifies rx`pendingFDs, rx`dequeued, `shut, `world, `ticks, `dispatched, `heard, `jobs, `given, `intact
      ensures Objects.Sound(world) && (bad.Some? ==> err == bad)
      ensures Dequeued(old(rx.dequeued), old(rx.pendingFDs), rx.dequeued, rx.pendingFDs)
      ensures dispatched == if err.None? then old(dispatched) + [f] else old(dispatched)
      ensures forall q | q in callbacks :: Moved(old(world), world, f, q, err)
      ensures (intact ==> old(intact)) && (err.None? ==> intact == old(intact))
      ensures Kept(intact, jobs, given, rx.delivered, rx.dequeued)
      ensures intact && bad.None? ==> jobs == old(jobs) + [Job(f, old(TargetOf(f)))]
      ensures ClosedAll(old(rx.dequeued), old(shut), rx.dequeued, shut)
      ensures bad.None? ==>
                old(PlacedRight(rx.closed, f, f.obj in world.objects, EventOf(f), IsZombie(f.obj), rx.pendingFDs,
                                rx.rpos < rx.rlen, out))
      ensures bad.None? ==>
                EndsRight(old(world), f, out, err) && Hears(old(world), old(ticks), f, out, old(heard), heard)
      ensures bad.Some? ==> heard == old(heard) && world == old(world)
    {
      err, out := bad, ForDisplay;
      if err.None? {
        err, out := DispatchFrame(f);
        if intact {
          ghost var job := Job(f, old(TargetOf(f)));
          AdvanceKeeps(old(jobs), old(given), before, old(rx.dequeued), jobs, given, rx.dequeued, job);
        }
      }
    }

    /** The end of `Dispatch`: the frame is dispatched, an error goes through `fail`. */
    method Conclude(f: Frame, bad: Option<Error>, ghost before: seq<Frame>)
      returns (err: Option<Error>, ghost out: Prepared)
      requires Objects.Sound(world) && Kept(intact, jobs, given, before, rx.dequeued)
      requires rx.delivered == if bad.None? then before + [f] else before
      modifies rx`pendingFDs, rx`dequeued, `shut, `world, `ticks, `dispatched, `heard, `jobs, `given, `intact
      ensures Objects.Sound(world) && (bad.Some? ==> err == bad)
      ensures Dequeued(old(rx.dequeued), old(rx.pendingFDs), rx.dequeued, rx.pendingFDs)
      ensures dispatched == if err.None? then old(dispatched) + [f] else old(dispatched)
      ensures forall q | q in callbacks :: Moved(old(world), world, f, q, err)
      ensures err.Some? && Clears(err.value) ==> rx.pendingFDs == []
      ensures (intact ==> old(intact)) && (err.None? ==> intact == old(intact))
      ensures Kept(intact, jobs, given, rx.delivered, rx.dequeued)
      ensures intact && bad.None? ==> jobs == old(jobs) + [Job(f, old(TargetOf(f)))]
      ensures ClosedAll(old(rx.dequeued), old(shut), rx.dequeued, shut)
      ensures bad.None? ==>
                old(PlacedRight(rx.closed, f, f.obj in world.objects, EventOf(f), IsZombie(f.obj), rx.pendingFDs,
                                rx.rpos < rx.rlen, out))
      ensures bad.None? ==>
                EndsRight(old(world), f, out, err) && Hears(old(world), old(ticks), f, out, old(heard), heard)
      ensures bad.Some? ==> heard == old(heard) && world == old(world)
    {
      err, out := Attempt(f, bad, before);
      ghost var gone, closed := rx.dequeued, shut;
      Fail(err);
      ClosedTwice(old(rx.dequeued), old(shut), gone, closed, rx.dequeued, shut);
    }

    /** The same, which leaves the receiver undisturbed. */
    method Settle(f: Frame, bad: Option<Error>, ghost before: seq<Frame>)
      returns (err: Option<Error>, ghost out: Prepared)
      requires Valid()
      requires Kept(intact, jobs, given, before, rx.dequeued)
      requires Receive.Owned(early) + shut == Receive.Owned(rx.dequeued)
      requires rx.delivered == if bad.None? then before + [f] else before
      modifies rx`pendingFDs, rx`dequeued, `shut, `world, `ticks, `dispatched, `heard, `jobs, `given, `intact
      ensures Valid() && (bad.Some? ==> err == bad)
      ensures dispatched == if err.None? then old(dispatched) + [f] else old(dispatched)
      ensures forall q | q in callbacks :: Moved(old(world), world, f, q, err)
      ensures (intact ==> old(intact)) && (err.None? ==> intact == old(intact))
      ensures InStep()
      ensures intact && bad.None? ==> jobs == old(jobs) + [Job(f, old(TargetOf(f)))]
      ensures bad.None? ==>
                old(PlacedRight(rx.closed, f, f.obj in world.objects, EventOf(f), IsZombie(f.obj), rx.pendingFDs,
                                rx.rpos < rx.rlen, out))
      ensures bad.None? ==>
                EndsRight(old(world), f, out, err) && Hears(old(world), old(ticks), f, out, old(heard), heard)
      ensures bad.Some? ==> heard == old(heard) && world == old(world)
    {
      err, out := Conclude(f, bad, before);
      StillValid(rx);
      ClosedSoFar(early, old(rx.dequeued), old(shut), rx.dequeued, shut);
    }

    /** What one frame does: what came off the stream or why nothing did is that of `nextFrame`, the queue holds what
    has arrived and not left, and the rest is decided by tables, grammar and queue. */
    twostate predicate Judged(t: Trace, err: Option<Error>)
      reads this, rx, rx.rbuf
      requires old(rx.BufferOk()) && rx.BufferOk()
    {
      && Calls.Concluded(Receive.Chunks(rx.conn), Calls.Looker(rx.maxMsgLen), false, old(rx.Here()), rx.Here(),
                   if t.bad.Some? then Calls.Failed(t.bad.value) else Calls.Got(t.f))
      && old(rx.dequeued) + t.queue == Receive.FdsUpTo(rx.conn, rx.readCount)
      && (t.bad.Some? ==> err == t.bad && heard == old(heard) && world == old(world))
      && (t.bad.None? ==> Decided(t, err))
    }

    twostate predicate Decided(t: Trace, err: Option<Error>)
      reads this, rx
    {
      && PlacedRight(false, t.f, t.f.obj in old(world).objects, old(EventOf(t.f)), old(IsZombie(t.f.obj)), t.queue,
                     rx.rpos < rx.rlen, t.out)
      && EndsRight(old(world), t.f, t.out, err)
      && Hears(old(world), old(ticks), t.f, t.out, old(heard), heard)
    }

    /** `Dispatch` past its first check. */
    method DispatchOpen() returns (err: Option<Error>, ghost t: Trace)
      requires Valid() && InStep() && !rx.closed
      modifies this, rx, rx.rbuf
      ensures Valid() && InStep() && (intact ==> old(intact)) && (err.None? ==> intact == old(intact))
      ensures intact && err.None? ==> jobs == old(jobs) + [Job(t.f, old(TargetOf(t.f)))]
      ensures callbacks == old(callbacks) && rx.closed == old(rx.closed) && rx.readCount >= old(rx.readCount)
      ensures rx.rbuf == old(rx.rbuf) || fresh(rx.rbuf)
      ensures err.None? ==> rx.delivered == old(rx.delivered) + [t.f] && dispatched == old(dispatched) + [t.f]
      ensures err.Some? ==> dispatched == old(dispatched)
      ensures forall q | q in callbacks :: Moved(old(world), world, t.f, q, err)
      ensures Judged(t, err)
    {
      var f, bad := Take();
      ghost var queue := rx.pendingFDs;
      ghost var out;
      err, out := Settle(f, bad, old(rx.delivered));
      t := Trace(f, bad, queue, out);
    }

    /** `Dispatch`: one frame off the stream, or an error. */
    method Dispatch() returns (err: Option<Error>, ghost t: Trace)
      requires Valid() && InStep()
      modifies this, rx, rx.rbuf
      ensures Valid() && InStep() && (intact ==> old(intact)) && (err.None? ==> intact == old(intact))
      ensures intact && err.None? ==> jobs == old(jobs) + [Job(t.f, old(TargetOf(t.f)))]
      ensures callbacks == old(callbacks) && rx.closed == old(rx.closed) && rx.readCount >= old(rx.readCount)
      ensures rx.rbuf == old(rx.rbuf) || fresh(rx.rbuf)
      ensures err.None? ==> rx.delivered == old(rx.delivered) + [t.f] && dispatched == old(dispatched) + [t.f]
      ensures err.Some? ==> dispatched == old(dispatched)
      ensures forall q | q in callbacks :: Moved(old(world), world, t.f, q, err)
      ensures old(rx.closed) ==> err == Some(Closed) && unchanged(rx, this)
      ensures !old(rx.closed) ==> Judged(t, err)
    {
      if rx.closed {
        return Some(Closed), Trace(Frame(0, 0, []), None, [], ForDisplay);
      }
      err, t := DispatchOpen();
    }

    /** `Sync`: a new callback, registered before the request that names it goes out. Whether that send succeeds is the
    connection's affair. */
    method Sync(cb: Pid, sent: bool) returns (id: u32)
      requires Valid() && cb !in world.idOf && cb !in callbacks
      modifies `world, `callbacks
      ensures Valid() && id == Ids.Allocate(old(world).alloc).id
      ensures cb in world.idOf && world.idOf[cb] == id
      ensures sent && id != 0 ==> world == Given(old(world), cb) && Objects.Waits(world, cb)
      ensures sent && id != 0 ==> (Objects.NoRival(world, cb) <==> Objects.Unclaimed(old(world), id, cb))
      ensures !sent && id != 0 ==> id !in world.objects
      ensures callbacks == old(callbacks) + {cb}
    {
      callbacks := callbacks + {cb};
      Objects.SoundStep(world, Objects.Assign(cb));
      world := Objects.Next(world, Objects.Assign(cb));
      id := world.idOf[cb];
      if id == 0 {
        return;
      }
      GivenIsSound(old(world), cb);
      Register(cb);
      assert world == Given(old(world), cb);
      assert Settled(world, callbacks);
      if !sent {
        ghost var before := world;
        Unregister(cb);
        forall q | q in callbacks ensures q in world.idOf && (world.idOf[q] != 0 ==> q in world.done) {
          assert q != cb ==> Same(before, world, q);
        }
      }
    }

    /** `Register` on a proxy that has just got its ID. */
    method Register(p: Pid)
      requires p in world.idOf && world.idOf[p] != 0
      modifies `world
      ensures world == Objects.Next(Objects.Next(old(world), Objects.StoreProxy(p)), Objects.StoreObject(p))
    {
      world := Objects.Next(world, Objects.StoreProxy(p));
      world := Objects.Next(world, Objects.StoreObject(p));
    }

    /** Why a turn fails: the display is closed, or no frame came off the stream, or the one that did was not
    accepted. */
    ghost predicate BrokenBy(a: Calls.Point, t: Trace, e: Error)
      reads rx, rx.rbuf
      requires rx.BufferOk()
    {
      if rx.closed then e == Closed
      else
        && Calls.Concluded(Receive.Chunks(rx.conn), Calls.Looker(rx.maxMsgLen), false, a, rx.Here(),
                           if t.bad.Some? then Calls.Failed(t.bad.value) else Calls.Got(t.f))
        && (t.bad.Some? ==> e == t.bad.value)
        && (t.bad.None? ==> !t.out.Assigned? && (t.out.Refused? ==> e == t.out.err))
    }

    /** `Dispatch`, as far as `Roundtrip` goes by it. */
    method DispatchOne() returns (err: Option<Error>, ghost t: Trace)
      requires Valid() && InStep()
      modifies this, rx, rx.rbuf
      ensures Valid() && InStep() && callbacks == old(callbacks) && (rx.rbuf == old(rx.rbuf) || fresh(rx.rbuf))
      ensures err.None? ==> rx.delivered == old(rx.delivered) + [t.f] && dispatched == old(dispatched) + [t.f]
      ensures err.Some? ==> dispatched == old(dispatched) && BrokenBy(old(rx.Here()), t, err.value)
      ensures forall q | q in callbacks :: Moved(old(world), world, t.f, q, err)
      ensures rx.readCount >= old(rx.readCount)
    {
      err, t := Dispatch();
    }

    /** Once around `Roundtrip`'s loop: while its callback can be waited for, it ends exactly when the done event has
    been dispatched. */
    method Turn(ghost cb: Pid, id: u32) returns (err: Option<Error>, answered: bool, ghost f: Frame, ghost t: Trace)
      requires Valid() && InStep() && cb in callbacks
      modifies this, rx, rx.rbuf
      ensures Valid() && InStep() && callbacks == old(callbacks) && (rx.rbuf == old(rx.rbuf) || fresh(rx.rbuf))
      ensures err.None? ==> rx.delivered == old(rx.delivered) + [f] && dispatched == old(dispatched) + [f]
      ensures err.Some? ==> dispatched == old(dispatched)
      ensures answered <==> id !in world.objects
      ensures rx.readCount >= old(rx.readCount)
      ensures err.Some? ==> BrokenBy(old(rx.Here()), t, err.value)
      ensures err.None? && Expected(old(world), cb, id) ==> (answered <==> id == 0 || IsDone(f, id))
      ensures err.None? && Expected(old(world), cb, id) && !answered ==> Expected(world, cb, id)
    {
      Interfere();
      ghost var before := world;
      SettledOn(old(world), world, callbacks);
      err, t := DispatchOne();
      f := t.f;
      answered := id !in world.objects;
      if err.None? && cb in before.idOf {
        StillThere(before, world, f, cb);
      }
    }

    /** The loop of `Roundtrip`, for at most `limit` frames. */
    method Await(ghost cb: Pid, id: u32, limit: nat)
      returns (result: Trip, ghost frames: seq<Frame>, ghost a: Calls.Point, ghost t: Trace)
      requires Valid() && InStep() && cb in callbacks
      modifies this, rx, rx.rbuf
      ensures Valid() && InStep() && result != Unsent
      ensures dispatched == old(dispatched) + frames
      ensures result == Answered || result == Waiting ==> rx.delivered == old(rx.delivered) + frames
      ensures result == Waiting ==> |frames| == limit
      ensures result.Broken? ==> BrokenBy(a, t, result.err) && a.made >= old(rx.readCount)
      ensures Expected(old(world), cb, id) ==> TripOk(result, frames, id)
    {
      frames, a, t := [], rx.Here(), Trace(Frame(0, 0, []), None, [], ForDisplay);
      ghost var expected := Expected(world, cb, id);
      for n := 0 to limit
        invariant Valid() && InStep() && callbacks == old(callbacks)
        invariant rx.rbuf == old(rx.rbuf) || fresh(rx.rbuf)
        invariant dispatched == old(dispatched) + frames && rx.delivered == old(rx.delivered) + frames
        invariant |frames| == n && rx.readCount >= old(rx.readCount)
        invariant expected ==> Expected(world, cb, id) && TripOk(Waiting, frames, id)
      {
        ghost var f;
        a := rx.Here();
        var err, answered;
        err, answered, f, t := Turn(cb, id);
        if err.Some? {
          return Broken(err.value), frames, a, t;
        }
        if expected {
          OneMore(frames, f, id);
        }
        frames := frames + [f];
        if answered {
          return Answered, frames, a, t;
        }
      }
      return Waiting, frames, a, t;
    }

    /** `Roundtrip`, for at most `limit` frames: `Waiting` says that it would go on. */
    method Roundtrip(cb: Pid, sent: bool, limit: nat)
      returns (result: Trip, id: u32, ghost frames: seq<Frame>, ghost a: Calls.Point, ghost t: Trace)
      requires Valid() && InStep() && cb !in world.idOf && cb !in callbacks
      modifies this, rx, rx.rbuf
      ensures Valid() && InStep() && id == Ids.Allocate(old(world).alloc).id
      // every frame up to the answer came off the stream and was dispatched, once and in order
      ensures dispatched == old(dispatched) + frames
      ensures result == Answered || result == Waiting ==> rx.delivered == old(rx.delivered) + frames
      // it stops short only unsent, broken by a failed call, or at the limit
      ensures (result == Unsent <==> !sent) && (result == Waiting ==> |frames| == limit)
      ensures result.Broken? ==> BrokenBy(a, t, result.err) && a.made >= old(rx.readCount)
      // if nobody is still to be registered under the ID it is given, the answer is the first done event of the
      // callback; with no ID left to give, the first frame of any kind passes for an answer
      ensures id == 0 || Objects.Unclaimed(old(world), id, cb) ==> TripOk(result, frames, id)
    {
      frames, a, t := [], rx.Here(), Trace(Frame(0, 0, []), None, [], ForDisplay);
      id := Sync(cb, sent);
      if !sent {
        return Unsent, id, frames, a, t;
      }
      result, frames, a, t := Await(cb, id, limit);
    }
  }
}

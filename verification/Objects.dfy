/** The two object tables and the ID allocator under concurrency (core.go `Register`, `Unregister`, `claimDestroy`,
`Abandon`; client.go `allocateID`, delete_id; objects.go).

Every action below is one atomic step: one table operation under that table's lock, or one critical section of the ID
lock. `Register`, `Unregister` and `claimDestroy` are two steps each, so that any other step may come between. */
module Objects {
  import opened Bytes
  import Ids

  // ----------------------------------------------------------------- tables

  predicate Holds<V(==)>(m: map<u32, V>, id: u32, v: V) {
    id in m && m[id] == v
  }

  /** `CompareAndDelete`. */
  function Deleted<V(==)>(m: map<u32, V>, id: u32, old_: V): map<u32, V> {
    if Holds(m, id, old_) then m - {id} else m
  }

  /** `CompareAndSwap`. */
  function Swapped<V(==)>(m: map<u32, V>, id: u32, old_: V, new_: V): map<u32, V> {
    if Holds(m, id, old_) then m[id := new_] else m
  }

  // --------------------------------------------------------------- the state

  /** A proxy object, by identity. */
  type Pid = nat

  /** What the `objects` table holds: the display and the registry, a live proxy, or the zombie of a destroyed one. */
  datatype Entry = Core | Live(p: Pid) | Zombie(p: Pid)

  datatype State = State(
    alloc: Ids.Allocator,
    proxies: map<u32, Pid>,
    objects: map<u32, Entry>,
    idOf: map<Pid, u32>,      // the ID each proxy was given
    owner: map<u32, Pid>,     // the proxy an outstanding ID was last given to
    started: set<Pid>,        // Register has stored the proxy in `proxies`
    done: set<Pid>,           // and in `objects`
    gone: set<Pid>,           // Unregister or a claim has taken it out of `proxies`
    claimed: set<Pid>,        // a claim has
    buried: set<Pid>          // and it is no longer live in `objects`
  )

  /** `newDisplay`: the display at 1, the registry at the first allocated ID. */
  const Init := State(Ids.Allocate(Ids.Fresh).alloc, map[], map[1 := Core, 2 := Core], map[], map[], {}, {}, {}, {}, {})

  datatype Action =
    | Assign(p: Pid)          // SetID(AllocateID()) on a proxy that has no ID
    | AllocateOnly            // AllocateID without a proxy
    | StoreProxy(p: Pid)      // Register: proxies.Store
    | StoreObject(p: Pid)     // Register: objects.Store
    | DropProxy(p: Pid)       // Unregister: proxies.CompareAndDelete
    | DropObject(p: Pid)      // Unregister: objects.CompareAndDelete
    | ClaimProxy(p: Pid)      // claimDestroy: proxies.CompareAndDelete succeeded
    | Entomb(p: Pid)          // claimDestroy: objects.CompareAndSwap
    | DeleteId(id: u32)       // wl_display.delete_id

  /** What the code can be asked to do at all: a proxy that is used has been given an ID. A claim step stands for a
  `CompareAndDelete` that succeeded. */
  predicate Possible(s: State, a: Action) {
    match a
    case Assign(p) => true
    case AllocateOnly => true
    case DeleteId(id) => true
    case ClaimProxy(p) => p in s.idOf && Holds(s.proxies, s.idOf[p], p)
    case _ => a.p in s.idOf && s.idOf[a.p] != 0
  }

  /** Clients give a proxy one ID, register it once and use it only after `Register` has returned. The last half of
  `Unregister` and of a claim comes after the first. */
  predicate Disciplined(s: State, a: Action) {
    match a
    case Assign(p) => p !in s.idOf
    case AllocateOnly => true
    case StoreProxy(p) => p !in s.started
    case StoreObject(p) => p in s.started && p !in s.done
    case DropProxy(p) => p in s.done
    case DropObject(p) => p in s.gone
    case ClaimProxy(p) => p in s.done
    case Entomb(p) => p in s.claimed
    case DeleteId(_) => true
  }

  /** What a client and an arbitrary compositor can do. */
  predicate Allowed(s: State, a: Action) {
    Possible(s, a) && Disciplined(s, a)
  }

  /** A delete_id comes on time if the proxy the ID was given to, if any, is registered in full. */
  predicate OnTime(s: State, a: Action) {
    a.DeleteId? && a.id in s.owner ==> s.owner[a.id] in s.done
  }

  predicate Enabled(s: State, a: Action) {
    Allowed(s, a) && OnTime(s, a)
  }

  /** Whether delete_id finds an object that is not a zombie. */
  predicate LiveAt(s: State, id: u32) {
    id in s.objects && !s.objects[id].Zombie?
  }

  /** The first half of delete_id: a zombie is removed whether or not the ID is then accepted. */
  function Unzombied(objects: map<u32, Entry>, id: u32): map<u32, Entry> {
    if id in objects && objects[id].Zombie? then objects - {id} else objects
  }

  function Next(s: State, a: Action): State
    requires Possible(s, a)
  {
    match a
    case Assign(p) =>
      var r := Ids.Allocate(s.alloc);
      s.(alloc := r.alloc, idOf := s.idOf[p := r.id], owner := if r.id == 0 then s.owner else s.owner[r.id := p])
    case AllocateOnly => s.(alloc := Ids.Allocate(s.alloc).alloc)
    case StoreProxy(p) => s.(proxies := s.proxies[s.idOf[p] := p], started := s.started + {p})
    case StoreObject(p) => s.(objects := s.objects[s.idOf[p] := Live(p)], done := s.done + {p})
    case DropProxy(p) => s.(proxies := Deleted(s.proxies, s.idOf[p], p), gone := s.gone + {p})
    case DropObject(p) => s.(objects := Deleted(s.objects, s.idOf[p], Live(p)), buried := s.buried + {p})
    case ClaimProxy(p) =>
      s.(proxies := Deleted(s.proxies, s.idOf[p], p), gone := s.gone + {p}, claimed := s.claimed + {p})
    case Entomb(p) => s.(objects := Swapped(s.objects, s.idOf[p], Live(p), Zombie(p)), buried := s.buried + {p})
    case DeleteId(id) =>
      var objects' := Unzombied(s.objects, id);
      if Ids.Retirable(s.alloc, id, LiveAt(s, id)) then
        s.(objects := objects', alloc := Ids.Retire(s.alloc, id), owner := s.owner - {id})
      else s.(objects := objects')
  }

  // --------------------------------------------------------------- invariant

  predicate Owns(s: State, id: u32, p: Pid) {
    id in s.owner && s.owner[id] == p
  }

  /** Allocator: an owned ID is outstanding and is the one its owner was given. */
  predicate OwnersOk(s: State) {
    && Ids.Ok(s.alloc) && 2 < s.alloc.next && 2 !in s.alloc.retired
    && (forall id | id in s.owner ::
          2 < id && Ids.Outstanding(s.alloc, id) && s.owner[id] in s.idOf && s.idOf[s.owner[id]] == id)
    && (forall p | p in s.idOf && p !in s.done && s.idOf[p] != 0 :: Owns(s, s.idOf[p], p))
  }

  predicate SetsOk(s: State) {
    && s.done <= s.started && s.gone <= s.done && s.claimed <= s.gone && s.buried <= s.gone
    && (forall p | p in s.started :: p in s.idOf && s.idOf[p] != 0)
  }

  /** `proxies` holds exactly the proxies that were registered and not taken out, each under its own, owned ID. */
  predicate ProxiesOk(s: State) {
    && (forall id | id in s.proxies ::
          Owns(s, id, s.proxies[id]) && s.proxies[id] in s.started && s.proxies[id] !in s.gone)
    && (forall p | p in s.started && p !in s.gone && p in s.idOf :: Holds(s.proxies, s.idOf[p], p))
  }

  /** `objects` holds the core objects, exactly the live proxies, and zombies of claimed ones. */
  predicate ObjectsOk(s: State) {
    && Holds(s.objects, 1, Core) && Holds(s.objects, 2, Core)
    && (forall id | id in s.objects && id > 2 :: EntryOk(s, id, s.objects[id]))
    && (forall id | id in s.objects :: 1 <= id)
    && (forall p | p in s.done && p !in s.buried && p in s.idOf :: Holds(s.objects, s.idOf[p], Live(p)))
  }

  predicate EntryOk(s: State, id: u32, e: Entry) {
    match e
    case Core => false
    case Live(p) => Owns(s, id, p) && p in s.done && p !in s.buried
    case Zombie(p) => Owns(s, id, p) && p in s.claimed && p in s.buried
  }

  predicate Inv(s: State) {
    OwnersOk(s) && SetsOk(s) && ProxiesOk(s) && ObjectsOk(s)
  }

  lemma InitInv()
    ensures Inv(Init)
  {
  }

  /** The ID handed out belonged to nobody. */
  lemma AssignOwners(s: State, p: Pid)
    requires Inv(s) && Enabled(s, Assign(p))
    ensures OwnersOk(Next(s, Assign(p)))
    ensures forall id, q | Owns(s, id, q) :: Owns(Next(s, Assign(p)), id, q)
  {
    Ids.AllocateOk(s.alloc);
    var id := Ids.Allocate(s.alloc).id;
    assert id != 0 ==> id !in s.owner;
  }

  lemma AssignKeeps(s: State, p: Pid)
    requires Inv(s) && Enabled(s, Assign(p))
    ensures Inv(Next(s, Assign(p)))
  {
    AssignOwners(s, p);
  }

  lemma AllocateOnlyKeeps(s: State)
    requires Inv(s)
    ensures Inv(Next(s, AllocateOnly))
  {
    Ids.AllocateOk(s.alloc);
  }

  lemma StoreProxyKeeps(s: State, p: Pid)
    requires Inv(s) && Enabled(s, StoreProxy(p))
    ensures Inv(Next(s, StoreProxy(p)))
  {
  }

  lemma StoreObjectKeeps(s: State, p: Pid)
    requires Inv(s) && Enabled(s, StoreObject(p))
    ensures Inv(Next(s, StoreObject(p)))
  {
  }

  lemma DropProxyKeeps(s: State, p: Pid)
    requires Inv(s) && Enabled(s, DropProxy(p))
    ensures Inv(Next(s, DropProxy(p)))
  {
  }

  lemma DropObjectKeeps(s: State, p: Pid)
    requires Inv(s) && Enabled(s, DropObject(p))
    ensures Inv(Next(s, DropObject(p)))
  {
  }

  lemma ClaimProxyKeeps(s: State, p: Pid)
    requires Inv(s) && Enabled(s, ClaimProxy(p))
    ensures Inv(Next(s, ClaimProxy(p)))
  {
  }

  lemma EntombKeeps(s: State, p: Pid)
    requires Inv(s) && Enabled(s, Entomb(p))
    ensures Inv(Next(s, Entomb(p)))
  {
  }

  lemma DeleteIdKeeps(s: State, id: u32)
    requires Inv(s) && Enabled(s, DeleteId(id))
    ensures Inv(Next(s, DeleteId(id)))
  {
    if Ids.Retirable(s.alloc, id, LiveAt(s, id)) {
      Ids.RetireOk(s.alloc, id, LiveAt(s, id));
    }
  }

  lemma StepKeeps(s: State, a: Action)
    requires Inv(s) && Enabled(s, a)
    ensures Inv(Next(s, a))
  {
    match a
    case Assign(p) => AssignKeeps(s, p);
    case AllocateOnly => AllocateOnlyKeeps(s);
    case StoreProxy(p) => StoreProxyKeeps(s, p);
    case StoreObject(p) => StoreObjectKeeps(s, p);
    case DropProxy(p) => DropProxyKeeps(s, p);
    case DropObject(p) => DropObjectKeeps(s, p);
    case ClaimProxy(p) => ClaimProxyKeeps(s, p);
    case Entomb(p) => EntombKeeps(s, p);
    case DeleteId(id) => DeleteIdKeeps(s, id);
  }

  // -------------------------------------------------------------------- runs

  /** A run of clients and an arbitrary compositor. */
  predicate Legal(s: State, steps: seq<Action>)
    decreases |steps|
  {
    steps == [] || (Allowed(s, steps[0]) && Legal(Next(s, steps[0]), steps[1..]))
  }

  /** One in which every delete_id comes on time. */
  predicate Timely(s: State, steps: seq<Action>)
    requires Legal(s, steps)
    decreases |steps|
  {
    steps == [] || (OnTime(s, steps[0]) && Timely(Next(s, steps[0]), steps[1..]))
  }

  function Run(s: State, steps: seq<Action>): State
    requires Legal(s, steps)
    decreases |steps|
  {
    if steps == [] then s else Run(Next(s, steps[0]), steps[1..])
  }

  /** The lifecycle invariant over every interleaving in which delete_id comes on time. */
  lemma {:induction false} LifecycleInvariant(s: State, steps: seq<Action>)
    requires Inv(s) && Legal(s, steps) && Timely(s, steps)
    ensures Inv(Run(s, steps))
    decreases |steps|
  {
    if steps != [] {
      StepKeeps(s, steps[0]);
      LifecycleInvariant(Next(s, steps[0]), steps[1..]);
    }
  }

  /** `allocateID` never returns an ID that a live object or a zombie still holds, in either table. */
  lemma AllocateNeverTaken(steps: seq<Action>)
    requires Legal(Init, steps) && Timely(Init, steps)
    ensures var s := Run(Init, steps);
            var id := Ids.Allocate(s.alloc).id;
            id != 0 ==> id !in s.objects && id !in s.proxies
  {
    LifecycleInvariant(Init, steps);
    Ids.AllocateOk(Run(Init, steps).alloc);
  }

  /** The retired IDs are free in both tables. */
  predicate FreeDisjoint(s: State) {
    forall id | id in s.alloc.retired :: id !in s.objects && id !in s.proxies
  }

  lemma RetiredAreFree(steps: seq<Action>)
    requires Legal(Init, steps) && Timely(Init, steps)
    ensures FreeDisjoint(Run(Init, steps))
  {
    LifecycleInvariant(Init, steps);
  }

  /** While no registration, removal or claim of `p` is half done, both tables hold it or neither does. */
  lemma TablesAgree(steps: seq<Action>, id: u32, p: Pid)
    requires Legal(Init, steps) && Timely(Init, steps)
    requires var s := Run(Init, steps);
             (p in s.started ==> p in s.done) && (p in s.gone ==> p in s.buried)
    ensures Holds(Run(Init, steps).proxies, id, p) <==> Holds(Run(Init, steps).objects, id, Live(p))
  {
    LifecycleInvariant(Init, steps);
    var s := Run(Init, steps);
    assert id in s.objects && id > 2 ==> EntryOk(s, id, s.objects[id]);
  }

  // ----------------------------------------------------------- stale proxies

  /** A proxy whose ID has been retired, whether or not somebody else has it now. */
  predicate Stale(s: State, p: Pid) {
    p in s.done && p in s.idOf && !Owns(s, s.idOf[p], p)
  }

  /** The steps a client can take through proxy `p`. */
  predicate Through(a: Action, p: Pid) {
    a in {DropProxy(p), DropObject(p), ClaimProxy(p), Entomb(p), StoreProxy(p), StoreObject(p)}
  }

  /** No step through a stale proxy changes either table or the allocator; in particular not the new holder's entries.
  */
  lemma StaleStepIsInert(s: State, a: Action, p: Pid)
    requires Inv(s) && Stale(s, p) && Enabled(s, a) && Through(a, p)
    ensures Next(s, a).proxies == s.proxies && Next(s, a).objects == s.objects && Next(s, a).alloc == s.alloc
  {
  }

  lemma StaleStepStays(s: State, a: Action, p: Pid)
    requires Inv(s) && Stale(s, p) && Enabled(s, a)
    ensures Stale(Next(s, a), p)
  {
  }

  /** Once stale, a proxy is inert for the rest of every run. */
  lemma {:induction false} StaleForEver(s: State, steps: seq<Action>, p: Pid)
    requires Inv(s) && Stale(s, p) && Legal(s, steps) && Timely(s, steps)
    ensures Stale(Run(s, steps), p)
    ensures forall id :: !Holds(Run(s, steps).proxies, id, p) && !Holds(Run(s, steps).objects, id, Live(p))
    decreases |steps|
  {
    if steps == [] {
      forall id ensures !Holds(s.proxies, id, p) && !Holds(s.objects, id, Live(p)) {
        assert id in s.proxies ==> Owns(s, id, s.proxies[id]);
        assert id in s.objects && id > 2 ==> EntryOk(s, id, s.objects[id]);
      }
    } else {
      StaleStepStays(s, steps[0], p);
      StepKeeps(s, steps[0]);
      StaleForEver(Next(s, steps[0]), steps[1..], p);
    }
  }

  lemma ZombieStep(s: State, a: Action, id: u32, p: Pid)
    requires Inv(s) && Enabled(s, a) && Holds(s.objects, id, Zombie(p)) && a != DeleteId(id)
    ensures Holds(Next(s, a).objects, id, Zombie(p))
  {
  }

  /** A zombie survives every step, `Unregister` through its own proxy included, until delete_id names it. */
  lemma {:induction false} ZombieUntilDeleteId(s: State, steps: seq<Action>, id: u32, p: Pid)
    requires Inv(s) && Legal(s, steps) && Timely(s, steps) && Holds(s.objects, id, Zombie(p))
    requires DeleteId(id) !in steps
    ensures Holds(Run(s, steps).objects, id, Zombie(p))
    decreases |steps|
  {
    if steps != [] {
      ZombieStep(s, steps[0], id, p);
      StepKeeps(s, steps[0]);
      ZombieUntilDeleteId(Next(s, steps[0]), steps[1..], id, p);
    }
  }

  // ------------------------------------------------ arbitrary compositors

  /** What no delete_id, early or not, can break: how far each proxy has come, and that a table entry of a proxy is
  under the proxy's own ID, not before it was stored and not after it was taken out. */
  predicate Shape(s: State) {
    && SetsOk(s)
    && (forall id | id in s.proxies :: ProxyEntryOk(s, id, s.proxies[id]))
    && (forall id | id in s.objects && s.objects[id].Live? :: LiveEntryOk(s, id, s.objects[id].p))
  }

  predicate ProxyEntryOk(s: State, id: u32, p: Pid) {
    p in s.started && p !in s.gone && p in s.idOf && s.idOf[p] == id
  }

  predicate LiveEntryOk(s: State, id: u32, p: Pid) {
    p in s.done && p !in s.buried && p in s.idOf && s.idOf[p] == id
  }

  lemma ShapeStep(s: State, a: Action)
    requires Shape(s) && Allowed(s, a)
    ensures Shape(Next(s, a))
  {
  }

  lemma {:induction false} ShapeAlways(s: State, steps: seq<Action>)
    requires Shape(s) && Legal(s, steps)
    ensures Shape(Run(s, steps))
    decreases |steps|
  {
    if steps != [] {
      ShapeStep(s, steps[0]);
      ShapeAlways(Next(s, steps[0]), steps[1..]);
    }
  }

  /** Once a claim or an `Unregister` of `p` has completed, no later look at the object table finds `p` live, whatever
  the compositor deletes: an event whose re-check comes after it is not delivered. */
  lemma {:induction false} BuriedGetsNoEvents(s: State, steps: seq<Action>, p: Pid, id: u32)
    requires Shape(s) && Legal(s, steps) && p in s.buried
    ensures !Holds(Run(s, steps).objects, id, Live(p))
    decreases |steps|
  {
    if steps != [] {
      ShapeStep(s, steps[0]);
      BuriedGetsNoEvents(Next(s, steps[0]), steps[1..], p, id);
    }
  }

  /** A step through a proxy that was destroyed or unregistered changes nothing at all, whoever has its ID now and
  whatever the compositor has deleted. */
  lemma BuriedStepIsInert(s: State, a: Action, p: Pid)
    requires Shape(s) && p in s.buried && Allowed(s, a) && Through(a, p)
    ensures Next(s, a) == s
  {
    assert s.gone + {p} == s.gone && s.buried + {p} == s.buried;
  }

  /** The steps of a run that are not through `p`. */
  function Without(steps: seq<Action>, p: Pid): seq<Action> {
    if steps == [] then [] else (if Through(steps[0], p) then [] else [steps[0]]) + Without(steps[1..], p)
  }

  /** Over whole runs, against every compositor: what is done through a buried proxy makes no difference. Leaving it out
  gives a run again, with the same end; and the proxy is never found in either table. */
  lemma {:induction false} BuriedIsInert(s: State, steps: seq<Action>, p: Pid)
    requires Shape(s) && p in s.buried && Legal(s, steps)
    ensures Legal(s, Without(steps, p)) && Run(s, steps) == Run(s, Without(steps, p))
    ensures p in Run(s, steps).buried
    ensures forall id :: !Holds(Run(s, steps).proxies, id, p) && !Holds(Run(s, steps).objects, id, Live(p))
    decreases |steps|
  {
    if steps != [] {
      var a, rest := steps[0], Without(steps[1..], p);
      ShapeStep(s, a);
      BuriedIsInert(Next(s, a), steps[1..], p);
      if Through(a, p) {
        BuriedStepIsInert(s, a, p);
        assert [] + rest == rest;
      } else {
        assert ([a] + rest)[1..] == rest;
      }
    }
  }

  // -------------------------------------------------- the discipline matters

  /** Which single steps keep retired IDs out of the tables, exactly: neither half of `Register` looks whether the ID is
  still outstanding, and delete_id looks at one table only. */
  predicate KeepsFree(s: State, a: Action)
    requires Possible(s, a)
  {
    match a
    case StoreProxy(p) => s.idOf[p] !in s.alloc.retired
    case StoreObject(p) => s.idOf[p] !in s.alloc.retired
    case DeleteId(id) => Ids.Retirable(s.alloc, id, LiveAt(s, id)) ==> id !in s.proxies
    case _ => true
  }

  lemma FreeDisjointStep(s: State, a: Action)
    requires FreeDisjoint(s) && Possible(s, a)
    ensures FreeDisjoint(Next(s, a)) <==> KeepsFree(s, a)
  {
    var s' := Next(s, a);
    match a
    case StoreProxy(p) => assert s.idOf[p] in s'.proxies;
    case StoreObject(p) => assert s.idOf[p] in s'.objects;
    case DeleteId(id) => assert id !in Unzombied(s.objects, id) || LiveAt(s, id);
    case _ =>
  }

  /** An ID given to a proxy that is not registered in full yet is in nobody's hands as far as delete_id can see. */
  lemma EarlyIsAccepted(s: State, id: u32)
    requires Inv(s) && !OnTime(s, DeleteId(id))
    ensures Ids.Retirable(s.alloc, id, LiveAt(s, id)) && id in Next(s, DeleteId(id)).alloc.retired
    ensures s.owner[id] in s.idOf && s.idOf[s.owner[id]] == id && id != 0
  {
    assert id in s.objects && id > 2 ==> EntryOk(s, id, s.objects[id]);
  }

  /** What remains of the registration that an early delete_id overtook. */
  function Rest(s: State, p: Pid): seq<Action> {
    if p in s.started then [StoreObject(p)] else [StoreProxy(p), StoreObject(p)]
  }

  /** After an early delete_id the client need only finish registering: the ID of a live object is then free. */
  lemma EarlyBreaks(s: State, id: u32)
    requires Inv(s) && !OnTime(s, DeleteId(id))
    ensures var s' := Next(s, DeleteId(id));
            var rest := Rest(s, s.owner[id]);
            && Legal(s', rest) && Timely(s', rest)
            && Holds(Run(s', rest).objects, id, Live(s.owner[id])) && !FreeDisjoint(Run(s', rest))
  {
    EarlyIsAccepted(s, id);
    var p := s.owner[id];
    var s' := Next(s, DeleteId(id));
    if p in s.started {
      Single(s', StoreObject(p));
    } else {
      var s'' := Next(s', StoreProxy(p));
      Single(s'', StoreObject(p));
      assert [StoreProxy(p), StoreObject(p)][1..] == [StoreObject(p)];
    }
  }

  lemma Single(s: State, a: Action)
    requires Allowed(s, a) && !a.DeleteId?
    ensures Legal(s, [a]) && Timely(s, [a]) && Run(s, [a]) == Next(s, a)
  {
    assert [a][1..] == [];
    assert Run(Next(s, a), []) == Next(s, a);
  }

  /** Free IDs stay out of the tables for the rest of the run, as long as later deletions are on time. */
  ghost predicate SafeFrom(s: State) {
    forall steps | Legal(s, steps) && Timely(s, steps) :: FreeDisjoint(Run(s, steps))
  }

  /** The exact condition, for one delete_id and all that can follow it: it is harmless if and only if it is on time. */
  lemma DeleteIdHarmlessExactlyOnTime(s: State, id: u32)
    requires Inv(s)
    ensures Inv(Next(s, DeleteId(id))) <==> OnTime(s, DeleteId(id))
    ensures SafeFrom(Next(s, DeleteId(id))) <==> OnTime(s, DeleteId(id))
  {
    var s' := Next(s, DeleteId(id));
    if OnTime(s, DeleteId(id)) {
      DeleteIdKeeps(s, id);
    } else {
      EarlyBreaks(s, id);
    }
    if Inv(s') {
      InvIsSafe(s');
    }
  }

  lemma InvIsSafe(s: State)
    requires Inv(s)
    ensures SafeFrom(s)
  {
    forall steps | Legal(s, steps) && Timely(s, steps) ensures FreeDisjoint(Run(s, steps)) {
      LifecycleInvariant(s, steps);
    }
  }

  /** The lifecycle invariant in every state of a run. */
  predicate Throughout(s: State, steps: seq<Action>)
    requires Legal(s, steps)
    decreases |steps|
  {
    Inv(s) && (steps == [] || Throughout(Next(s, steps[0]), steps[1..]))
  }

  /** Over whole runs: it holds throughout if and only if every delete_id comes on time. */
  lemma {:induction false} InvariantExactlyWhenTimely(s: State, steps: seq<Action>)
    requires Inv(s) && Legal(s, steps)
    ensures Throughout(s, steps) <==> Timely(s, steps)
    decreases |steps|
  {
    if steps != [] {
      var a := steps[0];
      if a.DeleteId? {
        DeleteIdHarmlessExactlyOnTime(s, a.id);
      } else {
        StepKeeps(s, a);
      }
      if Inv(Next(s, a)) {
        InvariantExactlyWhenTimely(Next(s, a), steps[1..]);
      }
    }
  }

  /** delete_id accepts an ID that was allocated but is not registered yet, and one whose registration is half done; in
  both cases the allocator then hands out the ID of a live object. */
  lemma DeleteBeforeRegister()
    ensures var s0 := Next(Init, Assign(0));
            var before := Next(Next(Next(s0, DeleteId(3)), StoreProxy(0)), StoreObject(0));
            var inside := Next(Next(Next(s0, StoreProxy(0)), DeleteId(3)), StoreObject(0));
            && s0.idOf[0] == 3
            && Holds(before.objects, 3, Live(0)) && Ids.Allocate(before.alloc).id == 3
            && Holds(inside.objects, 3, Live(0)) && Ids.Allocate(inside.alloc).id == 3
  {
    assert Ids.Allocate(Init.alloc).id == 3;
  }

  // ------------------------------------------------------ waiting for an event

  /** What holds of every state, whatever the compositor deletes. */
  predicate Sound(s: State) {
    Ids.Ok(s.alloc) && Shape(s) && 0 !in s.objects
  }

  lemma SoundStep(s: State, a: Action)
    requires Sound(s) && Allowed(s, a)
    ensures Sound(Next(s, a))
  {
    ShapeStep(s, a);
    match a
    case Assign(_) => Ids.AllocateOk(s.alloc);
    case AllocateOnly => Ids.AllocateOk(s.alloc);
    case DeleteId(id) =>
      if Ids.Retirable(s.alloc, id, LiveAt(s, id)) {
        Ids.RetireOk(s.alloc, id, LiveAt(s, id));
      }
    case _ =>
  }

  lemma {:induction false} SoundAlways(s: State, steps: seq<Action>)
    requires Sound(s) && Legal(s, steps)
    ensures Sound(Run(s, steps))
    decreases |steps|
  {
    if steps != [] {
      SoundStep(s, steps[0]);
      SoundAlways(Next(s, steps[0]), steps[1..]);
    }
  }

  /** The invariant of timely runs is stronger. */
  lemma InvIsSound(s: State)
    requires Inv(s)
    ensures Sound(s)
  {
    forall id | id in s.objects && s.objects[id].Live? ensures LiveEntryOk(s, id, s.objects[id].p) {
      assert id > 2 && EntryOk(s, id, s.objects[id]);
    }
  }

  /** `p` is found under its ID, which is outstanding. */
  predicate Waits(s: State, p: Pid) {
    p in s.idOf && Ids.Outstanding(s.alloc, s.idOf[p]) && Holds(s.objects, s.idOf[p], Live(p))
  }

  /** Nobody else is still to be registered under the ID of `p`. */
  predicate NoRival(s: State, p: Pid)
    requires p in s.idOf
  {
    Unclaimed(s, s.idOf[p], p)
  }

  /** Nobody but `p` is still to be registered under `id`. */
  predicate Unclaimed(s: State, id: u32, p: Pid) {
    forall q | q in s.idOf && q != p && s.idOf[q] == id :: q in s.done
  }

  /** Whatever clients do through other proxies and whatever the compositor deletes, `p` goes on waiting. */
  lemma WaitsStep(s: State, a: Action, p: Pid)
    requires Sound(s) && Waits(s, p) && NoRival(s, p) && Allowed(s, a) && !Through(a, p)
    ensures Waits(Next(s, a), p) && NoRival(Next(s, a), p) && Next(s, a).idOf[p] == s.idOf[p]
  {
    if a.Assign? || a.AllocateOnly? {
      Ids.AllocateOk(s.alloc);
    }
  }

  predicate Untouched(steps: seq<Action>, p: Pid) {
    forall i | 0 <= i < |steps| :: !Through(steps[i], p)
  }

  lemma {:induction false} WaitsOn(s: State, steps: seq<Action>, p: Pid)
    requires Sound(s) && Waits(s, p) && NoRival(s, p) && Legal(s, steps) && Untouched(steps, p)
    ensures Holds(Run(s, steps).objects, s.idOf[p], Live(p))
    decreases |steps|
  {
    if steps != [] {
      WaitsStep(s, steps[0], p);
      SoundStep(s, steps[0]);
      WaitsOn(Next(s, steps[0]), steps[1..], p);
    }
  }

  /** The rest of its registration, then `Unregister`. */
  function PassThrough(s: State, q: Pid): seq<Action> {
    Rest(s, q) + [DropProxy(q), DropObject(q)]
  }

  /** Whoever passes through under the ID of another takes the other's entry along. */
  lemma RivalTakesItAlong(s: State, q: Pid)
    requires SetsOk(s) && q in s.idOf && s.idOf[q] != 0 && q !in s.done
    ensures Legal(s, PassThrough(s, q)) && s.idOf[q] !in Run(s, PassThrough(s, q)).objects
  {
    var s0 := if q in s.started then s else Next(s, StoreProxy(q));
    var s1 := Next(s0, StoreObject(q));
    var s2 := Next(s1, DropProxy(q));
    Single(s2, DropObject(q));
    var steps := [DropObject(q)];
    steps := Then(s1, DropProxy(q), steps);
    steps := Then(s0, StoreObject(q), steps);
    if q !in s.started {
      steps := Then(s, StoreProxy(q), steps);
    }
    assert steps == PassThrough(s, q);
  }

  lemma Then(s: State, a: Action, rest: seq<Action>) returns (steps: seq<Action>)
    requires Allowed(s, a) && Legal(Next(s, a), rest)
    ensures steps == [a] + rest && Legal(s, steps) && Run(s, steps) == Run(Next(s, a), rest)
  {
    steps := [a] + rest;
    assert steps[1..] == rest;
  }

  /** Every continuation not through `p` finds it under its ID. */
  ghost predicate AlwaysFound(s: State, p: Pid)
    requires p in s.idOf
  {
    forall steps | Legal(s, steps) && Untouched(steps, p) :: Holds(Run(s, steps).objects, s.idOf[p], Live(p))
  }

  /** Every continuation not through `p` finds something under its ID. */
  ghost predicate NeverEmpty(s: State, p: Pid)
    requires p in s.idOf
  {
    forall steps | Legal(s, steps) && Untouched(steps, p) :: s.idOf[p] in Run(s, steps).objects
  }

  /** The exact condition under which an object can be waited for, against every compositor and all other code: it stays
  in the table, and its ID stays taken, if and only if nobody else is still to be registered under that ID. */
  lemma FoundExactlyWithoutRival(s: State, p: Pid)
    requires Sound(s) && Waits(s, p)
    ensures AlwaysFound(s, p) <==> NoRival(s, p)
    ensures NeverEmpty(s, p) <==> NoRival(s, p)
  {
    if NoRival(s, p) {
      forall steps | Legal(s, steps) && Untouched(steps, p) ensures Holds(Run(s, steps).objects, s.idOf[p], Live(p)) {
        WaitsOn(s, steps, p);
      }
    } else {
      var q :| q in s.idOf && q != p && s.idOf[q] == s.idOf[p] && q !in s.done;
      RivalTakesItAlong(s, q);
      assert Untouched(PassThrough(s, q), p);
    }
  }

  // --------------------------------------------------------------- late events

  /** The second half of a claim puts a zombie in the place of the live object, and touches nothing else. */
  lemma EntombLeavesZombie(s: State, p: Pid)
    requires Possible(s, Entomb(p)) && Holds(s.objects, s.idOf[p], Live(p))
    ensures Next(s, Entomb(p)).objects == s.objects[s.idOf[p] := Zombie(p)]
    ensures Next(s, Entomb(p)).proxies == s.proxies && Next(s, Entomb(p)).alloc == s.alloc
  {
  }

  /** From the end of a claim that no `Unregister` got ahead of until delete_id names its ID, the zombie is there. */
  lemma ClaimedIsZombie(s: State, steps: seq<Action>, p: Pid)
    requires Inv(s) && Enabled(s, Entomb(p)) && p !in s.buried
    requires Legal(Next(s, Entomb(p)), steps) && Timely(Next(s, Entomb(p)), steps) && DeleteId(s.idOf[p]) !in steps
    ensures Holds(Run(Next(s, Entomb(p)), steps).objects, s.idOf[p], Zombie(p))
  {
    EntombLeavesZombie(s, p);
    EntombKeeps(s, p);
    ZombieUntilDeleteId(Next(s, Entomb(p)), steps, s.idOf[p], p);
  }

  lemma ZombieStays(s: State, a: Action, id: u32, p: Pid)
    requires Sound(s) && Holds(s.objects, id, Zombie(p)) && Ids.Outstanding(s.alloc, id) && p in s.done
    requires Unclaimed(s, id, p) && Allowed(s, a) && a != DeleteId(id)
    ensures var s' := Next(s, a);
            Holds(s'.objects, id, Zombie(p)) && Ids.Outstanding(s'.alloc, id) && p in s'.done && Unclaimed(s', id, p)
  {
    if a.Assign? || a.AllocateOnly? {
      Ids.AllocateOk(s.alloc);
    }
  }

  lemma {:induction false} ZombieStaysOn(s: State, steps: seq<Action>, id: u32, p: Pid)
    requires Sound(s) && Holds(s.objects, id, Zombie(p)) && Ids.Outstanding(s.alloc, id) && p in s.done
    requires Unclaimed(s, id, p) && Legal(s, steps) && DeleteId(id) !in steps
    ensures Holds(Run(s, steps).objects, id, Zombie(p))
    decreases |steps|
  {
    if steps != [] {
      ZombieStays(s, steps[0], id, p);
      SoundStep(s, steps[0]);
      ZombieStaysOn(Next(s, steps[0]), steps[1..], id, p);
    }
  }

  ghost predicate AlwaysZombie(s: State, id: u32, p: Pid) {
    forall steps | Legal(s, steps) && DeleteId(id) !in steps :: Holds(Run(s, steps).objects, id, Zombie(p))
  }

  /** Against every compositor: until delete_id names its ID, a zombie survives everything else, `Unregister` through
  its own proxy included, if and only if nobody is still to be registered under that ID. */
  lemma ZombieExactlyWithoutRival(s: State, id: u32, p: Pid)
    requires Sound(s) && Holds(s.objects, id, Zombie(p)) && Ids.Outstanding(s.alloc, id) && p in s.done
    ensures AlwaysZombie(s, id, p) <==> Unclaimed(s, id, p)
  {
    if Unclaimed(s, id, p) {
      forall steps | Legal(s, steps) && DeleteId(id) !in steps ensures Holds(Run(s, steps).objects, id, Zombie(p)) {
        ZombieStaysOn(s, steps, id, p);
      }
    } else {
      var q :| q in s.idOf && q != p && s.idOf[q] == id && q !in s.done;
      RivalTakesItAlong(s, q);
      assert DeleteId(id) !in PassThrough(s, q);
    }
  }

  // ------------------------------------------------------------- timely states

  /** In a run in which every delete_id is on time nobody ever has a rival, */
  lemma TimelyHasNoRival(s: State, p: Pid)
    requires Inv(s) && p in s.done && p !in s.buried
    ensures Waits(s, p) && NoRival(s, p)
  {
    assert p in s.idOf && Holds(s.objects, s.idOf[p], Live(p));
    assert s.idOf[p] > 2 ==> EntryOk(s, s.idOf[p], Live(p));
  }

  /** and whoever is given an ID will have none. */
  lemma TimelyIsUnclaimed(s: State, p: Pid)
    requires Inv(s) && Ids.Allocate(s.alloc).id != 0
    ensures Unclaimed(s, Ids.Allocate(s.alloc).id, p)
  {
    Ids.AllocateOk(s.alloc);
  }
}

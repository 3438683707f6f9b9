/** Protocol versions along chains of object creation (client.go `BindNegotiated`, core.go `request`, `CheckVersion`).
*/
module Versions {
  import opened Bytes

  /** `CheckVersion`: an unknown version (0) is not checked. */
  predicate VersionOk(version: u32, since: u32) {
    version == 0 || since <= version
  }

  /** The version `BindNegotiated` settles on. */
  function Negotiate(announced: u32, supported: u32): u32 {
    if announced < supported then announced else supported
  }

  /** An object, by the moment it was created. */
  type Oid = nat

  /** How an object came to be: bound at a negotiated version, at a version of the caller's choosing (0 if none is on
  record), or made by a request on a parent. */
  datatype Origin = Bound(announced: u32, supported: u32) | At(version: u32) | MadeBy(parent: Oid)

  datatype Sent = Sent(sender: Oid, since: u32)

  /** `origins[o]` tells where object `o` came from, `versions[o]` is what its proxy records. */
  datatype State = State(origins: seq<Origin>, versions: seq<u32>, wire: seq<Sent>)

  const Init := State([], [], [])

  /** One successful `Bind`, or one call of `request` by an object there is; `sends` says whether the send succeeds. */
  datatype Step =
    | Bind(announced: u32, supported: u32)
    | BindAt(version: u32)
    | Request(sender: Oid, since: u32, child: bool, sends: bool)

  ghost predicate Enabled(s: State, step: Step) {
    match step
    case Bind(announced, supported) => announced != 0 && supported != 0
    case BindAt(_) => true
    case Request(sender, _, _, _) => sender < |s.versions|
  }

  function Next(s: State, step: Step): State {
    match step
    case Bind(announced, supported) =>
      s.(origins := s.origins + [Bound(announced, supported)],
         versions := s.versions + [Negotiate(announced, supported)])
    case BindAt(version) => s.(origins := s.origins + [At(version)], versions := s.versions + [version])
    case Request(sender, since, child, sends) =>
      if sender >= |s.versions| || !VersionOk(s.versions[sender], since) || !sends then s
      else
        var s' := s.(wire := s.wire + [Sent(sender, since)]);
        if !child then s'
        else s'.(origins := s.origins + [MadeBy(sender)], versions := s.versions + [s.versions[sender]])
  }

  ghost predicate Run(steps: seq<Step>) {
    steps == [] || (Run(steps[..|steps| - 1]) && Enabled(After(steps[..|steps| - 1]), steps[|steps| - 1]))
  }

  function After(steps: seq<Step>): State {
    if steps == [] then Init else Next(After(steps[..|steps| - 1]), steps[|steps| - 1])
  }

  /** The bind an object descends from, following the chain of parents. */
  function Root(origins: seq<Origin>, o: Oid): (root: Origin)
    ensures !root.MadeBy?
  {
    if o >= |origins| then At(0)
    else match origins[o]
      case MadeBy(parent) => if parent < o then Root(origins, parent) else At(0)
      case origin => origin
  }

  /** What a root grants. */
  function Granted(root: Origin): u32 {
    match root
    case Bound(announced, supported) => Negotiate(announced, supported)
    case At(version) => version
    case MadeBy(_) => 0
  }

  lemma {:induction false} RootStable(origins: seq<Origin>, more: seq<Origin>, o: Oid)
    requires o < |origins|
    ensures Root(origins + more, o) == Root(origins, o)
  {
    if origins[o].MadeBy? && origins[o].parent < o {
      RootStable(origins, more, origins[o].parent);
    }
  }

  ghost predicate Inv(s: State) {
    && |s.origins| == |s.versions|
    && (forall o | 0 <= o < |s.versions| :: s.versions[o] == Granted(Root(s.origins, o)))
    && (forall i | 0 <= i < |s.wire| ::
          s.wire[i].sender < |s.versions| && VersionOk(s.versions[s.wire[i].sender], s.wire[i].since))
  }

  lemma Grows(s: State, origin: Origin, version: u32, sent: seq<Sent>)
    requires Inv(s) && version == Granted(Root(s.origins + [origin], |s.origins|))
    requires forall i | 0 <= i < |sent| ::
               sent[i].sender < |s.versions| && VersionOk(s.versions[sent[i].sender], sent[i].since)
    ensures Inv(State(s.origins + [origin], s.versions + [version], s.wire + sent))
  {
    forall o | 0 <= o < |s.versions| ensures s.versions[o] == Granted(Root(s.origins + [origin], o)) {
      RootStable(s.origins, [origin], o);
    }
  }

  lemma StepKeeps(s: State, step: Step)
    requires Inv(s) && Enabled(s, step)
    ensures Inv(Next(s, step))
  {
    match step
    case Bind(announced, supported) => Grows(s, Bound(announced, supported), Negotiate(announced, supported), []);
      assert s.wire + [] == s.wire;
    case BindAt(version) => Grows(s, At(version), version, []);
      assert s.wire + [] == s.wire;
    case Request(sender, since, child, sends) =>
      if VersionOk(s.versions[sender], since) && sends && child {
        RootStable(s.origins, [MadeBy(sender)], sender);
        Grows(s, MadeBy(sender), s.versions[sender], [Sent(sender, since)]);
      }
  }

  lemma {:induction false} InvAlways(steps: seq<Step>)
    requires Run(steps)
    ensures Inv(After(steps))
  {
    if steps != [] {
      var n := |steps| - 1;
      InvAlways(steps[..n]);
      StepKeeps(After(steps[..n]), steps[n]);
    }
  }

  /** However long the chain of creations, an object carries min(announced, supported) of the global it descends from.
  */
  lemma InheritedVersion(steps: seq<Step>, o: Oid)
    requires Run(steps) && o < |After(steps).versions|
    ensures var root := Root(After(steps).origins, o);
            var version := After(steps).versions[o];
            root.Bound? ==>
              && version == Negotiate(root.announced, root.supported)
              && 1 <= version <= root.announced && version <= root.supported
              && (version == root.announced || version == root.supported)
  {
    InvAlways(steps);
    BoundsArePositive(steps, o);
  }

  /** A request of such an object is sent exactly if it is not newer than that; one that may be sent is. */
  lemma SentExactlyWhenNotTooNew(steps: seq<Step>, o: Oid, since: u32, child: bool)
    requires Run(steps) && o < |After(steps).versions| && Root(After(steps).origins, o).Bound?
    ensures var root := Root(After(steps).origins, o);
            var wire := Next(After(steps), Request(o, since, child, true)).wire;
            if since <= root.announced && since <= root.supported then wire == After(steps).wire + [Sent(o, since)]
            else wire == After(steps).wire
  {
    InvAlways(steps);
    BoundsArePositive(steps, o);
  }

  lemma {:induction false} BoundsArePositive(steps: seq<Step>, o: Oid)
    requires Run(steps)
    ensures var root := Root(After(steps).origins, o);
            root.Bound? ==> root.announced != 0 && root.supported != 0
  {
    if steps != [] {
      var s := After(steps[..|steps| - 1]);
      BoundsArePositive(steps[..|steps| - 1], o);
      var origins := After(steps).origins;
      if o < |s.origins| {
        assert origins == s.origins + origins[|s.origins|..];
        RootStable(s.origins, origins[|s.origins|..], o);
      } else if o < |origins| && origins[o].MadeBy? {
        BoundsArePositive(steps[..|steps| - 1], origins[o].parent);
        InvAlways(steps[..|steps| - 1]);
        RootStable(s.origins, [origins[o]], origins[o].parent);
      }
    }
  }

  /** No request newer than what the root was bound at reaches the wire, whichever descendant makes it. */
  lemma NoRequestTooNew(steps: seq<Step>, i: nat)
    requires Run(steps) && i < |After(steps).wire|
    ensures var sent := After(steps).wire[i];
            var root := Root(After(steps).origins, sent.sender);
            root.Bound? ==> sent.since <= Negotiate(root.announced, root.supported)
  {
    InvAlways(steps);
    BoundsArePositive(steps, After(steps).wire[i].sender);
  }
}

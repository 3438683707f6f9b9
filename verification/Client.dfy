/** The sending half of the client (core.go `Context`, client.go `allocateID`, delete_id, `sendRequest`, `Bind`;
scm_linux.go `sendmsgWithFDs`), one call at a time. What concurrent calls can do to each other is in `Objects` and
`Sending`, whose table and allocator functions these methods are proved against. */
module Client {
  import opened Bytes
  import opened Codec
  import Ids
  import opened Objects
  import opened Signature
  import opened Versions
  import Wire

  const REGISTRY_ID := 2

  datatype Fault =
    | MarkerMismatch      // fd arguments and descriptors differ in number
    | BadProxy            // closed context, no ID, foreign or unregistered proxy
    | VersionTooLow
    | NotMarshalled
    | ConnectionClosed
    | NoDescriptorPassing // descriptors on a connection that is not a Unix socket
    | GuardFailed         // the check under the send lock
    | WriteFailed
    | ForeignProxy
    | ReservedId
    | IdInUse
    | NoSupportedVersion
    | GlobalNotFound

  /** A request argument: a value, or the place of the new object, whose ID is read when the request is marshalled. */
  datatype ReqArg = Value(arg: Arg) | TheChild

  function Resolve(args: seq<ReqArg>, child: u32): (vals: seq<Arg>)
    ensures |vals| == |args|
    ensures forall i | 0 <= i < |args| :: vals[i] == if args[i].Value? then args[i].arg else ArgObject(Some(child))
  {
    seq(|args|, i requires 0 <= i < |args| => if args[i].Value? then args[i].arg else ArgObject(Some(child)))
  }

  /** How many fd arguments there are. */
  function Markers(args: seq<ReqArg>): nat {
    multiset(args)[Value(ArgFD)]
  }

  /** A global the compositor announced. */
  datatype Global = Global(name: u32, iface: seq<byte>, version: u32)

  const GLOBAL_KINDS: seq<Kind> := [KUint, KString, KUint]

  /** What an accepted wl_registry.global says, value by value. */
  function GlobalOf(parts: seq<seq<byte>>): Global
    requires |parts| == 3
    requires Signature.Legal(KUint, parts[0]) && Signature.Legal(KString, parts[1]) && Signature.Legal(KUint, parts[2])
  {
    Global(WordAt(parts[0]), ValueOf(KString, parts[1]).bytes, WordAt(parts[2]))
  }

  /** The decoders read exactly that. */
  lemma GlobalDecodes(parts: seq<seq<byte>>, body: seq<byte>)
    requires Matches(GLOBAL_KINDS, parts, SigText(GLOBAL_KINDS), body) && |body| < 0x1_0000_0000
    ensures var d0 := Uint32At(body, 0);
            var d1 := StringAt(body, d0.offset);
            var d2 := Uint32At(body, d1.offset);
            && d0.value == VWord(GlobalOf(parts).name) && d1.value == VBytes(GlobalOf(parts).iface)
            && d2.value == VWord(GlobalOf(parts).version)
  {
    DecodesPart(GLOBAL_KINDS, parts, 0);
    DecodesPart(GLOBAL_KINDS, parts, 1);
    DecodesPart(GLOBAL_KINDS, parts, 2);
    DecodesGlobal(body);
  }

  lemma DecodesGlobal(body: seq<byte>)
    ensures var ds := DecodeAll(GLOBAL_KINDS, body, 0);
            && ds[0] == Uint32At(body, 0)
            && ds[1] == StringAt(body, ds[0].offset)
            && ds[2] == Uint32At(body, ds[1].offset)
  {
    assert GLOBAL_KINDS[1..] == [KString, KUint] && [KString, KUint][1..] == [KUint];
    var d0 := Uint32At(body, 0);
    var d1 := StringAt(body, d0.offset);
    var d2 := Uint32At(body, d1.offset);
    assert DecodeAll([KUint], body, d1.offset) == [d2];
    assert DecodeAll([KString, KUint], body, d0.offset) == [d1] + [d2];
  }

  /** The signatures the registry declares. */
  lemma RegistrySignatures()
    ensures SigText(GLOBAL_KINDS) == "uint," + "string," + "uint,"
    ensures SigText([KUint]) == "uint,"
  {
    assert GLOBAL_KINDS[1..] == [KString, KUint] && [KString, KUint][1..] == [KUint];
    assert SigText([KString, KUint]) == "string," + "uint,";
  }

  datatype Request =
    Request(proxy: Proxy, opcode: u32, since: u32, destructor: bool, child: Proxy?, fds: seq<int>)

  function BindArgs(name: u32, iface: seq<byte>, version: u32, id: u32): seq<Arg> {
    [ArgWord(name), ArgString(iface), ArgWord(version), ArgWord(id)]
  }

  ghost function BindMessage(name: u32, iface: seq<byte>, version: u32, id: u32): Option<seq<byte>> {
    EncodeMessage(REGISTRY_ID, 0, BindArgs(name, iface, version, id))
  }

  ghost function SyncMessage(id: u32): Option<seq<byte>> {
    EncodeMessage(1, 0, [ArgWord(id)])
  }

  const BIND_KINDS: seq<Kind> := [KUint, KString, KUint, KNewId]

  /** Read back as a compositor would, the request binds that name of that interface at that version to that ID. */
  lemma BindSays(name: u32, iface: seq<byte>, version: u32, id: u32)
    requires BindMessage(name, iface, version, id).Some?
    ensures var r := Wire.ReadFrame(BindMessage(name, iface, version, id).value, 0);
            && r.Framed? && r.rest == [] && r.frame.obj == REGISTRY_ID && r.frame.opcode == 0
            && var ds := DecodeAll(BIND_KINDS, r.frame.body, 0);
               && ds[0].value == VWord(name) && ds[1].value == VBytes(iface)
               && ds[2].value == VWord(version) && ds[3].value == VWord(id)
  {
    var args := BindArgs(name, iface, version, id);
    MessageSays(REGISTRY_ID, 0, args);
    BodyRoundTrip(BIND_KINDS, args, 0);
    BodyRoundTrip(BIND_KINDS, args, 1);
    BodyRoundTrip(BIND_KINDS, args, 2);
    BodyRoundTrip(BIND_KINDS, args, 3);
  }

  /** And this one asks the display to call back under that ID. */
  lemma SyncSays(id: u32)
    requires SyncMessage(id).Some?
    ensures var r := Wire.ReadFrame(SyncMessage(id).value, 0);
            && r.Framed? && r.rest == [] && r.frame.obj == 1 && r.frame.opcode == 0
            && DecodeAll([KNewId], r.frame.body, 0)[0].value == VWord(id)
  {
    MessageSays(1, 0, [ArgWord(id)]);
    BodyRoundTrip([KNewId], [ArgWord(id)], 0);
  }

  lemma MessageSays(obj: u32, opcode: u16, args: seq<Arg>)
    requires EncodeMessage(obj, opcode, args).Some?
    ensures EncodeBody(args).Some? && |EncodeBody(args).value| < 0x1_0000_0000
    ensures Wire.ReadFrame(EncodeMessage(obj, opcode, args).value, 0) ==
            Wire.Framed(Wire.Frame(obj, opcode, EncodeBody(args).value), [])
  {
    var m := Message(obj, opcode, args);
    ReadEncoded(m, []);
    assert Printed(m) + [] == Printed(m);
  }

  /** What one socket write does: the bytes it took, and whether it reported an error. */
  datatype WriteResult = WriteResult(n: nat, err: bool)

  /** What one write puts on the socket: bytes, and the descriptors attached to them. */
  datatype Packet = Packet(bytes: seq<byte>, fds: seq<int>)

  /** The part of the connection a request may change. */
  datatype View =
    View(proxies: map<u32, Proxy>, objects: map<u32, Item>, wire: seq<Packet>, open: bool, writes: nat)

  /** The write took the whole message. */
  predicate Whole(open: bool, w: WriteResult, packet: Packet) {
    open && !w.err && w.n == |packet.bytes|
  }

  /** What a write that fell short leaves on the wire: the bytes it took, with the descriptors. */
  function Scraps(open: bool, w: WriteResult, packet: Packet): seq<Packet> {
    if !open || w.n == 0 then []
    else [Packet(if w.n < |packet.bytes| then packet.bytes[..w.n] else packet.bytes, packet.fds)]
  }

  /** After one write: the message, or its scraps and a shut socket. */
  function Written(v: View, w: WriteResult, packet: Packet): View {
    if Whole(v.open, w, packet) then v.(wire := v.wire + [packet], writes := v.writes + 1)
    else v.(wire := v.wire + Scraps(v.open, w, packet), open := false, writes := v.writes + 1)
  }

  function WriteFault(v: View, w: WriteResult, packet: Packet): Option<Fault> {
    if Whole(v.open, w, packet) then None else Some(WriteFailed)
  }

  /** A claimed proxy takes no more requests and leaves a zombie behind. */
  function Claim(v: View, id: u32, p: Proxy): View {
    v.(proxies := Deleted(v.proxies, id, p), objects := Swapped(v.objects, id, Item.Live(p), Item.Zombie(p)))
  }

  /** A new proxy in both tables, if it got an ID. */
  function Born(v: View, id: u32, p: Proxy): View {
    if id == 0 then v else v.(proxies := v.proxies[id := p], objects := v.objects[id := Item.Live(p)])
  }

  function Unborn(v: View, id: u32, p: Proxy): View {
    v.(proxies := Deleted(v.proxies, id, p), objects := Deleted(v.objects, id, Item.Live(p)))
  }

  ghost predicate Taken(a: Ids.Allocator, id: u32) {
    id != 0 && (id >= Ids.FIRST_SERVER_ID || (id < a.next && id !in a.retired))
  }

  /** The allocator is sound, every ID in a table is outstanding, and the two tables hold the same proxies. */
  ghost predicate Consistent(a: Ids.Allocator, v: View) {
    && Ids.Ok(a)
    && Holds(v.objects, 1, Item.Core) && Holds(v.objects, REGISTRY_ID, Item.Core)
    && (forall id | id in v.objects :: Taken(a, id))
    && (forall id | id in v.proxies :: Holds(v.objects, id, Item.Live(v.proxies[id])))
    && (forall id | id in v.objects && v.objects[id].Live? :: Holds(v.proxies, id, v.objects[id].p))
  }

  /** An ID just handed out is in no table, and stays consistent whether or not a proxy takes it. */
  lemma FreshId(a: Ids.Allocator, v: View, p: Proxy)
    requires Consistent(a, v)
    ensures Consistent(Ids.Allocate(a).alloc, v)
    ensures Consistent(Ids.Allocate(a).alloc, Born(v, Ids.Allocate(a).id, p))
    ensures Ids.Allocate(a).id !in v.proxies && Ids.Allocate(a).id !in v.objects
  {
    Ids.AllocateOk(a);
  }

  lemma ClaimKeeps(a: Ids.Allocator, v: View, id: u32, p: Proxy)
    requires Consistent(a, v)
    ensures Consistent(a, Claim(v, id, p))
  {
  }

  lemma TakeBack(v: View, child: u32, c: Proxy)
    requires child !in v.proxies && child !in v.objects
    ensures Unborn(Born(v, child, c), child, c) == v
  {
  }

  lemma ClaimCommutes(v: View, child: u32, c: Proxy, id: u32, p: Proxy)
    requires child !in v.proxies && child !in v.objects && Holds(v.proxies, id, p)
    ensures Claim(Born(v, child, c), id, p) == Born(Claim(v, id, p), child, c)
  {
  }

  /** Taking a new proxy back out undoes its registration, also after another one was claimed. */
  lemma UnbornUndoes(v: View, child: u32, c: Proxy, id: u32, p: Proxy)
    requires child !in v.proxies && child !in v.objects && Holds(v.proxies, id, p)
    ensures Unborn(Born(v, child, c), child, c) == v
    ensures Unborn(Claim(Born(v, child, c), id, p), child, c) == Claim(v, id, p)
    ensures Claim(Born(v, child, c), id, p) == Born(Claim(v, id, p), child, c)
  {
    TakeBack(v, child, c);
    ClaimCommutes(v, child, c, id, p);
    TakeBack(Claim(v, id, p), child, c);
  }

  /** Registering a proxy where it already is, or where nothing is, leaves the same tables once it is taken out. */
  lemma Reborn(a: Ids.Allocator, v: View, id: u32, p: Proxy)
    requires Consistent(a, v) && (id in v.objects ==> v.objects[id] == Item.Live(p))
    ensures Unborn(Born(v, id, p), id, p) == Unborn(v, id, p)
    ensures id !in v.objects ==> Unborn(v, id, p) == v
  {
  }

  /** Registering is consistent exactly under an outstanding ID; taking out always is. */
  lemma BornConsistent(a: Ids.Allocator, v: View, id: u32, p: Proxy)
    requires Consistent(a, v) && id != 1 && id != REGISTRY_ID && (id in v.objects ==> v.objects[id] == Item.Live(p))
    ensures Consistent(a, Born(v, id, p)) <==> id == 0 || Taken(a, id)
    ensures Consistent(a, Unborn(v, id, p))
  {
    assert id != 0 ==> id in Born(v, id, p).objects;
  }

  /** A claim takes the proxy out of one table and leaves a zombie in the other, and touches nothing else. */
  lemma ClaimMeans(a: Ids.Allocator, v: View, id: u32, p: Proxy)
    requires Consistent(a, v) && Holds(v.proxies, id, p)
    ensures Claim(v, id, p) == v.(proxies := v.proxies - {id}, objects := v.objects[id := Item.Zombie(p)])
    ensures Destroyed(Claim(v, id, p), id, p)
  {
  }

  /** No request goes through `p` any more, and late events for it are recognised. */
  predicate Destroyed(v: View, id: u32, p: Proxy) {
    id !in v.proxies && Holds(v.objects, id, Item.Zombie(p))
  }

  /** What a send that was not refused leaves behind: all of its message, or a broken connection. */
  ghost predicate Delivered(v: View, v': View, guarded: Proxy?, id: u32, claims: bool, packet: Packet, w: WriteResult,
                            fault: Option<Fault>)
  {
    var claimed := if guarded != null && claims then Claim(v, id, guarded) else v;
    v' == Written(claimed, w, packet) && fault == WriteFault(v, w, packet)
  }

  /** The promise of a request that was not refused: it took effect whole, or not at all, or the connection is broken;
  and which of them is decided by the arguments, the socket and the one write it makes. */
  ghost predicate Outcome(r: Request, id: u32, message: Option<seq<byte>>, child: u32, carries: bool, w: WriteResult,
                          v: View, v': View, fault: Option<Fault>)
  {
    if message.None? then v' == v && fault == Some(NotMarshalled)
    else if !carries then v' == v && fault == Some(NoDescriptorPassing)
    else
      var packet := Packet(message.value, r.fds);
      var claimed := if r.destructor then Claim(v, id, r.proxy) else v;
      var born := if r.child != null && fault.None? then Born(claimed, child, r.child) else claimed;
      && fault == WriteFault(v, w, packet) && v' == Written(born, w, packet)
      && (r.destructor ==> Destroyed(v', id, r.proxy))
  }

  /** How an unguarded send ends, and what it leaves: it touches no table. */
  function TellFault(v: View, message: Option<seq<byte>>, closed: bool, w: WriteResult): Option<Fault> {
    if message.None? then Some(NotMarshalled)
    else if closed then Some(ConnectionClosed)
    else WriteFault(v, w, Packet(message.value, []))
  }

  function Told(v: View, message: Option<seq<byte>>, closed: bool, w: WriteResult): View {
    if message.None? || closed then v else Written(v, w, Packet(message.value, []))
  }

  /** The send's own promise, with the new object taken back on failure, is the request's. */
  lemma OutcomeWithChild(a: Ids.Allocator, r: Request, id: u32, data: seq<byte>, child: u32, w: WriteResult,
                         v: View, sent: View, fault: Option<Fault>)
    requires r.child != null && Consistent(a, v) && Consistent(a, Born(v, child, r.child))
    requires child !in v.proxies && child !in v.objects && Holds(v.proxies, id, r.proxy)
    requires Delivered(Born(v, child, r.child), sent, r.proxy, id, r.destructor, Packet(data, r.fds), w, fault)
    ensures var v' := if fault.Some? then Unborn(sent, child, r.child) else sent;
            Outcome(r, id, Some(data), child, true, w, v, v', fault) && Consistent(a, v')
  {
    var born := Born(v, child, r.child);
    UnbornUndoes(v, child, r.child, id, r.proxy);
    ClaimKeeps(a, v, id, r.proxy);
    ClaimKeeps(a, born, id, r.proxy);
    ClaimMeans(a, v, id, r.proxy);
    ClaimMeans(a, born, id, r.proxy);
    WrittenTables(if r.destructor then Claim(born, id, r.proxy) else born, w, Packet(data, r.fds), child, r.child);
  }

  /** A write and the tables do not meddle with each other. */
  lemma WrittenTables(v: View, w: WriteResult, packet: Packet, id: u32, p: Proxy)
    ensures Unborn(Written(v, w, packet), id, p) == Written(Unborn(v, id, p), w, packet)
  {
  }

  lemma ToldTables(v: View, message: Option<seq<byte>>, closed: bool, w: WriteResult, id: u32, p: Proxy)
    ensures Unborn(Told(v, message, closed, w), id, p) == Told(Unborn(v, id, p), message, closed, w)
    ensures TellFault(Unborn(v, id, p), message, closed, w) == TellFault(v, message, closed, w)
  {
  }

  lemma OutcomeAlone(a: Ids.Allocator, r: Request, id: u32, data: seq<byte>, w: WriteResult,
                     v: View, v': View, fault: Option<Fault>)
    requires r.child == null && Consistent(a, v) && Holds(v.proxies, id, r.proxy)
    requires Delivered(v, v', r.proxy, id, r.destructor, Packet(data, r.fds), w, fault)
    ensures Outcome(r, id, Some(data), 0, true, w, v, v', fault) && Consistent(a, v')
  {
    ClaimKeeps(a, v, id, r.proxy);
    ClaimMeans(a, v, id, r.proxy);
  }

  /** A protocol object of the client. A generated one knows its event signatures; a `wl_callback` made by `Sync` is
  one too. */
  class Proxy {
    var id: u32
    var version: u32
    var context: Option<nat>
    const signatures: Option<map<u16, seq<char>>>
    const callback: bool

    constructor (context: Option<nat>, signatures: Option<map<u16, seq<char>>>)
      ensures id == 0 && version == 0 && this.context == context && this.signatures == signatures && !callback
    {
      this.id, this.version, this.context, this.signatures, this.callback := 0, 0, context, signatures, false;
    }

    constructor Callback(context: nat, id: u32)
      ensures this.id == id && version == 0 && this.context == Some(context) && callback
      ensures signatures == Some(map[0 := "uint,"])
    {
      this.id, this.version, this.context := id, 0, Some(context);
      this.signatures, this.callback := Some(map[0 := "uint,"]), true;
    }
  }

  /** What the `objects` table holds. */
  datatype Item = Core | Live(p: Proxy) | Zombie(p: Proxy)

  class Display {
    const context: nat
    const isUnix: bool
    const writer: nat -> WriteResult
    var writes: nat
    var nextID: u32
    var freeIDs: seq<u32>
    var retiredIDs: set<u32>
    var proxies: map<u32, Proxy>
    var objects: map<u32, Item>
    var globals: map<u32, Global>
    var closed: bool
    var open: bool
    var wire: seq<Packet>      // what reached the socket, write by write
    var closedFDs: seq<int>    // the descriptors closed after being sent

    function Alloc(): Ids.Allocator
      reads this`nextID, this`freeIDs, this`retiredIDs
    {
      Ids.Allocator(nextID, freeIDs, retiredIDs)
    }

    function Seen(): View
      reads this`proxies, this`objects, this`wire, this`open, this`writes
    {
      View(proxies, objects, wire, open, writes)
    }

    ghost predicate Valid()
      reads this
    {
      Consistent(Alloc(), Seen())
    }

    /** `newDisplay`. */
    constructor (context: nat, isUnix: bool, writer: nat -> WriteResult)
      ensures Valid() && this.context == context && this.isUnix == isUnix && this.writer == writer
      ensures globals == map[] && proxies == map[] && objects == map[1 := Item.Core, REGISTRY_ID := Item.Core]
      ensures !closed && open && wire == [] && closedFDs == [] && writes == 0
    {
      this.context, this.isUnix, this.writer := context, isUnix, writer;
      writes, nextID, freeIDs, retiredIDs := 0, 2, [], {};
      proxies, objects := map[], map[1 := Item.Core];
      globals := map[];
      closed, open, wire, closedFDs := false, true, [], [];
      new;
      var id := AllocateID();
      objects := objects[id := Item.Core];
    }

    method AllocateID() returns (id: u32)
      requires Ids.Ok(Alloc())
      modifies this`nextID, this`freeIDs, this`retiredIDs
      ensures Alloc() == Ids.Allocate(old(Alloc())).alloc && id == Ids.Allocate(old(Alloc())).id
    {
      var n := |freeIDs|;
      if n != 0 {
        id := freeIDs[n - 1];
        freeIDs := freeIDs[..n - 1];
        retiredIDs := retiredIDs - {id};
        return;
      }
      if nextID == 0 || nextID >= 0xff00_0000 {
        return 0;
      }
      id := nextID;
      nextID := nextID + 1;
    }

    /** wl_display.delete_id: a zombie is dropped in any case; the ID is retired only if it may be. */
    method DeleteID(id: u32) returns (ok: bool)
      requires Valid()
      modifies this`objects, this`freeIDs, this`retiredIDs
      ensures Valid()
      ensures ok <==> Ids.Retirable(old(Alloc()), id, id in old(objects) && !old(objects)[id].Zombie?)
      ensures Alloc() == if ok then Ids.Retire(old(Alloc()), id) else old(Alloc())
      ensures objects == if id in old(objects) && old(objects)[id].Zombie? then old(objects) - {id} else old(objects)
    {
      var live := id in objects;
      if live && objects[id].Zombie? {
        objects := objects - {id};
        live := false;
      }
      if id < 2 || id >= 0xff00_0000 || id >= nextID || live || id in retiredIDs {
        return false;
      }
      Ids.RetireOk(Alloc(), id, live);
      retiredIDs := retiredIDs + {id};
      freeIDs := freeIDs + [id];
      return true;
    }

    predicate Registered(p: Proxy)
      reads this`proxies, this`closed, p
    {
      !closed && p.id != 0 && p.context == Some(context) && Holds(proxies, p.id, p)
    }

    method Register(p: Proxy)
      modifies this`proxies, this`objects
      ensures Seen() == if !closed && p.context == Some(context) then Born(old(Seen()), p.id, p) else old(Seen())
      ensures old(Valid()) && (p.id == 0 || (p.id > REGISTRY_ID && Taken(Alloc(), p.id))) ==> Valid()
      // requests of the context's own proxies go through from now on, and nobody else's
      ensures Registered(p) <==> !closed && p.id != 0 && p.context == Some(context)
    {
      if p.id != 0 && !closed {
        if p.context != Some(context) {
          return;
        }
        proxies := proxies[p.id := p];
        objects := objects[p.id := Item.Live(p)];
      }
    }

    method Unregister(p: Proxy)
      modifies this`proxies, this`objects
      ensures Seen() == Unborn(old(Seen()), p.id, p)
      ensures old(Valid()) ==> Valid()
      ensures !Registered(p)
    {
      proxies := Deleted(proxies, p.id, p);
      objects := Deleted(objects, p.id, Item.Live(p));
    }

    /** `claimDestroy`, also `Abandon`. */
    method ClaimDestroy(p: Proxy) returns (ok: bool)
      modifies this`proxies, this`objects
      ensures ok <==> old(Registered(p))
      ensures Seen() == if ok then Claim(old(Seen()), p.id, p) else old(Seen())
      // no more requests, and a zombie in its place until delete_id
      ensures old(Valid()) && ok ==>
                proxies == old(proxies) - {p.id} && objects == old(objects)[p.id := Item.Zombie(p)]
      ensures old(Valid()) ==> Valid()
    {
      if !Registered(p) {
        return false;
      }
      if Valid() {
        ClaimMeans(Alloc(), Seen(), p.id, p);
      }
      proxies := Deleted(proxies, p.id, p);
      objects := Swapped(objects, p.id, Item.Live(p), Item.Zombie(p));
      return true;
    }

    /** What is refused under the send lock before a byte is written. */
    function SendRefusal(fds: seq<int>, guarded: Proxy?): (fault: Option<Fault>)
      reads this, guarded
    {
      if closed then Some(ConnectionClosed)
      else if fds != [] && !isUnix then Some(NoDescriptorPassing)
      else if guarded != null && !Registered(guarded) then Some(GuardFailed)
      else None
    }

    /** `sendmsgWithFDs`: closed check, guard and write under the send lock. With `claims` the guard is `claimDestroy`,
    without it `CheckProxy`; no proxy, no guard. */
    method SendMsg(data: seq<byte>, fds: seq<int>, guarded: Proxy?, claims: bool) returns (fault: Option<Fault>)
      modifies this`proxies, this`objects, this`wire, this`writes, this`open
      ensures var refusal := old(SendRefusal(fds, guarded));
              if refusal.Some? then fault == refusal && Seen() == old(Seen())
              else
                var id := if guarded == null then 0 else guarded.id;
                Delivered(old(Seen()), Seen(), guarded, id, claims, Packet(data, fds), writer(old(writes)), fault)
      // what is refused, in this order
      ensures && (fault == Some(ConnectionClosed) <==> closed)
              && (fault == Some(NoDescriptorPassing) <==> !closed && fds != [] && !isUnix)
              && (fault == Some(GuardFailed) <==>
                    !closed && (fds == [] || isUnix) && guarded != null && !old(Registered(guarded)))
    {
      if closed {
        return Some(ConnectionClosed);
      }
      if |fds| > 0 && !isUnix {
        return Some(NoDescriptorPassing);
      }
      if guarded != null {
        if claims {
          var ok := ClaimDestroy(guarded);
          if !ok {
            return Some(GuardFailed);
          }
        } else if !Registered(guarded) {
          return Some(GuardFailed);
        }
      }
      var ok := WriteAll(Packet(data, fds));
      if !ok {
        return Some(WriteFailed);
      }
      return None;
    }

    /** One write: success means that the socket was open and took all bytes without an error; anything else shuts the
    socket, behind the bytes that were taken. */
    method WriteAll(packet: Packet) returns (ok: bool)
      modifies this`wire, this`writes, this`open
      ensures writes == old(writes) + 1
      ensures var w := writer(old(writes));
              && (ok <==> old(open) && !w.err && w.n == |packet.bytes|)
              && (ok ==> wire == old(wire) + [packet] && open)
              && (!ok ==> !open)
              && (!ok && (!old(open) || w.n == 0) ==> wire == old(wire))
              && (!ok && old(open) && 0 < w.n < |packet.bytes| ==>
                    wire == old(wire) + [Packet(packet.bytes[..w.n], packet.fds)])
              && (!ok && old(open) && 0 < w.n && |packet.bytes| <= w.n ==> wire == old(wire) + [packet])
    {
      var w := writer(writes);
      writes := writes + 1;
      if open && !w.err && w.n == |packet.bytes| {
        wire := wire + [packet];
        return true;
      }
      wire := wire + Scraps(open, w, packet);
      open := false;
      return false;
    }

    /** `sendRequest`: the message is marshalled before the send lock is taken. */
    method SendRequest(objectID: u32, opcode: u16, fds: seq<int>, guarded: Proxy?, claims: bool, vals: seq<Arg>)
      returns (fault: Option<Fault>, ghost data: seq<byte>)
      modifies this`proxies, this`objects, this`wire, this`writes, this`open
      ensures fault == Some(NotMarshalled) <==> EncodeMessage(objectID, opcode, vals).None?
      ensures fault == Some(NotMarshalled) ==> Seen() == old(Seen())
      ensures fault != Some(NotMarshalled) ==> EncodeMessage(objectID, opcode, vals) == Some(data)
      ensures fault != Some(NotMarshalled) ==>
                var refusal := old(SendRefusal(fds, guarded));
                if refusal.Some? then fault == refusal && Seen() == old(Seen())
                else
                  var id := if guarded == null then 0 else guarded.id;
                  Delivered(old(Seen()), Seen(), guarded, id, claims, Packet(data, fds), writer(old(writes)), fault)
    {
      var bad, bytes := MarshalRequest(objectID, opcode, [], vals);
      assert UnboxAll([]) + vals == vals;
      data := bytes;
      if bad.Some? {
        return Some(NotMarshalled), data;
      }
      fault := SendMsg(bytes, fds, guarded, claims);
    }

    /** The fd arguments, counted before anything else happens. */
    method CountMarkers(args: seq<ReqArg>) returns (markers: nat)
      ensures markers == multiset(args)[Value(ArgFD)]
    {
      markers := 0;
      for i := 0 to |args|
        invariant markers == Markers(args[..i])
      {
        assert args[..i + 1] == args[..i] + [args[i]];
        if args[i] == Value(ArgFD) {
          markers := markers + 1;
        }
      }
      assert args[..|args|] == args;
    }

    /** The message a request stands for, once its new object has an ID. */
    ghost function MessageOf(r: Request, args: seq<ReqArg>, child: u32): Option<seq<byte>>
      reads r.proxy
    {
      EncodeMessage(r.proxy.id, r.opcode % 0x1_0000, Resolve(args, child))
    }

    /** Marshalled, and with descriptors only where they can be carried. */
    ghost predicate Passes(r: Request, message: Option<seq<byte>>) {
      message.Some? && (r.fds == [] || isUnix)
    }

    /** What `request` refuses before it touches anything. */
    function Refusal(r: Request, args: seq<ReqArg>, typed: bool): (fault: Option<Fault>)
      reads this, r.proxy
    {
      if typed && Markers(args) != |r.fds| then Some(MarkerMismatch)
      else if !Registered(r.proxy) then Some(BadProxy)
      else if !VersionOk(r.proxy.version, r.since) then Some(VersionTooLow)
      else None
    }

    method Request(r: Request, args: seq<ReqArg>, typed: bool) returns (fault: Option<Fault>)
      requires Valid()
      requires r.child != null ==> r.child != r.proxy && r.child.context == Some(context)
      modifies this, r.child
      ensures Valid()
      // refused: nothing moved, not even the ID counter
      ensures old(Refusal(r, args, typed)).Some? ==> fault == old(Refusal(r, args, typed)) && unchanged(this)
      ensures old(Refusal(r, args, typed)).Some? && r.child != null ==> unchanged(r.child)
      // otherwise the child has its ID and its parent's version
      ensures old(Refusal(r, args, typed)).None? ==>
                if r.child == null then Alloc() == old(Alloc())
                else Alloc() == Ids.Allocate(old(Alloc())).alloc && r.child.id == Ids.Allocate(old(Alloc())).id
                     && r.child.version == r.proxy.version
      // and the connection either took the whole message, or is as it was, or is broken
      ensures old(Refusal(r, args, typed)).None? ==>
                var child := if r.child == null then 0 else r.child.id;
                Outcome(r, r.proxy.id, MessageOf(r, args, child), child, r.fds == [] || isUnix, writer(old(writes)),
                        old(Seen()), Seen(), fault)
      // what is refused, in this order
      ensures var mismatch := typed && multiset(args)[Value(ArgFD)] != |r.fds|;
              && (fault == Some(MarkerMismatch) <==> mismatch)
              && (fault == Some(BadProxy) <==> !mismatch && !old(Registered(r.proxy)))
              && (fault == Some(VersionTooLow) <==>
                    !mismatch && old(Registered(r.proxy)) && 0 < old(r.proxy.version) < r.since)
      ensures closedFDs == if fault.None? then old(closedFDs) + r.fds else old(closedFDs)
    {
      fault := Check(r, args, typed);
      if fault.Some? {
        return;
      }
      fault := Perform(r, args);
      if fault.Some? {
        return;
      }
      closedFDs := closedFDs + r.fds;
    }

    /** The checks `request` makes first, in order. */
    method Check(r: Request, args: seq<ReqArg>, typed: bool) returns (fault: Option<Fault>)
      ensures fault == Refusal(r, args, typed)
      ensures var mismatch := typed && multiset(args)[Value(ArgFD)] != |r.fds|;
              && (fault == Some(MarkerMismatch) <==> mismatch)
              && (fault == Some(BadProxy) <==> !mismatch && !Registered(r.proxy))
              && (fault == Some(VersionTooLow) <==>
                    !mismatch && Registered(r.proxy) && 0 < r.proxy.version < r.since)
              && (fault.Some? ==> fault.value in {MarkerMismatch, BadProxy, VersionTooLow})
    {
      if typed {
        var markers := CountMarkers(args);
        if markers != |r.fds| {
          return Some(MarkerMismatch);
        }
      }
      if !Registered(r.proxy) {
        return Some(BadProxy);
      }
      if !VersionOk(r.proxy.version, r.since) {
        return Some(VersionTooLow);
      }
      return None;
    }

    /** The rest of it: the new object, the send, and the removal of the new object if the send fails. */
    method Perform(r: Request, args: seq<ReqArg>) returns (fault: Option<Fault>)
      requires Valid() && Registered(r.proxy)
      requires r.child != null ==> r.child != r.proxy && r.child.context == Some(context)
      modifies this`proxies, this`objects, this`wire, this`writes, this`open
      modifies this`nextID, this`freeIDs, this`retiredIDs, r.child
      ensures Valid()
      ensures if r.child == null then Alloc() == old(Alloc())
              else Alloc() == Ids.Allocate(old(Alloc())).alloc && r.child.id == Ids.Allocate(old(Alloc())).id
                   && r.child.version == r.proxy.version
      ensures var child := if r.child == null then 0 else r.child.id;
              Outcome(r, r.proxy.id, MessageOf(r, args, child), child, r.fds == [] || isUnix, writer(old(writes)),
                      old(Seen()), Seen(), fault)
    {
      if r.child != null {
        fault := SendWithChild(r, r.child, args);
      } else {
        ghost var data;
        fault, data := SendChecked(r, Resolve(args, 0));
        if Passes(r, MessageOf(r, args, 0)) {
          OutcomeAlone(Alloc(), r, r.proxy.id, data, writer(old(writes)), old(Seen()), Seen(), fault);
        }
      }
    }

    /** A new object gets its ID, its parent's version and its places in the tables. */
    method Adopt(parent: Proxy, child: Proxy)
      requires Valid() && !closed && child != parent && child.context == Some(context)
      modifies this`proxies, this`objects, this`nextID, this`freeIDs, this`retiredIDs, child
      ensures Alloc() == Ids.Allocate(old(Alloc())).alloc && child.id == Ids.Allocate(old(Alloc())).id
      ensures child.version == parent.version
      ensures child.id !in old(proxies) && child.id !in old(objects)
      ensures Seen() == Born(old(Seen()), child.id, child)
      ensures Consistent(Alloc(), old(Seen())) && Valid()
    {
      FreshId(Alloc(), Seen(), child);
      child.id := AllocateID();
      child.version := parent.version;
      Register(child);
    }

    /** The part of `request` that brings a new object to life, and takes it back when the send fails. */
    method SendWithChild(r: Request, child: Proxy, args: seq<ReqArg>) returns (fault: Option<Fault>)
      requires Valid() && Registered(r.proxy)
      requires r.child == child != r.proxy && child.context == Some(context)
      modifies this`proxies, this`objects, this`wire, this`writes, this`open
      modifies this`nextID, this`freeIDs, this`retiredIDs, child
      ensures Valid()
      ensures Alloc() == Ids.Allocate(old(Alloc())).alloc && child.id == Ids.Allocate(old(Alloc())).id
      ensures child.version == r.proxy.version
      ensures Outcome(r, r.proxy.id, MessageOf(r, args, child.id), child.id, r.fds == [] || isUnix, writer(old(writes)),
                      old(Seen()), Seen(), fault)
    {
      ghost var before := Seen();
      Adopt(r.proxy, child);
      fault := SendOrForget(r, child, Resolve(args, child.id), before);
    }

    /** The send, and the new object's removal from the tables when it fails. */
    method SendOrForget(r: Request, child: Proxy, vals: seq<Arg>, ghost before: View) returns (fault: Option<Fault>)
      requires r.child == child && Registered(r.proxy) && Holds(before.proxies, r.proxy.id, r.proxy)
      requires Consistent(Alloc(), before) && Valid() && Seen() == Born(before, child.id, child)
      requires child.id !in before.proxies && child.id !in before.objects && before.writes == writes
      modifies this`proxies, this`objects, this`wire, this`writes, this`open
      ensures Valid()
      ensures var message := EncodeMessage(r.proxy.id, r.opcode % 0x1_0000, vals);
              var carries := r.fds == [] || isUnix;
              Outcome(r, r.proxy.id, message, child.id, carries, writer(old(writes)), before, Seen(), fault)
    {
      ghost var data;
      fault, data := SendChecked(r, vals);
      if Passes(r, EncodeMessage(r.proxy.id, r.opcode % 0x1_0000, vals)) {
        OutcomeWithChild(Alloc(), r, r.proxy.id, data, child.id, writer(old(writes)), before, Seen(), fault);
      } else {
        TakeBack(before, child.id, child);
      }
      if fault.Some? {
        Unregister(child);
      }
    }

    /** `sendChecked`: a first check before marshalling, the guard again under the lock. */
    method SendChecked(r: Request, vals: seq<Arg>) returns (fault: Option<Fault>, ghost data: seq<byte>)
      modifies this`proxies, this`objects, this`wire, this`writes, this`open
      ensures !old(Registered(r.proxy)) ==> fault == Some(BadProxy) && Seen() == old(Seen())
      ensures old(Registered(r.proxy)) ==>
                var message := EncodeMessage(r.proxy.id, r.opcode % 0x1_0000, vals);
                if message.None? then fault == Some(NotMarshalled) && Seen() == old(Seen())
                else if r.fds != [] && !isUnix then fault == Some(NoDescriptorPassing) && Seen() == old(Seen())
                else
                  && message == Some(data)
                  && Delivered(old(Seen()), Seen(), r.proxy, r.proxy.id, r.destructor, Packet(data, r.fds),
                               writer(old(writes)), fault)
    {
      if !Registered(r.proxy) {
        return Some(BadProxy), [];
      }
      fault, data := SendRequest(r.proxy.id, r.opcode % 0x1_0000, r.fds, r.proxy, r.destructor, vals);
    }

    /** `SendRequest` of `Display`: no guard, no descriptors. */
    method Tell(objectID: u32, opcode: u16, vals: seq<Arg>) returns (fault: Option<Fault>)
      modifies this`proxies, this`objects, this`wire, this`writes, this`open
      ensures var message := EncodeMessage(objectID, opcode, vals);
              && fault == TellFault(old(Seen()), message, closed, writer(old(writes)))
              && Seen() == Told(old(Seen()), message, closed, writer(old(writes)))
    {
      ghost var data;
      fault, data := SendRequest(objectID, opcode, [], null, false, vals);
    }

    /** The registered callback of `Sync`. */
    method NewCallback() returns (callback: Proxy)
      requires Valid()
      modifies this`proxies, this`objects, this`nextID, this`freeIDs, this`retiredIDs
      ensures Valid() && fresh(callback) && callback.callback && callback.context == Some(context)
      ensures Alloc() == Ids.Allocate(old(Alloc())).alloc && callback.id == Ids.Allocate(old(Alloc())).id
      ensures callback.id !in old(objects)
      ensures !closed ==> Seen() == Born(old(Seen()), callback.id, callback)
      ensures Unborn(Seen(), callback.id, callback) == old(Seen())
    {
      ghost var before := Seen();
      ghost var alloc := Alloc();
      var id := AllocateID();
      callback := new Proxy.Callback(context, id);
      FreshId(alloc, before, callback);
      Reborn(alloc, before, id, callback);
      Register(callback);
    }

    /** `Sync`: the callback is in the tables before the request that names it is written. */
    method Sync() returns (fault: Option<Fault>, callback: Proxy)
      requires Valid()
      modifies this`proxies, this`objects, this`wire, this`writes, this`open, this`nextID, this`freeIDs, this`retiredIDs
      ensures Valid() && fresh(callback) && callback.callback && callback.context == Some(context)
      ensures Alloc() == Ids.Allocate(old(Alloc())).alloc && callback.id == Ids.Allocate(old(Alloc())).id
      ensures callback.id !in old(objects)
      ensures var message := SyncMessage(callback.id);
              var v := if fault.None? then Born(old(Seen()), callback.id, callback) else old(Seen());
              && fault == TellFault(v, message, closed, writer(old(writes)))
              && Seen() == Told(v, message, closed, writer(old(writes)))
    {
      callback := NewCallback();
      fault := TellOrForget(callback, 1, 0, [ArgWord(callback.id)]);
    }

    /** `FindGlobal`: any announced global of that interface; Go's map order picks which. */
    method FindGlobal(iface: seq<byte>) returns (found: Option<Global>)
      ensures found.Some? ==>
                found.value.iface == iface && exists name | name in globals :: globals[name] == found.value
      ensures found.None? ==> forall name | name in globals :: globals[name].iface != iface
    {
      if name :| name in globals && globals[name].iface == iface {
        return Some(globals[name]);
      }
      return None;
    }

    /** Why `Bind` refuses a proxy that has the given ID. */
    function BindRefusal(p: Proxy, id: u32): (fault: Option<Fault>)
      reads this, p`context
    {
      if p.context.Some? && p.context != Some(context) then Some(ForeignProxy)
      else if id == 1 || id == REGISTRY_ID then Some(ReservedId)
      else if id in objects && objects[id] != Item.Live(p) then Some(IdInUse)
      else None
    }

    /** A proxy without ID or context gets them. */
    method Identify(p: Proxy)
      requires Valid()
      modifies this`nextID, this`freeIDs, this`retiredIDs, p`id, p`context
      ensures Valid()
      ensures if old(p.id) != 0 then p.id == old(p.id) && Alloc() == old(Alloc())
              else p.id == Ids.Allocate(old(Alloc())).id && Alloc() == Ids.Allocate(old(Alloc())).alloc
      ensures old(p.id) == 0 && p.id != 0 ==> Taken(Alloc(), p.id)
      ensures old(p.id) == 0 ==> p.id !in proxies && p.id !in objects
      ensures p.context == if old(p.context).None? then Some(context) else old(p.context)
    {
      if p.id == 0 {
        FreshId(Alloc(), Seen(), p);
        Ids.AllocateOk(Alloc());
        p.id := AllocateID();
      }
      if p.context.None? {
        p.context := Some(context);
      }
    }

    /** The first half of `Bind`: the proxy gets what it lacks and its places in the tables. */
    method Enrol(version: u32, p: Proxy) returns (fault: Option<Fault>)
      requires Valid()
      modifies this`proxies, this`objects, this`nextID, this`freeIDs, this`retiredIDs, p
      ensures fault.Some? || closed ==> Valid()
      ensures fault.None? && !closed ==> (Valid() <==> old(p.id == 0 || Taken(Alloc(), p.id)))
      ensures fault.None? ==> Consistent(Alloc(), Unborn(Seen(), p.id, p))
      ensures if old(p.id) != 0 then p.id == old(p.id) && Alloc() == old(Alloc())
              else p.id == Ids.Allocate(old(Alloc())).id && Alloc() == Ids.Allocate(old(Alloc())).alloc
      ensures fault == old(BindRefusal(p, p.id))
      ensures fault.Some? ==> Seen() == old(Seen()) && p.version == old(p.version)
      ensures fault.None? ==> p.version == version && p.context == Some(context)
      ensures fault.None? ==> Seen() == if closed then old(Seen()) else Born(old(Seen()), p.id, p)
      ensures fault.None? ==> Unborn(Seen(), p.id, p) == Unborn(old(Seen()), p.id, p)
      ensures old(p.id) == 0 ==> Unborn(old(Seen()), p.id, p) == old(Seen())
    {
      Identify(p);
      if p.context != Some(context) {
        return Some(ForeignProxy);
      }
      if p.id == 1 || p.id == REGISTRY_ID {
        return Some(ReservedId);
      }
      if p.id in objects && objects[p.id] != Item.Live(p) {
        return Some(IdInUse);
      }
      p.version := version;
      Reborn(Alloc(), Seen(), p.id, p);
      BornConsistent(Alloc(), Seen(), p.id, p);
      Register(p);
      return None;
    }

    /** What `Bind` refuses, in this order: a proxy of another display, a reserved ID, an ID under which something else
    is registered. */
    twostate predicate RefusesRight(p: Proxy, fault: Option<Fault>)
      reads this, p
    {
      var foreign := old(p.context).Some? && old(p.context) != Some(context);
      var reserved := old(p.id) == 1 || old(p.id) == REGISTRY_ID;
      var taken := old(p.id) in old(objects) && old(objects)[old(p.id)] != Item.Live(p);
      && (fault == Some(ForeignProxy) <==> foreign)
      && (fault == Some(ReservedId) <==> !foreign && reserved)
      && (fault == Some(IdInUse) <==> !foreign && !reserved && taken)
    }

    /** `Bind`. A proxy that already has an ID keeps it. The ID is not looked up in the allocator: the tables stay
    consistent exactly if it is outstanding. */
    method Bind(name: u32, iface: seq<byte>, version: u32, p: Proxy) returns (fault: Option<Fault>)
      requires Valid()
      modifies this`proxies, this`objects, this`wire, this`writes, this`open
      modifies this`nextID, this`freeIDs, this`retiredIDs, p
      ensures fault.Some? ==> Valid()
      ensures fault.None? ==> (Valid() <==> old(p.id == 0 || Taken(Alloc(), p.id)))
      ensures if old(p.id) != 0 then p.id == old(p.id) && Alloc() == old(Alloc())
              else p.id == Ids.Allocate(old(Alloc())).id && Alloc() == Ids.Allocate(old(Alloc())).alloc
      ensures var refusal := old(BindRefusal(p, p.id));
              if refusal.Some? then fault == refusal && Seen() == old(Seen()) && p.version == old(p.version)
              else p.version == version && p.context == Some(context)
      // a failed bind leaves the proxy in no table; one that was in none before leaves the tables as they were
      ensures old(BindRefusal(p, p.id)).None? ==>
                var message := BindMessage(name, iface, version, p.id);
                var v := if fault.None? then Born(old(Seen()), p.id, p) else Unborn(old(Seen()), p.id, p);
                && fault == TellFault(v, message, closed, writer(old(writes)))
                && Seen() == Told(v, message, closed, writer(old(writes)))
      ensures old(p.id) == 0 ==> Unborn(old(Seen()), p.id, p) == old(Seen())
      ensures RefusesRight(p, fault)
    {
      fault := Enrol(version, p);
      if fault.Some? {
        return;
      }
      fault := TellOrForget(p, REGISTRY_ID, 0, BindArgs(name, iface, version, p.id));
    }

    /** An unguarded send that names a proxy just registered, which is taken out again if it fails. */
    method TellOrForget(p: Proxy, obj: u32, opcode: u16, vals: seq<Arg>) returns (fault: Option<Fault>)
      modifies this`proxies, this`objects, this`wire, this`writes, this`open
      ensures var message := EncodeMessage(obj, opcode, vals);
              var v := if fault.None? then old(Seen()) else Unborn(old(Seen()), p.id, p);
              && fault == TellFault(v, message, closed, writer(old(writes)))
              && Seen() == Told(v, message, closed, writer(old(writes)))
      ensures Alloc() == old(Alloc())
      ensures if fault.None? then Valid() <==> old(Valid())
              else Valid() <==> Consistent(old(Alloc()), Unborn(old(Seen()), p.id, p))
    {
      ghost var v := Seen();
      fault := Tell(obj, opcode, vals);
      ToldTables(v, EncodeMessage(obj, opcode, vals), closed, writer(old(writes)), p.id, p);
      if fault.Some? {
        Unregister(p);
      }
    }

    /** How the bind of a global at the lower of the two versions ends. */
    twostate predicate BoundAs(g: Global, supported: u32, p: Proxy, fault: Option<Fault>)
      reads this, p
    {
      var refusal := old(BindRefusal(p, p.id));
      if refusal.Some? then fault == refusal
      else
        var message := BindMessage(g.name, g.iface, Negotiate(g.version, supported), p.id);
        var v := if fault.None? then Born(old(Seen()), p.id, p) else Unborn(old(Seen()), p.id, p);
        && fault == TellFault(v, message, closed, writer(old(writes)))
        && Seen() == Told(v, message, closed, writer(old(writes)))
    }

    /** `BindNegotiated`: what is bound is announced, and at the lower of the two versions. */
    method BindNegotiated(iface: seq<byte>, supported: u32, p: Proxy) returns (version: u32, fault: Option<Fault>)
      requires Valid()
      modifies this`proxies, this`objects, this`wire, this`writes, this`open
      modifies this`nextID, this`freeIDs, this`retiredIDs, p
      ensures fault.Some? ==> Valid()
      ensures fault.None? ==> (Valid() <==> old(p.id == 0 || Taken(Alloc(), p.id)))
      ensures supported == 0 || (forall name | name in old(globals) :: old(globals)[name].iface != iface) ==>
                fault.Some? && unchanged(this) && unchanged(p)
      ensures fault.None? ==>
                exists name | name in old(globals) ::
                  var g := old(globals)[name];
                  && g.iface == iface && g.version != 0 && version == Negotiate(g.version, supported)
                  && version == p.version && 1 <= version <= supported
                  && Seen() == Told(Born(old(Seen()), p.id, p), BindMessage(g.name, iface, version, p.id), false,
                                    writer(old(writes)))
      ensures fault.Some? ==> version == 0
      // it is refused for want of a version or of a global, and otherwise ends as the bind does
      ensures fault == Some(NoSupportedVersion) <==> supported == 0
      ensures fault == Some(GlobalNotFound) ==>
                || (forall name | name in old(globals) :: old(globals)[name].iface != iface)
                || (exists name | name in old(globals) ::
                      old(globals)[name].iface == iface && old(globals)[name].version == 0)
      ensures supported != 0 && fault != Some(GlobalNotFound) ==>
                exists name | name in old(globals) ::
                  && old(globals)[name].iface == iface && old(globals)[name].version != 0
                  && BoundAs(old(globals)[name], supported, p, fault)
    {
      if supported == 0 {
        return 0, Some(NoSupportedVersion);
      }
      var found := FindGlobal(iface);
      if found.None? || found.value.version == 0 {
        return 0, Some(GlobalNotFound);
      }
      var g := found.value;
      ghost var name :| name in globals && globals[name] == g;
      version := Negotiate(g.version, supported);
      fault := Bind(g.name, iface, version, p);
      assert old(globals)[name] == g && BoundAs(g, supported, p, fault);
      if fault.Some? {
        return 0, fault;
      }
    }

    /** `Registry.Dispatch`, up to the user's handlers: an accepted event changes the announced globals as its values
    say, null strings and odd padding included. */
    method RegistryEvent(opcode: u16, body: seq<byte>)
      modifies this`globals
      ensures forall parts | Matches(GLOBAL_KINDS, parts, SigText(GLOBAL_KINDS), body) && |body| < 0x1_0000_0000 ::
                opcode == 0 ==> globals == old(globals)[WordAt(parts[0]) := GlobalOf(parts)]
      ensures forall parts | Matches([KUint], parts, SigText([KUint]), body) && |body| < 0x1_0000_0000 ::
                opcode == 1 ==> globals == old(globals) - {WordAt(parts[0])}
      ensures opcode > 1 ==> globals == old(globals)
    {
      var event := new Event(body, []);
      if opcode == 0 {
        var name := event.Uint32();
        var iface := event.String();
        var version := event.Uint32();
        forall parts | Matches(GLOBAL_KINDS, parts, SigText(GLOBAL_KINDS), body) && |body| < 0x1_0000_0000
          ensures Global(name, iface, version) == GlobalOf(parts)
        {
          GlobalDecodes(parts, body);
        }
        globals := globals[name := Global(name, iface, version)];
      } else if opcode == 1 {
        var name := event.Uint32();
        forall parts | Matches([KUint], parts, SigText([KUint]), body) && |body| < 0x1_0000_0000
          ensures name == WordAt(parts[0])
        {
          DecodesPart([KUint], parts, 0);
        }
        globals := globals - {name};
      }
    }

    /** `Close`, as far as the sending half goes. */
    method Close()
      modifies this`closed, this`open
      ensures closed && (old(closed) || !open) && (old(closed) ==> open == old(open))
    {
      if !closed {
        closed, open := true, false;
      }
    }
  }
}

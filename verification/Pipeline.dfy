/** From the sender's arguments to the receiver's decoded values: marshalling, an arbitrarily cut byte stream, buffered
framing, validation and decoding put together (client.go `sendRequest`, `nextFrame`; signature.go; core.go decoders). */
module Pipeline {
  import opened Bytes
  import opened Calls
  import opened Codec
  import opened Errors
  import opened Receive
  import opened Signature
  import opened Wire

  /** A message whose arguments have the kinds its signature names. */
  datatype Typed = Typed(msg: Message, ks: seq<Kind>)

  predicate WellTyped(t: Typed) {
    Sendable(t.msg) && AllFit(t.ks, t.msg.args)
  }

  predicate AllWellTyped(ts: seq<Typed>) {
    forall i | 0 <= i < |ts| :: WellTyped(ts[i])
  }

  function Messages(ts: seq<Typed>): (ms: seq<Message>)
    requires AllWellTyped(ts)
    ensures |ms| == |ts| && forall i | 0 <= i < |ts| :: ms[i] == ts[i].msg
    ensures forall m | m in ms :: Sendable(m)
  {
    seq(|ts|, i requires 0 <= i < |ts| => ts[i].msg)
  }

  /** However much of the stream has come in, what can be framed is what was sent, from the first message on. */
  lemma FramedIsSent(ms: seq<Message>, rest: seq<byte>, got: seq<byte>, k: nat)
    requires forall m | m in ms :: Sendable(m)
    requires got <= WireBytes(ms) + rest && k <= |ms| && TakeFrames(k, got, 0).Taken?
    ensures TakeFrames(k, got, 0).frames == FramesOf(ms)[..k]
  {
    var all := WireBytes(ms) + rest;
    StreamRoundTrip(ms, rest);
    assert got + all[|got|..] == all;
    CutIndependence(k, |ms|, got, all[|got|..], 0);
  }

  /** Each message comes out as it went in: object, opcode, and argument by argument the value that was meant, with the
  body accepted by the validator and no decoder falling back. */
  lemma WholePipeline(ts: seq<Typed>, rest: seq<byte>, conn: nat -> Read, n: nat, k: nat, i: nat)
    requires AllWellTyped(ts)
    requires BytesUpTo(conn, n) <= WireBytes(Messages(ts)) + rest
    requires i < k <= |ts| && TakeFrames(k, BytesUpTo(conn, n), 0).Taken?
    ensures |TakeFrames(k, BytesUpTo(conn, n), 0).frames| == k
    ensures ComesThrough(ts[i], TakeFrames(k, BytesUpTo(conn, n), 0).frames[i])
  {
    FramedIsSent(Messages(ts), rest, BytesUpTo(conn, n), k);
    BodyComesThrough(ts[i]);
  }

  /** The frame carries the message: it passes the validator and decodes to what was meant. */
  ghost predicate ComesThrough(t: Typed, f: Frame)
    requires AllFit(t.ks, t.msg.args)
  {
    && f.obj == t.msg.obj && f.opcode == t.msg.opcode
    && Checks(SigText(t.ks), f.body)
    && forall j | 0 <= j < |t.ks| :: Means(DecodeAll(t.ks, f.body, 0)[j], t.msg.args[j])
  }

  /** A decoder read, without falling back, what an argument meant. */
  predicate Means(d: Decoded, a: Arg) {
    a != ArgInvalid && d.value == Meaning(a) && !d.fallback
  }

  lemma BodyComesThrough(t: Typed)
    requires WellTyped(t)
    ensures ComesThrough(t, FrameOf(t.msg))
  {
    PrintedBodyChecks(t.ks, t.msg.args);
    forall j | 0 <= j < |t.ks| ensures Means(DecodeAll(t.ks, FrameOf(t.msg).body, 0)[j], t.msg.args[j]) {
      BodyRoundTrip(t.ks, t.msg.args, j);
    }
  }

  /** The first `n` reads have no fault and bring all of the messages. */
  ghost predicate Arrives(conn: nat -> Read, n: nat, ms: seq<Message>)
    requires forall m | m in ms :: Sendable(m)
  {
    (forall k | 0 <= k < n :: FaultOf(conn(k)).None?) && WireBytes(ms) <= BytesUpTo(conn, n)
  }

  lemma {:induction false} GatheredIsStream(conn: nat -> Read, k: nat, unread: seq<byte>, frames: seq<Frame>, made: nat,
                                            n: nat)
    requires made <= n && TakeFrames(k, BytesUpTo(conn, made), 0) == Taken(frames, unread)
    ensures TakeFrames(k, BytesUpTo(conn, n), 0) == Taken(frames, Gathered(Chunks(conn), unread, made, n))
    decreases n
  {
    if made < n {
      GatheredIsStream(conn, k, unread, frames, made, n - 1);
      TakeFramesExtend(k, BytesUpTo(conn, n - 1), conn(n - 1).bytes, 0);
    }
  }

  /** While messages are missing, the next one can be framed from what the reads bring. */
  lemma NextIsThere(conn: nat -> Read, ms: seq<Message>, n: nat, k: nat, frames: seq<Frame>, unread: seq<byte>,
                    made: nat)
    requires (forall m | m in ms :: Sendable(m)) && Arrives(conn, n, ms) && k < |ms| && made <= n
    requires TakeFrames(k, BytesUpTo(conn, made), 0) == Taken(frames, unread)
    ensures Starts(Gathered(Chunks(conn), unread, made, n), 0, FrameOf(ms[k]))
  {
    var all := BytesUpTo(conn, n);
    var rest := all[|WireBytes(ms)|..];
    assert all == WireBytes(ms) + rest;
    StreamRoundTrip(ms, rest);
    GatheredIsStream(conn, k, unread, frames, made, n);
    FrameAfter(k, |ms|, all);
  }

  /** If `m` messages can be framed, then after the first `k` of them the next can. */
  lemma {:induction false} FrameAfter(k: nat, m: nat, s: seq<byte>)
    requires k < m && TakeFrames(m, s, 0).Taken?
    ensures TakeFrames(k, s, 0).Taken? && k < |TakeFrames(m, s, 0).frames|
    ensures Starts(TakeFrames(k, s, 0).rest, 0, TakeFrames(m, s, 0).frames[k])
  {
    if k > 0 {
      FrameAfter(k - 1, m - 1, ReadFrame(s, 0).rest);
    }
  }

  /** Successive `nextFrame` calls hand out what was sent, in order, however the bytes arrive: all of it if the reads
  that bring it have no fault, and otherwise a prefix. */
  method ReceiveAll(rx: Receiver, ghost ms: seq<Message>, ghost rest: seq<byte>, ghost n: nat, count: nat)
    returns (got: seq<Frame>, err: Option<Error>)
    requires rx.Valid() && rx.maxMsgLen == 0 && rx.delivered == []
    requires count == |ms| && forall m | m in ms :: Sendable(m)
    requires forall k :: BytesUpTo(rx.conn, k) <= WireBytes(ms) + rest
    modifies rx, rx.rbuf
    ensures rx.Valid() && got == rx.delivered && |got| <= |ms| && got == FramesOf(ms)[..|got|]
    ensures err.None? ==> got == FramesOf(ms)
    ensures Arrives(rx.conn, n, ms) && old(rx.readErr).None? && old(rx.readCount) <= n ==> err.None?
  {
    got, err := [], None;
    ghost var sure := Arrives(rx.conn, n, ms) && rx.readErr.None? && rx.readCount <= n;
    while |got| < count
      invariant rx.Valid() && (rx.rbuf == old(rx.rbuf) || fresh(rx.rbuf)) && err.None?
      invariant got == rx.delivered && |got| <= |ms| && got == FramesOf(ms)[..|got|]
      invariant sure ==> rx.readErr.None? && rx.readCount <= n
    {
      ghost var a := rx.Here();
      if sure {
        NextIsThere(rx.conn, ms, n, |got|, rx.delivered, a.unread, a.made);
      }
      var obj, opcode, body;
      obj, opcode, body, err := rx.NextFrame();
      ghost var out := if err.Some? then Failed(err.value) else Got(rx.delivered[|got|]);
      if sure {
        CallDelivers(Chunks(rx.conn), 0, rx.closed, a, rx.Here(), out, n, FrameOf(ms[|got|]));
      }
      if err.Some? {
        return;
      }
      got := got + [Frame(obj, opcode, body.arr[body.lo..body.hi])];
      FramedIsSent(ms, rest, rx.Stream(), |got|);
    }
  }
}

/** The buffered receive path of `Display` (client.go `nextFrame`, `fill`; scm_linux.go `readChunk`): a compacting
framer over arbitrarily cut reads, against repeated `ReadFrame` on the whole stream. */
module Receive {
  import opened Bytes
  import opened Calls
  import opened Errors
  import opened Wire
  import Control

  // ------------------------------------------------------------- one read

  datatype IOError = IOEof | IODeadline | IOOther(code: int)

  /** One `ReadMsgUnix`: the bytes read, the control data, whether it was truncated, and the error. */
  datatype RawRead = RawRead(bytes: seq<byte>, oob: seq<byte>, ctrunc: bool, err: Option<IOError>)

  /** The descriptors a read brings: those of its control messages, up to a malformed one. */
  function FdsOf(r: RawRead): seq<int>
    requires !Control.Walk(r.oob).Panics?
  {
    Control.Walk(r.oob).fds
  }

  /** The error `readChunk` reports for a read. */
  function FaultOf(r: RawRead): Option<Error> {
    if r.ctrunc then Some(Protocol(ControlTruncated))
    else if Control.Walk(r.oob).Malformed? then Some(Protocol(MalformedControl))
    else SocketError(r.err)
  }

  function SocketError(err: Option<IOError>): (e: Option<Error>)
    ensures e.Some? ==> e.value in {Eof, Deadline} || e.value.Transport?
  {
    match err
    case None => None
    case Some(IOEof) => Some(Eof)
    case Some(IODeadline) => Some(Deadline)
    case Some(IOOther(code)) => Some(Transport(code))
  }

  /** A read fills at most the scratch buffer and makes progress or fails; the kernel passes whole descriptors. */
  ghost predicate Possible(r: RawRead) {
    && |r.bytes| <= READ_CHUNK_SIZE
    && (forall oob | oob == r.oob :: !Control.Walk(oob).Panics?)
    && (forall q | q == r :: q.bytes == [] ==> FaultOf(q).Some?)
  }

  type Read = r: RawRead | Possible(r) witness RawRead([], [], false, Some(IOEof))

  /** `readChunk` on what the socket returned: no descriptor it brought is dropped, whatever goes wrong; truncation is
  reported first, then malformed control data, and the socket's own error only if there is neither. */
  method ReadMsg(r: RawRead) returns (fds: seq<int>, err: Option<Error>)
    requires !Control.Walk(r.oob).Panics?
    ensures fds == FdsOf(r) && err == FaultOf(r)
  {
    err := SocketError(r.err);
    fds := [];
    if |r.oob| > 0 {
      var out := Control.ParseFDs(r.oob);
      fds := out.fds;
      if out.Malformed? {
        err := Some(Protocol(MalformedControl));
      }
    }
    if r.ctrunc {
      err := Some(Protocol(ControlTruncated));
    }
  }

  /** What a read brings. (Bound, so that only proofs that name the parse look into it.) */
  ghost predicate Brings(r: RawRead, chunk: seq<byte>, fault: Option<Error>, fds: seq<int>) {
    && chunk == r.bytes
    && forall q | q == r && !Control.Walk(q.oob).Panics? :: fault == FaultOf(q) && fds == FdsOf(q)
  }

  /** Everything the first `n` reads of a connection delivered. */
  function BytesUpTo(conn: nat -> Read, n: nat): seq<byte> {
    if n == 0 then [] else BytesUpTo(conn, n - 1) + conn(n - 1).bytes
  }

  function FdsUpTo(conn: nat -> Read, n: nat): seq<int> {
    if n == 0 then [] else FdsUpTo(conn, n - 1) + FdsOf(conn(n - 1))
  }

  /** What the kernel put into the control data of a read: messages laid out one after the other, possibly cut off in
  the middle of a header. */
  datatype Written = Written(ms: seq<Control.Cmsg>, junk: seq<byte>)

  type Rights = c: Written | Control.Tight(c.ms) witness Written([], [])

  ghost predicate LaidOut(r: RawRead, c: Rights) {
    if c.junk == [] then Control.Tight(c.ms) && r.oob == Control.LayoutAll(c.ms)
    else Control.AllPadded(c.ms) && Control.BadHeader(c.junk) && r.oob == Control.LayoutAll(c.ms) + c.junk
  }

  function CarriedUpTo(control: nat -> Rights, n: nat): seq<int> {
    if n == 0 then [] else CarriedUpTo(control, n - 1) + Control.Carried(control(n - 1).ms)
  }

  /** The descriptors that arrive are those the sender attached, read after read, in order; a malformed or cut-off
  control message costs only itself. */
  lemma {:induction false} ArrivalsAreCarried(conn: nat -> Read, control: nat -> Rights, n: nat)
    requires forall k | 0 <= k < n :: LaidOut(conn(k), control(k))
    ensures FdsUpTo(conn, n) == CarriedUpTo(control, n)
  {
    if n > 0 {
      ArrivalsAreCarried(conn, control, n - 1);
      assert LaidOut(conn(n - 1), control(n - 1));
      OneArrival(conn(n - 1), control(n - 1));
    }
  }

  /** One read: its descriptors, and malformed control data reported exactly if there is some. */
  lemma OneArrival(r: RawRead, c: Rights)
    requires LaidOut(r, c)
    ensures !Control.Walk(r.oob).Panics? && FdsOf(r) == Control.Carried(c.ms)
    ensures !r.ctrunc ==> FaultOf(r) == if c.junk == [] then SocketError(r.err) else Some(Protocol(MalformedControl))
  {
    if c.junk == [] {
      Control.WalkWellFormed(c.ms);
    } else {
      Control.WalkMalformed(c.ms, c.junk);
    }
  }

  /** The reads as `nextFrame` sees them. */
  function Chunks(conn: nat -> Read): nat -> Chunk {
    (n: nat) => Chunk(conn(n).bytes, FaultOf(conn(n)))
  }

  /** Truncated control data ends the call that reads it. */
  lemma TruncationIsFatal(conn: nat -> Read, max: u32, closed: bool, a: Point, c: Point, out: Result)
    requires Concluded(Chunks(conn), Looker(max), closed, a, c, out) && a.made < c.made && conn(c.made - 1).ctrunc
    ensures out == Failure(Protocol(ControlTruncated), closed) && c.err == Some(Protocol(ControlTruncated))
  {
    LastReport(Chunks(conn), Looker(max), closed, a, c, out);
  }

  /** Repeated `ReadFrame` takes exactly these frames from a stream and leaves exactly this rest. (The count is bound so
  that only proofs that name it look any further.) */
  ghost predicate Framing(stream: seq<byte>, max: u32, frames: seq<Frame>, rest: seq<byte>) {
    forall k | k == |frames| :: TakeFrames(k, stream, max) == Taken(frames, rest)
  }

  lemma NextFraming(stream: seq<byte>, max: u32, frames: seq<Frame>, unread: seq<byte>, f: Frame, rest: seq<byte>)
    requires Framing(stream, max, frames, unread) && ReadFrame(unread, max) == Framed(f, rest)
    ensures Framing(stream, max, frames + [f], rest)
  {
    TakeFramesSnoc(|frames|, stream, max);
  }

  /** The first `n` reads brought exactly these descriptors. */
  ghost predicate Queueing(conn: nat -> Read, n: nat, fds: seq<int>) {
    forall k | k == n :: FdsUpTo(conn, k) == fds
  }

  // ----------------------------------------------------------- the receiver

  /** A message body: a window into the receive buffer, not a copy. */
  datatype View = View(arr: array<byte>, lo: nat, hi: nat)

  class Receiver {
    const conn: nat -> Read
    const maxMsgLen: u32
    var readCount: nat
    var rbuf: array<byte>
    var rlen: nat
    var rpos: nat
    var readErr: Option<Error>
    var pendingFDs: seq<int>
    var closed: bool
    ghost var delivered: seq<Frame>  // the frames returned so far
    ghost var dequeued: seq<int>     // the descriptors that have left the queue, in order

    /** All bytes received so far, however they were cut. */
    ghost function Stream(): seq<byte>
      reads this`readCount
    {
      BytesUpTo(conn, readCount)
    }

    ghost predicate BufferOk()
      reads this`rbuf, this`rlen, this`rpos
    {
      rpos <= rlen <= rbuf.Length
    }

    /** Received bytes not framed yet. */
    ghost function Unread(): seq<byte>
      reads this`rbuf, this`rlen, this`rpos, rbuf
      requires BufferOk()
    {
      rbuf[rpos..rlen]
    }

    ghost function Here(): Point
      reads this`readCount, this`rbuf, this`rlen, this`rpos, this`readErr, rbuf
      requires BufferOk()
    {
      Point(readCount, Unread(), readErr)
    }

    /** The frames returned so far are exactly those repeated `ReadFrame` takes from the stream, and the buffer holds
    exactly what it leaves; the buffer never exceeds an incomplete message and one chunk; and descriptors leave the
    queue in the order they arrived. */
    ghost predicate Valid()
      reads this, rbuf
    {
      && BufferOk()
      && rlen <= 65531 + READ_CHUNK_SIZE
      && (readErr.Some? ==> Sticky(readErr.value))
      && Framing(Stream(), maxMsgLen, delivered, Unread())
      && Queueing(conn, readCount, dequeued + pendingFDs)
    }

    /** Why `nextFrame` fails: in particular an end of stream or a transport error surfaces only once no complete
    message is left in the buffer. */
    ghost predicate Explained(e: Error)
      reads this, rbuf
      requires BufferOk()
    {
      match e
      case Protocol(BadFrameHeader(fault)) => ReadFrame(Unread(), maxMsgLen) == Malformed(fault)
      case Protocol(_) => Sticky(e) && readErr == Some(e)
      case Deadline => readErr == None
      case Closed => closed
      case _ =>
        Sticky(e) && readErr == Some(e) &&
        !ReadFrame(Unread(), maxMsgLen).Framed? && !ReadFrame(Unread(), maxMsgLen).Malformed?
    }

    constructor (conn: nat -> Read, maxMsgLen: u32)
      ensures Valid() && fresh(rbuf)
      ensures this.conn == conn && this.maxMsgLen == maxMsgLen
      ensures readCount == 0 && delivered == [] && dequeued == [] && pendingFDs == [] && readErr == None && !closed
    {
      this.conn := conn;
      this.maxMsgLen := maxMsgLen;
      readCount, rlen, rpos := 0, 0, 0;
      rbuf := new byte[0];
      readErr, pendingFDs, closed := None, [], false;
      delivered, dequeued := [], [];
    }

    /** Moves the unread bytes to the front of the buffer. */
    method Compact()
      requires BufferOk()
      modifies this`rlen, this`rpos, rbuf
      ensures BufferOk() && rpos == 0 && Unread() == old(Unread())
    {
      if rpos == 0 {
        return;
      }
      var buf, from, n := rbuf, rpos, rlen - rpos;
      ghost var unread := Unread();
      for i := 0 to n
        invariant forall j | 0 <= j < i :: buf[j] == unread[j]
        invariant forall j | from + i <= j < from + n :: buf[j] == unread[j - from]
        modifies buf
      {
        buf[i] := buf[from + i];
      }
      rlen, rpos := n, 0;
      assert Unread() == unread;
    }

    /** Adds a chunk behind the buffered bytes: in place while it fits, else in a larger array. */
    method Append(chunk: seq<byte>)
      requires BufferOk() && rpos == 0
      modifies this`rbuf, this`rlen, rbuf
      ensures BufferOk() && rpos == 0 && Unread() == old(Unread()) + chunk
      ensures rbuf == old(rbuf) || fresh(rbuf)
    {
      ghost var was := Unread();
      if rlen + |chunk| > rbuf.Length {
        var bigger := new byte[2 * rbuf.Length + |chunk|];
        forall i | 0 <= i < rlen {
          bigger[i] := rbuf[i];
        }
        rbuf := bigger;
        assert Unread() == was;
      }
      forall i | 0 <= i < |chunk| {
        rbuf[rlen + i] := chunk[i];
      }
      rlen := rlen + |chunk|;
      assert rbuf[..rlen - |chunk|] == was;
    }

    /** One read; its descriptors are queued even when it also reports an error. */
    method ReadChunk() returns (chunk: seq<byte>, err: Option<Error>, ghost fds: seq<int>)
      modifies this`readCount, this`pendingFDs
      ensures readCount == old(readCount) + 1 && pendingFDs == old(pendingFDs) + fds
      ensures Brings(conn(old(readCount)), chunk, err, fds)
    {
      var r := conn(readCount);
      readCount := readCount + 1;
      var received;
      received, err := ReadMsg(r);
      pendingFDs := pendingFDs + received;
      chunk, fds := r.bytes, received;
    }

    /** The data half of `fill`: compact once per read, then append what was read. */
    method Pull() returns (chunk: seq<byte>, fault: Option<Error>, ghost fds: seq<int>)
      requires BufferOk()
      modifies this`readCount, this`rbuf, this`rlen, this`rpos, this`pendingFDs, rbuf
      ensures BufferOk() && (rbuf == old(rbuf) || fresh(rbuf))
      ensures rlen == old(rlen - rpos) + |chunk| && Unread() == old(Unread()) + chunk
      ensures readCount == old(readCount) + 1 && pendingFDs == old(pendingFDs) + fds
      ensures Brings(conn(old(readCount)), chunk, fault, fds)
    {
      ghost var unread := Unread();
      Compact();
      chunk, fault, fds := ReadChunk();
      assert Unread() == unread;
      Append(chunk);
      assert |Unread()| == |unread| + |chunk|;
    }

    /** `closePendingFDs`: empties the queue and returns the descriptors it closed, in order. */
    method ClosePendingFDs() returns (shut: seq<int>)
      modifies this`pendingFDs, this`dequeued
      ensures pendingFDs == [] && dequeued == old(dequeued + pendingFDs) && shut == Owned(old(pendingFDs))
    {
      var fds := pendingFDs;
      dequeued := dequeued + pendingFDs;
      pendingFDs := [];
      shut := [];
      for i := 0 to |fds|
        invariant shut == Owned(fds[..i])
      {
        assert fds[..i + 1][..i] == fds[..i];
        if fds[i] >= 0 {
          shut := shut + [fds[i]];
        }
      }
      assert fds[..|fds|] == fds;
    }

    /** What one read does to the framing state. */
    lemma MoreBytes(n: nat, unread: seq<byte>)
      requires Framing(BytesUpTo(conn, n), maxMsgLen, delivered, unread)
      ensures Framing(BytesUpTo(conn, n + 1), maxMsgLen, delivered, unread + conn(n).bytes)
    {
      TakeFramesExtend(|delivered|, BytesUpTo(conn, n), conn(n).bytes, maxMsgLen);
    }

    lemma MoreFds(n: nat, pending: seq<int>, chunk: seq<byte>, fault: Option<Error>, fds: seq<int>)
      requires Queueing(conn, n, dequeued + pending) && Brings(conn(n), chunk, fault, fds)
      ensures Queueing(conn, n + 1, dequeued + (pending + fds))
    {
      assert fds == FdsOf(conn(n));
      assert FdsUpTo(conn, n + 1) == FdsUpTo(conn, n) + fds;
      Reassociate(dequeued, pending, fds);
    }

    /** `fill`: reads one chunk behind the unread bytes. A deadline is reported but not remembered; a control failure is
    reported at once; any other error waits until the bytes that came with it have been framed. */
    method Fill() returns (err: Option<Error>)
      requires Valid() && rlen - rpos <= 65531
      modifies this`readCount, this`rbuf, this`rlen, this`rpos, this`readErr, this`pendingFDs, rbuf
      ensures Valid() && (rbuf == old(rbuf) || fresh(rbuf))
      ensures old(readErr).Some? ==>
                && err == readErr == old(readErr) && readCount == old(readCount)
                && pendingFDs == old(pendingFDs) && Unread() == old(Unread())
      ensures old(readErr).None? ==>
                && readCount == old(readCount) + 1
                && Unread() == old(Unread()) + conn(old(readCount)).bytes
                && pendingFDs == old(pendingFDs) + FdsOf(conn(old(readCount)))
                && (err.None? ==> conn(old(readCount)).bytes != [])
                && Settled(FaultOf(conn(old(readCount))), conn(old(readCount)).bytes == [], err, readErr)
      ensures readCount == old(readCount) ==> rbuf == old(rbuf) && unchanged(old(rbuf))
    {
      if readErr.Some? {
        return readErr;
      }
      var chunk, fault;
      ghost var fds;
      chunk, fault, fds := PullMore();
      assert fault == FaultOf(conn(old(readCount))) && fds == FdsOf(conn(old(readCount)));
      var now, sticky := Settle(fault, chunk == []);
      readErr := sticky;
      return now;
    }

    /** `Pull`, which keeps what is known of frames and descriptors. */
    method PullMore() returns (chunk: seq<byte>, fault: Option<Error>, ghost fds: seq<int>)
      requires Valid() && rlen - rpos <= 65531
      modifies this`readCount, this`rbuf, this`rlen, this`rpos, this`pendingFDs, rbuf
      ensures Valid() && (rbuf == old(rbuf) || fresh(rbuf))
      ensures readCount == old(readCount) + 1 && pendingFDs == old(pendingFDs) + fds
      ensures Unread() == old(Unread()) + chunk && Brings(conn(old(readCount)), chunk, fault, fds)
    {
      MoreBytes(readCount, Unread());
      chunk, fault, fds := Pull();
      MoreFds(old(readCount), old(pendingFDs), chunk, fault, fds);
    }

    /** The error half of `fill`: what to report now and what to remember. */
    static method Settle(fault: Option<Error>, empty: bool) returns (now: Option<Error>, sticky: Option<Error>)
      ensures Settled(fault, empty, now, sticky)
    {
      if fault.None? {
        return None, None;
      }
      var err := fault.value;
      if err == Eof {
        err := UnexpectedEof;
      }
      if err == Deadline {
        return Some(err), None;
      }
      if empty || err.Protocol? {
        return Some(err), Some(err);
      }
      return None, Some(err);
    }

    /** The header check of `nextFrame`: what the unread bytes start with. */
    method Peek() returns (head: Head)
      requires BufferOk() && rlen <= 65531 + READ_CHUNK_SIZE
      ensures match head
              case Complete(obj, opcode, size) =>
                HEADER_SIZE <= size <= rlen - rpos &&
                ReadFrame(Unread(), maxMsgLen) ==
                Framed(Frame(obj, opcode, Unread()[HEADER_SIZE..size]), Unread()[size..])
              case BadHead(fault) => ReadFrame(Unread(), maxMsgLen) == Malformed(fault)
              case Incomplete =>
                rlen - rpos <= 65531 &&
                !ReadFrame(Unread(), maxMsgLen).Framed? && !ReadFrame(Unread(), maxMsgLen).Malformed?
    {
      if rlen - rpos >= HEADER_SIZE {
        var max := if maxMsgLen == 0 then DEFAULT_MAX_MESSAGE_SIZE else maxMsgLen;
        assert rbuf[rpos..rpos + HEADER_SIZE] == Unread()[..HEADER_SIZE];
        var hdr := ParseHeader(rbuf[rpos..rpos + HEADER_SIZE], max);
        if hdr.BadHeader? {
          return BadHead(hdr.fault);
        }
        ToUint32IsExact(rlen - rpos);
        if ToUint32(rlen - rpos) >= hdr.size {
          return Complete(hdr.obj, hdr.opcode, hdr.size);
        }
      }
      UnframedIsShort(Unread(), maxMsgLen);
      return Incomplete;
    }

    /** What a caller of `fill` can go by: more bytes, or a deadline, or an error that is remembered, which leaves the
    unread bytes alone unless it is a control failure. */
    method Refilled() returns (err: Option<Error>)
      requires Valid() && rlen - rpos <= 65531
      modifies this`readCount, this`rbuf, this`rlen, this`rpos, this`readErr, this`pendingFDs, rbuf
      ensures Valid() && (rbuf == old(rbuf) || fresh(rbuf))
      ensures err.None? ==> rlen - rpos > old(rlen - rpos) && readCount > old(readCount)
      ensures err.Some? ==>
                || (err.value == Deadline && readErr.None?)
                || (Sticky(err.value) && readErr == err && (err.value.Protocol? || Unread() == old(Unread())))
      ensures readCount >= old(readCount)
      ensures old(readErr).Some? ==> err == old(readErr) && Unread() == old(Unread())
      ensures old(readErr).None? ==>
                && readCount == old(readCount) + 1
                && Unread() == old(Unread()) + conn(old(readCount)).bytes
                && readErr == Remembered(FaultOf(conn(old(readCount))))
                && err == Reported(FaultOf(conn(old(readCount))), conn(old(readCount)).bytes == [])
      ensures old(readErr).Some? ==> readErr == old(readErr) && readCount == old(readCount)
      ensures readCount == old(readCount) ==> rbuf == old(rbuf) && unchanged(old(rbuf))
    {
      err := Fill();
      if old(readErr).None? {
        SettledMeans(FaultOf(conn(old(readCount))), conn(old(readCount)).bytes == [], err, readErr);
      }
      assert |Unread()| == rlen - rpos;
    }

    /** The reading half of `nextFrame`'s loop: a failed `fill` ends it, as `net.ErrClosed` if the display was closed.
    */
    method Refill() returns (err: Option<Error>)
      requires Valid() && rlen - rpos <= 65531
      requires !ReadFrame(Unread(), maxMsgLen).Framed? && !ReadFrame(Unread(), maxMsgLen).Malformed?
      modifies this`readCount, this`rbuf, this`rlen, this`rpos, this`readErr, this`pendingFDs, rbuf
      ensures Valid() && (rbuf == old(rbuf) || fresh(rbuf))
      ensures err.Some? ==> Explained(err.value)
      ensures err.None? ==> rlen - rpos > old(rlen - rpos) && readCount > old(readCount)
      ensures readCount >= old(readCount)
      ensures var out := if err.Some? then Some(Failed(err.value)) else None;
              TurnOk(Chunks(conn), Looker(maxMsgLen), closed, old(Here()), Here(), out)
      ensures old(readErr).Some? ==> readErr == old(readErr) && readCount == old(readCount)
      ensures readCount == old(readCount) ==> rbuf == old(rbuf) && unchanged(old(rbuf))
    {
      err := Refilled();
      if err.Some? && closed {
        err := Some(Closed);
      }
    }

    /** `nextFrame`: the next complete message, reading as often as needed. It terminates because every read that does
    not fail adds bytes and no message exceeds its 16-bit size. */
    method NextFrame() returns (obj: u32, opcode: u16, body: View, err: Option<Error>)
      requires Valid()
      modifies this, rbuf
      ensures Valid() && (rbuf == old(rbuf) || fresh(rbuf)) && closed == old(closed) && dequeued == old(dequeued)
      ensures readCount >= old(readCount)
      ensures err.None? ==>
                && body.arr == rbuf && body.lo <= body.hi <= rpos
                && delivered == old(delivered) + [Frame(obj, opcode, rbuf[body.lo..body.hi])]
      ensures err.Some? ==> delivered == old(delivered) && Explained(err.value)
      // a message already buffered is returned without reading
      ensures ReadFrame(old(Unread()), maxMsgLen).Framed? ==> err.None? && readCount == old(readCount)
      // a remembered error stops reading for good
      ensures old(readErr).Some? ==> readErr == old(readErr) && readCount == old(readCount)
      // how far it reads and what it returns are what the call must do, and nothing else
      ensures var out := if err.Some? then Failed(err.value) else Got(delivered[|old(delivered)|]);
              Concluded(Chunks(conn), Looker(maxMsgLen), closed, old(Here()), Here(), out)
      // bodies handed out earlier keep their bytes until the next read
      ensures readCount == old(readCount) ==> rbuf == old(rbuf) && unchanged(old(rbuf))
    {
      ghost var ready := ReadFrame(Unread(), maxMsgLen).Framed?;
      ghost var start := Here();
      while true
        invariant Valid() && (rbuf == old(rbuf) || fresh(rbuf)) && closed == old(closed) && dequeued == old(dequeued)
        invariant delivered == old(delivered) && readCount >= old(readCount)
        invariant readCount > old(readCount) ==> !ready && old(readErr).None?
        invariant readCount == old(readCount) ==> readErr == old(readErr) && rbuf == old(rbuf) && unchanged(old(rbuf))
        invariant readCount == old(readCount) ==> ReadFrame(Unread(), maxMsgLen).Framed? == ready
        invariant Underway(Chunks(conn), Looker(maxMsgLen), start, Here())
        decreases 65536 + READ_CHUNK_SIZE - (rlen - rpos)
      {
        var got;
        ghost var here := Here();
        got, obj, opcode, body, err := Attempt();
        if got || err.Some? {
          ghost var out := if err.Some? then Failed(err.value) else Got(delivered[|old(delivered)|]);
          TurnEnds(Chunks(conn), Looker(maxMsgLen), closed, start, here, Here(), out);
          return;
        }
        TurnGoesOn(Chunks(conn), Looker(maxMsgLen), closed, start, here, Here());
      }
    }

    /** Once around the loop: the frame at the front if there is one, else one read. */
    method Attempt() returns (got: bool, obj: u32, opcode: u16, body: View, err: Option<Error>)
      requires Valid()
      modifies this, rbuf
      ensures Valid() && (rbuf == old(rbuf) || fresh(rbuf)) && closed == old(closed) && dequeued == old(dequeued)
      ensures got ==>
                && err.None? && readCount == old(readCount) && readErr == old(readErr)
                && body.arr == rbuf && body.lo <= body.hi <= rpos
                && delivered == old(delivered) + [Frame(obj, opcode, rbuf[body.lo..body.hi])]
      ensures got <==> ReadFrame(old(Unread()), maxMsgLen).Framed?
      ensures var out := if got then Some(Got(delivered[|old(delivered)|]))
                         else if err.Some? then Some(Failed(err.value)) else None;
              TurnOk(Chunks(conn), Looker(maxMsgLen), closed, old(Here()), Here(), out)
      ensures !got ==> delivered == old(delivered) && readCount >= old(readCount)
      ensures err.Some? ==> Explained(err.value)
      ensures !got && err.None? ==> rlen - rpos > old(rlen - rpos) && readCount > old(readCount)
      ensures old(readErr).Some? ==> readErr == old(readErr) && readCount == old(readCount)
      ensures readCount == old(readCount) ==> rbuf == old(rbuf) && unchanged(old(rbuf))
    {
      got, obj, opcode, body, err := false, 0, 0, View(rbuf, 0, 0), None;
      var head := Peek();
      if head.BadHead? {
        err := Some(Protocol(BadFrameHeader(head.fault)));
      } else if head.Complete? {
        body := TakeHead(head);
        got, obj, opcode := true, head.obj, head.opcode;
      } else {
        err := Refill();
      }
    }

    lemma RestSlice(size: nat)
      requires BufferOk() && size <= rlen - rpos
      ensures Unread()[size..] == rbuf[rpos + size..rlen]
    {
      var buf := rbuf[..];
      SliceOfSlice(buf, rpos, rlen, 0, size);
      assert buf[rpos..rlen] == Unread();
      assert buf[rpos + size..rlen] == rbuf[rpos + size..rlen];
    }

    lemma BodySlice(size: nat)
      requires BufferOk() && HEADER_SIZE <= size <= rlen - rpos
      ensures Unread()[HEADER_SIZE..size] == rbuf[rpos + HEADER_SIZE..rpos + size]
    {
      var buf := rbuf[..];
      SliceOfSlice(buf, rpos, rlen, HEADER_SIZE, size);
      assert buf[rpos..rlen] == Unread();
      assert buf[rpos + HEADER_SIZE..rpos + size] == rbuf[rpos + HEADER_SIZE..rpos + size];
    }

    /** Hands out the body as a window into the buffer and moves past it; the frame goes on the ghost record. */
    method Deliver(size: nat, ghost f: Frame) returns (body: View)
      requires Valid() && HEADER_SIZE <= size <= rlen - rpos && f.body == Unread()[HEADER_SIZE..size]
      requires Framing(Stream(), maxMsgLen, delivered + [f], rbuf[rpos + size..rlen])
      modifies this`rpos, this`delivered
      ensures Valid() && body.arr == rbuf && body.lo <= body.hi <= rpos
      ensures delivered == old(delivered) + [f] && f.body == rbuf[body.lo..body.hi]
      ensures rpos == old(rpos) + size
    {
      body := View(rbuf, rpos + HEADER_SIZE, rpos + size);
      BodySlice(size);
      rpos := rpos + size;
      delivered := delivered + [f];
    }

    method TakeHead(head: Head) returns (body: View)
      requires Valid() && head.Complete? && HEADER_SIZE <= head.size <= rlen - rpos
      requires ReadFrame(Unread(), maxMsgLen) ==
               Framed(Frame(head.obj, head.opcode, Unread()[HEADER_SIZE..head.size]), Unread()[head.size..])
      modifies this`rpos, this`delivered
      ensures Valid() && body.arr == rbuf && body.lo <= body.hi <= rpos
      ensures delivered == old(delivered) + [Frame(head.obj, head.opcode, rbuf[body.lo..body.hi])]
      ensures rbuf[body.lo..body.hi] == old(Unread())[HEADER_SIZE..head.size]
      ensures Unread() == old(Unread())[head.size..]
    {
      ghost var f := Frame(head.obj, head.opcode, Unread()[HEADER_SIZE..head.size]);
      NextFraming(Stream(), maxMsgLen, delivered, Unread(), f, Unread()[head.size..]);
      RestSlice(head.size);
      body := Deliver(head.size, f);
    }
  }

  datatype Head = Complete(obj: u32, opcode: u16, size: u32) | BadHead(fault: HeaderFault) | Incomplete

  /** The errors `fill` remembers. */
  predicate Sticky(e: Error) {
    e == UnexpectedEof || e.Transport? || e == Protocol(MalformedControl) || e == Protocol(ControlTruncated)
  }

  /** How a read's fault becomes the error reported now and the error remembered. */
  predicate Settled(fault: Option<Error>, empty: bool, now: Option<Error>, sticky: Option<Error>) {
    match fault
    case None => now == None && sticky == None
    case Some(Deadline) => now == Some(Deadline) && sticky == None
    case Some(e) =>
      var e' := if e == Eof then UnexpectedEof else e;
      sticky == Some(e') && now == if empty || e'.Protocol? then Some(e') else None
  }

  lemma SettledMeans(fault: Option<Error>, empty: bool, now: Option<Error>, sticky: Option<Error>)
    ensures Settled(fault, empty, now, sticky) <==> now == Reported(fault, empty) && sticky == Remembered(fault)
  {
  }

  /** The entries of the queue that name a descriptor. */
  function Owned(fds: seq<int>): seq<int> {
    if fds == [] then [] else
    var last := |fds| - 1;
    Owned(fds[..last]) + (if fds[last] >= 0 then [fds[last]] else [])
  }

  /** All descriptors are among them, as often as they were queued, and nothing else is. */
  lemma {:induction false} OwnedExactly(fds: seq<int>, fd: int)
    ensures multiset(Owned(fds))[fd] == if fd >= 0 then multiset(fds)[fd] else 0
  {
    if fds != [] {
      var last := |fds| - 1;
      OwnedExactly(fds[..last], fd);
      assert fds == fds[..last] + [fds[last]];
    }
  }

  lemma {:induction false} OwnedConcat(a: seq<int>, b: seq<int>)
    ensures Owned(a + b) == Owned(a) + Owned(b)
    decreases |b|
  {
    if b == [] {
      assert a + b == a;
    } else {
      var last := |b| - 1;
      OwnedConcat(a, b[..last]);
      assert (a + b)[..|a| + last] == a + b[..last];
    }
  }
}

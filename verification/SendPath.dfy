// tcp_send and tcp_flush over the ring: the bytes on the wire followed by the queued bytes form one stream, which
// every send extends by its own data and nothing else.

module SendPath {
  import opened Basics
  import opened SendQueue

  /** What the kernel makes of one call: it takes some bytes, would block, or reports an error. */
  datatype Answer = Takes(n: nat) | Blocks | Fails

  /** What one call came to. */
  datatype Call = Took(n: nat) | WouldBlock | Failed

  predicate Moving(c: Call) { c.Took? && c.n > 0 }

  predicate Ended(calls: seq<Call>, c: Call) { calls != [] && calls[|calls| - 1] == c }

  /** Every call moved bytes, except perhaps the last. */
  predicate MovingButLast(calls: seq<Call>) { forall i | 0 <= i < |calls| - 1 :: Moving(calls[i]) }

  /** A socket whose answers are fixed in advance, whatever they are; when they run out it blocks. */
  class Socket {
    var answers: seq<Answer>
    ghost var wire: seq<Byte>
    ghost var calls: seq<Call>

    /** Whether errno says that the call would have blocked; a call that takes bytes leaves it alone. */
    var wouldBlock: bool

    constructor (answers: seq<Answer>)
      ensures this.answers == answers && wire == [] && calls == [] && !wouldBlock
    {
      this.answers, wire, calls, wouldBlock := answers, [], [], false;
    }

    /** The number of bytes taken, or None with errno set, as the next answer has it. */
    method Send(data: seq<Byte>) returns (r: Option<nat>)
      requires data != []
      modifies this
      ensures answers == if old(answers) == [] then [] else old(answers)[1..]
      ensures match if old(answers) == [] then Blocks else old(answers)[0]
        case Takes(n) =>
          && r == Some(if n < |data| then n else |data|) && wire == old(wire) + data[..r.value]
          && calls == old(calls) + [Took(r.value)] && wouldBlock == old(wouldBlock)
        case Blocks => r == None && wire == old(wire) && calls == old(calls) + [WouldBlock] && wouldBlock
        case Fails => r == None && wire == old(wire) && calls == old(calls) + [Failed] && !wouldBlock
    {
      if answers == [] {
        wouldBlock, calls := true, calls + [WouldBlock];
        return None;
      }
      var a := answers[0];
      answers := answers[1..];
      match a
      case Takes(n) =>
        var k := if n < |data| then n else |data|;
        wire, calls := wire + data[..k], calls + [Took(k)];
        return Some(k);
      case Blocks =>
        wouldBlock, calls := true, calls + [WouldBlock];
        return None;
      case Fails =>
        wouldBlock, calls := false, calls + [Failed];
        return None;
    }
  }

  datatype Result = Sent(n: nat) | InvalidArg | IoError | Backpressure

  class Connection {
    const socket: Socket
    const queue: Ring

    ghost predicate Valid()
      reads this, queue
    {
      queue.Valid()
    }

    /** Everything accepted so far, in order: what the peer has been sent and what still waits. */
    ghost function Stream(): seq<Byte>
      reads this, socket, queue, queue.buf
      requires Valid()
    {
      socket.wire + queue.Contents()
    }

    constructor (socket: Socket, capacity: nat, hwm: nat)
      requires 0 < capacity && hwm <= capacity
      ensures this.socket == socket && fresh(queue) && fresh(queue.buf) && Valid()
      ensures Stream() == socket.wire
    {
      this.socket := socket;
      queue := new Ring(capacity, hwm);
    }

    /** What has gone out leaves the queue. */
    method Forget(ghost wire: seq<Byte>, n: nat)
      requires Valid() && n <= queue.len && socket.wire == wire + queue.Contents()[..n]
      modifies queue`head, queue`len
      ensures Valid() && Stream() == wire + old(queue.Contents()) && queue.len <= old(queue.len)
    {
      Moved(wire, queue.Contents(), n);
      queue.Consume(n);
    }

    /** One turn of the loop below. */
    method SendSegment() returns (t: Turn, ghost c: Call)
      requires Valid() && queue.len != 0
      modifies socket, queue`head, queue`len
      ensures Valid() && Stream() == old(Stream())
      ensures old(socket.wire) <= socket.wire && queue.len <= old(queue.len)
      ensures t == Progress ==> |socket.answers| < |old(socket.answers)|
      ensures socket.calls == old(socket.calls) + [c] && t == TurnOf(c)
      ensures t != Progress ==> queue.len == old(queue.len)
    {
      var start, avail := queue.Peek();
      ghost var wire, waiting := socket.wire, queue.Contents();
      var segment := queue.buf[start..start + avail];
      var sent := socket.Send(segment);
      c := CallOf(sent, socket.wouldBlock);
      if sent.Some? && sent.value > 0 {
        assert segment[..sent.value] == waiting[..sent.value];
        Forget(wire, sent.value);
        t := Progress;
      } else {
        t := if sent.Some? || socket.wouldBlock then Stuck else Broken;
      }
    }

    /** Drain the queue as far as the socket goes along: until nothing waits or a call has taken nothing.  It fails
        exactly when that call failed. */
    method FlushQueue() returns (ok: bool, ghost calls: seq<Call>)
      requires Valid()
      modifies socket, queue`head, queue`len
      ensures Valid() && Stream() == old(Stream())
      ensures old(socket.wire) <= socket.wire && queue.len <= old(queue.len)
      ensures socket.calls == old(socket.calls) + calls && MovingButLast(calls)
      ensures ok <==> !Ended(calls, Failed)
      ensures queue.len == 0 <==> calls == [] || Moving(calls[|calls| - 1])
      ensures calls == [] <==> old(queue.len) == 0
    {
      calls := [];
      while queue.len != 0
        invariant Valid() && Stream() == old(Stream())
        invariant old(socket.wire) <= socket.wire && queue.len <= old(queue.len)
        invariant socket.calls == old(socket.calls) + calls
        invariant forall i | 0 <= i < |calls| :: Moving(calls[i])
        invariant if calls == [] then queue.len == old(queue.len) else old(queue.len) != 0
        decreases |socket.answers|
      {
        var t, c := SendSegment();
        calls := calls + [c];
        if t == Stuck { return true, calls; }
        if t == Broken { return false, calls; }
      }
      return true, calls;
    }

    /** Queue data unless the queue is over its high-water mark or has no room for all of it. */
    method Enqueue(data: seq<Byte>) returns (ok: bool)
      requires Valid() && data != []
      modifies queue`len, queue.buf
      ensures Valid() && (ok <==> old(queue.len) < queue.hwm && |data| <= queue.buf.Length - old(queue.len))
      ensures Stream() == if ok then old(Stream()) + data else old(Stream())
    {
      if queue.len >= queue.hwm { return false; }
      ghost var waiting := queue.Contents();
      ok := queue.Push(data);
      assert socket.wire + (waiting + data) == (socket.wire + waiting) + data;
    }

    /** With the queue empty the data goes to the socket directly, and what it leaves is queued.  `taken` is how much
        of the data the stream was extended by, `rest` how much the kernel did not take.  A call that takes nothing
        leaves errno as it was, so what it was decides whether the data is queued. */
    method SendDirect(data: seq<Byte>) returns (r: Result, ghost taken: nat, ghost rest: nat, ghost c: Call)
      requires Valid() && data != [] && queue.len == 0
      modifies socket, queue`len, queue.buf
      ensures Valid() && taken <= |data| && Stream() == old(Stream()) + data[..taken]
      ensures socket.calls == old(socket.calls) + [c]
      ensures r == IoError <==> c == Failed || (c == Took(0) && !socket.wouldBlock)
      ensures (c.Took? ==> c.n <= |data|) && rest == |data| - if c.Took? then c.n else 0
      ensures r == Sent(|data|) || r == Backpressure || r == IoError
      ensures r.Sent? ==> taken == |data| && queue.len == rest && (rest == 0 || queue.hwm > 0)
      ensures r == IoError ==> taken == 0 && queue.len == 0
      ensures r == Backpressure ==>
        rest > 0 && taken == |data| - rest && queue.len == 0 && (queue.hwm == 0 || rest > queue.buf.Length)
    {
      ghost var before := socket.wire;
      assert Stream() == before;
      var sent := socket.Send(data);
      assert queue.Contents() == [] && Stream() == socket.wire;
      c := CallOf(sent, socket.wouldBlock);
      rest := |data| - if sent.Some? then sent.value else 0;
      if sent.Some? && sent.value > 0 {
        taken := sent.value;
        if sent.value < |data| {
          var ok := Enqueue(data[sent.value..]);
          if !ok { return Backpressure, taken, rest, c; }
          Rejoined(before, data, taken);
        }
        WholePrefix(before, data);
        return Sent(|data|), |data|, rest, c;
      } else if socket.wouldBlock {
        var ok := Enqueue(data);
        NoPrefix(before, data);
        if !ok { return Backpressure, 0, rest, c; }
        WholePrefix(before, data);
        return Sent(|data|), |data|, rest, c;
      } else {
        NoPrefix(before, data);
        return IoError, 0, rest, c;
      }
    }

    /** With bytes still waiting the data can only be queued behind them. */
    method SendBehind(data: seq<Byte>) returns (r: Result, ghost taken: nat)
      requires Valid() && data != [] && queue.len != 0
      modifies queue`len, queue.buf
      ensures Valid() && taken <= |data| && Stream() == old(Stream()) + data[..taken]
      ensures r == Sent(|data|) || r == Backpressure
      ensures r.Sent? ==> taken == |data| && queue.len == old(queue.len) + |data| && old(queue.len) < queue.hwm
      ensures r == Backpressure ==>
        taken == 0 && queue.len == old(queue.len) && (queue.len >= queue.hwm || |data| > queue.buf.Length - queue.len)
    {
      ghost var before := Stream();
      var ok := Enqueue(data);
      NoPrefix(before, data);
      WholePrefix(before, data);
      if ok { return Sent(|data|), |data|; }
      return Backpressure, 0;
    }

    /** Success extends the stream by exactly the data; a refusal by nothing, except that a refused rest of a partial
        direct send leaves a proper, non-empty prefix on the wire and the queue empty.  The last call decides: an error
        is reported exactly when it failed, or took nothing of a direct send while errno was stale; otherwise what the
        kernel has not taken is queued if the queue is below its mark and has room. */
    method Send(data: seq<Byte>) returns (r: Result, ghost taken: nat, ghost rest: nat, ghost calls: seq<Call>)
      requires Valid()
      modifies socket, queue`head, queue`len, queue.buf
      ensures Valid() && taken <= |data| && Stream() == old(Stream()) + data[..taken]
      ensures r == InvalidArg <==> data == []
      ensures r.Sent? ==> r == Sent(|data|) && taken == |data|
      ensures r == IoError || r == InvalidArg ==> taken == 0
      ensures socket.calls == old(socket.calls) + calls && MovingButLast(calls) && rest <= |data|
      ensures r == IoError <==>
        Ended(calls, Failed) || (Ended(calls, Took(0)) && queue.len == 0 && !socket.wouldBlock)
      ensures rest < |data| ==> Ended(calls, Took(|data| - rest)) && queue.len == if r.Sent? then rest else 0
      ensures rest == |data| != 0 ==> calls != [] && !Moving(calls[|calls| - 1])
      ensures r.Sent? ==> rest <= queue.len && (rest == 0 || queue.len - rest < queue.hwm)
      ensures r == Backpressure ==>
        rest > 0 && taken == |data| - rest && (queue.len >= queue.hwm || rest > queue.buf.Length - queue.len)
    {
      rest, calls := |data|, [];
      if data == [] { return InvalidArg, 0, rest, calls; }
      if queue.len != 0 {
        var ok;
        ok, calls := FlushQueue();
        if !ok { return IoError, 0, rest, calls; }
      }
      if queue.len != 0 {
        r, taken := SendBehind(data);
      } else {
        ghost var c;
        r, taken, rest, c := SendDirect(data);
        calls := calls + [c];
      }
    }

    method Flush() returns (ok: bool, ghost calls: seq<Call>)
      requires Valid()
      modifies socket, queue`head, queue`len
      ensures Valid() && Stream() == old(Stream())
      ensures old(socket.wire) <= socket.wire && queue.len <= old(queue.len)
      ensures socket.calls == old(socket.calls) + calls && (ok <==> !Ended(calls, Failed))
      ensures queue.len == 0 <==> calls == [] || Moving(calls[|calls| - 1])
    {
      ok, calls := FlushQueue();
    }
  }

  datatype Turn = Progress | Stuck | Broken

  function CallOf(sent: Option<nat>, wouldBlock: bool): Call {
    match sent
    case Some(n) => Took(n)
    case None => if wouldBlock then WouldBlock else Failed
  }

  function TurnOf(c: Call): Turn {
    match c
    case Took(n) => if n > 0 then Progress else Stuck
    case WouldBlock => Stuck
    case Failed => Broken
  }

  lemma Rejoined(s: seq<Byte>, data: seq<Byte>, n: nat)
    requires n <= |data|
    ensures (s + data[..n]) + data[n..] == s + data
  {
    assert data[..n] + data[n..] == data;
  }

  lemma WholePrefix(s: seq<Byte>, data: seq<Byte>)
    ensures s + data[..|data|] == s + data
  {
    assert data[..|data|] == data;
  }

  lemma NoPrefix(s: seq<Byte>, data: seq<Byte>)
    ensures s + data[..0] == s
  {
  }

  lemma Moved(wire: seq<Byte>, waiting: seq<Byte>, n: nat)
    requires n <= |waiting|
    ensures (wire + waiting[..n]) + waiting[n..] == wire + waiting
  {
    assert waiting[..n] + waiting[n..] == waiting;
  }
}

/** The output side of a linc connection in thread-safe mode: partial writes, the queue of blocked writes,
    and its byte count. Each method runs with the connection locked. */
module LinkConnection {
  import opened Common
  import opened Cdr

  datatype Status = Connecting | Connected | Disconnected | Timeout

  /** LinkIOStatus, or the number of bytes written. */
  datatype IoResult = Done(bytes: nat) | Fatal | Queued

  /** What writev reports once it is not interrupted. */
  datatype Reply = Took(n: nat) | WouldBlock | Failed

  /** One call of writev: the bytes of the vectors it was given, and its answer. */
  datatype Attempt = Attempt(offered: seq<Byte>, reply: Reply)

  /** The socket took all it was offered, every time. */
  ghost predicate AllTaken(attempts: seq<Attempt>) {
    forall i :: 0 <= i < |attempts| ==> attempts[i].offered != [] && attempts[i].reply == Took(|attempts[i].offered|)
  }

  /** The last attempt could not write anything for now. */
  ghost predicate Blocked(attempts: seq<Attempt>) {
    attempts != [] && attempts[|attempts| - 1].reply == WouldBlock
  }

  /** The last attempt failed, or took nothing. */
  ghost predicate Broken(attempts: seq<Attempt>) {
    attempts != [] && attempts[|attempts| - 1].reply in {Failed, Took(0)}
  }

  lemma FlattenEmpty(vecs: seq<seq<Byte>>)
    ensures |vecs| == 0 || (|vecs| == 1 && vecs[0] == []) ==> Flatten(vecs) == []
  {
  }

  lemma FlattenSingle(vecs: seq<seq<Byte>>)
    requires |vecs| == 1
    ensures Flatten(vecs) == vecs[0]
  {
    FlattenOne(vecs[0]);
    assert vecs == [vecs[0]];
  }

  lemma FlattenFirst(vecs: seq<seq<Byte>>, k: nat)
    requires k <= |vecs|
    ensures Flatten(vecs) == Flatten(vecs[..k]) + Flatten(vecs[k..])
  {
    assert vecs[..k] + vecs[k..] == vecs;
    FlattenAppend(vecs[..k], vecs[k..]);
  }

  /** The vectors still to be written; the first may have lost a part that was written. */
  class QueuedWrite {
    var vecs: seq<seq<Byte>>

    constructor (vecs: seq<seq<Byte>>)
      ensures this.vecs == vecs
    {
      this.vecs := vecs;
    }

    /** The vectors move past n written bytes, and past empty vectors. */
    method Advance(n0: nat)
      requires n0 <= |Flatten(vecs)|
      modifies this
      ensures old(Flatten(vecs)) == old(Flatten(vecs))[..n0] + Flatten(vecs)
      ensures vecs != [] ==> vecs[0] != []
      ensures |Flatten(vecs)| == |old(Flatten(vecs))| - n0 && |vecs| <= |old(vecs)|
    {
      ghost var all := Flatten(vecs);
      var n := n0;
      while vecs != [] && n >= |vecs[0]|
        invariant 0 <= n <= n0 <= |all| && n <= |Flatten(vecs)| && |vecs| <= |old(vecs)|
        invariant Flatten(vecs) == all[n0 - n..]
        decreases |vecs|
      {
        n := n - |vecs[0]|;
        vecs := vecs[1..];
      }
      if n > 0 {
        ghost var before := vecs;
        vecs := [vecs[0][n..]] + vecs[1..];
        assert vecs[1..] == before[1..];
        assert Flatten(vecs) == Flatten(before)[n..];
      }
      assert all == all[..n0] + all[n0..];
    }
  }

  ghost function Pending(queue: seq<QueuedWrite>): seq<Byte>
    reads queue
  {
    if queue == [] then [] else Flatten(queue[0].vecs) + Pending(queue[1..])
  }

  /** Blocked writes are distinct objects with one vector each. */
  ghost predicate Shape(queue: seq<QueuedWrite>)
    reads queue
  {
    && (forall i, j :: 0 <= i < j < |queue| ==> queue[i] != queue[j])
    && forall qw :: qw in queue ==> |qw.vecs| == 1
  }

  lemma ShapeAppend(queue: seq<QueuedWrite>, qw: QueuedWrite)
    requires Shape(queue) && qw !in queue && |qw.vecs| == 1
    ensures Shape(queue + [qw])
  {
  }

  lemma ShapeSplit(queue: seq<QueuedWrite>)
    requires queue != []
    ensures Shape(queue) <==> Shape(queue[1..]) && queue[0] !in queue[1..] && |queue[0].vecs| == 1
  {
    if Shape(queue[1..]) && queue[0] !in queue[1..] && |queue[0].vecs| == 1 {
      forall i, j | 0 <= i < j < |queue| ensures queue[i] != queue[j] {
        assert queue[j] == queue[1..][j - 1];
        assert i > 0 ==> queue[i] == queue[1..][i - 1];
      }
      forall qw | qw in queue ensures |qw.vecs| == 1 {
        assert qw == queue[0] || qw in queue[1..];
      }
    }
  }

  lemma {:induction false} PendingAppend(queue: seq<QueuedWrite>, qw: QueuedWrite)
    ensures Pending(queue + [qw]) == Pending(queue) + Flatten(qw.vecs)
  {
    if queue == [] {
      assert queue + [qw] == [qw];
    } else {
      assert (queue + [qw])[1..] == queue[1..] + [qw];
      PendingAppend(queue[1..], qw);
    }
  }

  /** The memory copy of the vectors, one after the other. */
  method Gather(vecs: seq<seq<Byte>>) returns (data: seq<Byte>)
    ensures data == Flatten(vecs)
  {
    data := [];
    var i := 0;
    assert vecs[0..] == vecs;
    while i < |vecs|
      invariant i <= |vecs| && data + Flatten(vecs[i..]) == Flatten(vecs)
    {
      assert vecs[i..][1..] == vecs[i + 1..];
      data := data + vecs[i];
      i := i + 1;
    }
  }

  lemma PendingSplit(queue: seq<QueuedWrite>)
    requires queue != []
    ensures Pending(queue) == Flatten(queue[0].vecs) + Pending(queue[1..])
  {
  }

  lemma PendingNone(queue: seq<QueuedWrite>)
    ensures queue == [] ==> Pending(queue) == []
  {
  }

  /** A nonempty first part of the vectors. */
  ghost predicate Offers(a: Attempt, vecs: seq<seq<Byte>>) {
    a.offered != [] && a.offered <= Flatten(vecs) && (|vecs| == 1 ==> a.offered == vecs[0])
  }

  lemma OfferIs(a: Attempt, vecs: seq<seq<Byte>>, iovMax: nat)
    requires iovMax > 0 && vecs != [] && vecs[0] != [] && a.offered == Flatten(vecs[..Min(|vecs|, iovMax)])
    ensures Offers(a, vecs)
  {
    var k := Min(|vecs|, iovMax);
    FlattenFirst(vecs, k);
    assert vecs[..k][0] == vecs[0] && a.offered == vecs[0] + Flatten(vecs[..k][1..]);
    if |vecs| == 1 {
      assert vecs[..k] == [vecs[0]];
      FlattenOne(vecs[0]);
    }
  }

  lemma OneMore(attempts: seq<Attempt>, n: nat)
    requires n < |attempts|
    ensures var news := attempts[n..]; news != [] && news[|news| - 1] == attempts[|attempts| - 1]
    ensures Blocked(attempts[n..]) <==> attempts[|attempts| - 1].reply == WouldBlock
    ensures Broken(attempts[n..]) <==> attempts[|attempts| - 1].reply in {Failed, Took(0)}
  {
  }

  class Connection {
    var status: Status
    var writeQueue: seq<QueuedWrite>
    var writeQueueBytes: int
    var pollOut: bool               // G_IO_OUT is watched, or the command to watch it has been given
    const maxBufferBytes: nat       // 0 for no limit
    const nonblocking: bool
    const iovMax: nat

    var wire: seq<Byte>             // what the socket has taken
    ghost var submitted: seq<Byte>  // what writers have handed over, in call order
    ghost var attempts: seq<Attempt> // all calls of writev
    ghost var leaked: nat           // bytes still counted although they are not queued any more
    ghost var intact: bool          // no disconnect, no fatal error and no write with an empty first vector

    /** What holds even while the watch conditions are being changed. */
    ghost predicate Sound()
      reads this, writeQueue
    {
      && iovMax > 0 && Shape(writeQueue)
      && (status in {Disconnected, Timeout} ==> writeQueue == [] && !intact)
      && writeQueueBytes == |Pending(writeQueue)| + leaked
      && (maxBufferBytes > 0 && status in {Connecting, Connected} ==> writeQueueBytes < maxBufferBytes)
      && (intact ==> wire + Pending(writeQueue) == submitted)
    }

    ghost predicate Valid()
      reads this, writeQueue
    {
      Sound() && (status == Connected && writeQueue != [] ==> pollOut)
    }

    constructor (status: Status, maxBufferBytes: nat, nonblocking: bool, iovMax: nat)
      requires status in {Connecting, Connected} && iovMax > 0
      ensures Valid() && intact && wire == [] && submitted == [] && writeQueue == [] && this.status == status
      ensures attempts == [] && this.nonblocking == nonblocking && this.maxBufferBytes == maxBufferBytes
    {
      this.status, this.maxBufferBytes, this.nonblocking, this.iovMax := status, maxBufferBytes, nonblocking, iovMax;
      writeQueue, writeQueueBytes, pollOut := [], 0, status == Connecting;
      wire, submitted, attempts, leaked, intact := [], [], [], 0, true;
    }

    /** The system call: any part of the first iovMax vectors may be taken. */
    method Writev(vecs: seq<seq<Byte>>) returns (r: Reply)
      requires iovMax > 0
      modifies this`wire, this`attempts
      ensures r.Took? ==> r.n <= |Flatten(vecs)| && wire == old(wire) + Flatten(vecs)[..r.n]
      ensures !r.Took? ==> wire == old(wire)
      ensures attempts == old(attempts) + [Attempt(Flatten(vecs[..Min(|vecs|, iovMax)]), r)]
      ensures r.Took? ==> r.n <= |Flatten(vecs[..Min(|vecs|, iovMax)])|
    {
      var k := Min(|vecs|, iovMax);
      FlattenFirst(vecs, k);
      var n: int := *;
      if n < -1 {
        r := WouldBlock;
      } else if n < 0 {
        r := Failed;
      } else {
        r := Took(Min(n, |Flatten(vecs[..k])|));
        wire := wire + Flatten(vecs)[..r.n];
      }
      attempts := attempts + [Attempt(Flatten(vecs[..k]), r)];
    }

    /** write_data_T: what is left in `qw` is exactly the part that was not written. It goes on until all is
        written, the socket blocks, or the connection is broken. */
    method WriteData(qw: QueuedWrite) returns (r: IoResult)
      requires status == Connected && iovMax > 0
      modifies this`wire, this`attempts, qw
      ensures old(wire) <= wire && wire + Flatten(qw.vecs) == old(wire + Flatten(qw.vecs))
      ensures r.Done? ==> r.bytes == |wire| - |old(wire)|
      ensures r.Done? ==> qw.vecs == if old(qw.vecs) != [] && old(qw.vecs[0]) == [] then old(qw.vecs) else []
      ensures !r.Done? ==> qw.vecs != [] && qw.vecs[0] != []
      ensures !r.Done? && |old(qw.vecs)| == 1 ==> |qw.vecs| == 1
      ensures Tried(old(attempts), old(qw.vecs), r)
    {
      ghost var vecs0 := qw.vecs;
      var written := 0;
      assert attempts[|attempts|..] == [];
      while qw.vecs != [] && qw.vecs[0] != []
        invariant old(wire) <= wire && wire + Flatten(qw.vecs) == old(wire + Flatten(qw.vecs))
        invariant written == |wire| - |old(wire)|
        invariant vecs0 != [] && vecs0[0] == [] ==> qw.vecs == vecs0
        invariant !(vecs0 != [] && vecs0[0] == []) ==> qw.vecs == [] || qw.vecs[0] != []
        invariant |vecs0| == 1 ==> |qw.vecs| <= 1
        invariant GoingOn(old(attempts), vecs0, qw.vecs)
        decreases |Flatten(qw.vecs)|
      {
        hide Tried, GoingOn, Flatten;
        var reply := WriteRound(qw, old(attempts), vecs0);
        if reply.WouldBlock? && nonblocking {
          TriedIs(old(attempts), vecs0, Queued);
          return Queued;
        } else if !reply.Took? || reply.n == 0 {
          TriedIs(old(attempts), vecs0, Fatal);
          return Fatal;
        }
        written := written + reply.n;
      }
      r := Done(written);
    }

    /** Nothing has stopped the attempt at `vecs0` yet; `vecs` is still to be written. */
    ghost predicate GoingOn(attempts0: seq<Attempt>, vecs0: seq<seq<Byte>>, vecs: seq<seq<Byte>>)
      reads this`attempts
    {
      && attempts0 <= attempts && (attempts == attempts0 ==> vecs == vecs0)
      && (attempts != attempts0 ==> vecs0 != [] && vecs0[0] != [] && Offers(attempts[|attempts0|], vecs0))
      && !Blocked(attempts[|attempts0|..]) && !Broken(attempts[|attempts0|..])
    }

    method WriteRound(qw: QueuedWrite, ghost attempts0: seq<Attempt>, ghost vecs0: seq<seq<Byte>>) returns (reply: Reply)
      requires iovMax > 0 && qw.vecs != [] && qw.vecs[0] != [] && GoingOn(attempts0, vecs0, qw.vecs)
      modifies this`wire, this`attempts, qw
      ensures old(wire) <= wire && wire + Flatten(qw.vecs) == old(wire + Flatten(qw.vecs))
      ensures attempts0 <= attempts && attempts != attempts0 && vecs0 != [] && vecs0[0] != [] && Offers(attempts[|attempts0|], vecs0)
      ensures attempts[|attempts| - 1].reply == reply
      ensures reply.Took? && reply.n > 0 ==> GoingOn(attempts0, vecs0, qw.vecs) && (qw.vecs == [] || qw.vecs[0] != [])
      ensures reply.Took? ==> |wire| == |old(wire)| + reply.n && |qw.vecs| <= |old(qw.vecs)|
      ensures !reply.Took? || reply.n == 0 ==> qw.vecs == old(qw.vecs) && wire == old(wire)
      ensures |Flatten(qw.vecs)| <= |old(Flatten(qw.vecs))|
      ensures reply.Took? && reply.n > 0 ==> |Flatten(qw.vecs)| < |old(Flatten(qw.vecs))|
    {
      hide Flatten, Blocked, Broken, Offers;
      ghost var before, all := attempts, Flatten(qw.vecs);
      reply := Writev(qw.vecs);
      OneMore(attempts, |attempts0|);
      assert attempts[..|before|] == before;
      if before == attempts0 {
        OfferIs(attempts[|attempts0|], vecs0, iovMax);
      }
      if reply.Took? && reply.n > 0 {
        qw.Advance(reply.n);
        assert all == all[..reply.n] + Flatten(qw.vecs);
        assert wire + Flatten(qw.vecs) == old(wire) + (all[..reply.n] + Flatten(qw.vecs));
      } else {
        assert reply.Took? ==> all[..0] == [] && wire == old(wire) + [];
      }
    }

    /** How an attempt at `vecs` went: there is at least one call of writev unless there is nothing to write or an
        empty vector comes first, it is offered the beginning, and the result tells how the last call ended. */
    ghost predicate Tried(attempts0: seq<Attempt>, vecs: seq<seq<Byte>>, r: IoResult)
      reads this`attempts
    {
      && attempts0 <= attempts
      && var news := attempts[|attempts0|..];
      && (if vecs == [] || vecs[0] == [] then news == [] && r == Done(0) else news != [] && Offers(news[0], vecs))
      && (r.Queued? <==> Blocked(news) && nonblocking)
      && (r.Fatal? <==> Broken(news) || (Blocked(news) && !nonblocking))
    }

    lemma TriedIs(attempts0: seq<Attempt>, vecs: seq<seq<Byte>>, r: IoResult)
      requires attempts0 <= attempts && attempts != attempts0 && vecs != [] && vecs[0] != [] && Offers(attempts[|attempts0|], vecs)
      requires var last := attempts[|attempts| - 1].reply;
        if last == WouldBlock && nonblocking then r == Queued else last in {WouldBlock, Failed, Took(0)} && r == Fatal
      ensures Tried(attempts0, vecs, r)
    {
    }

    /** queue_signal_T_R: an overfull queue drops the connection. */
    method QueueSignal(delta: int)
      requires iovMax > 0 && Shape(writeQueue)
      requires status in {Disconnected, Timeout} ==> writeQueue == [] && !intact
      requires writeQueueBytes + delta == |Pending(writeQueue)| + leaked
      requires intact ==> wire + Pending(writeQueue) == submitted
      modifies this`writeQueueBytes, this`status, this`writeQueue, this`pollOut, this`leaked, this`intact
      ensures Sound() && writeQueueBytes == old(writeQueueBytes) + delta
      ensures if maxBufferBytes > 0 && writeQueueBytes >= maxBufferBytes
              then status == Disconnected && writeQueue == [] && !intact
              else status == old(status) && writeQueue == old(writeQueue) && pollOut == old(pollOut) && intact == old(intact)
    {
      writeQueueBytes := writeQueueBytes + delta;
      if maxBufferBytes > 0 && writeQueueBytes >= maxBufferBytes {
        Disconnect(Disconnected);
      }
    }

    /** link_connection_state_changed_T_R on the way out: the queue is dropped, its byte count is not. */
    method Disconnect(status': Status)
      requires status' in {Disconnected, Timeout}
      requires iovMax > 0 && writeQueueBytes == |Pending(writeQueue)| + leaked
      modifies this`status, this`writeQueue, this`pollOut, this`leaked, this`intact
      ensures Valid() && status == status' && writeQueue == [] && !intact && writeQueueBytes == old(writeQueueBytes)
    {
      status, pollOut := status', false;
      leaked := leaked + |Pending(writeQueue)|;
      writeQueue := [];
      intact := false;
    }

    /** queue_flattened_T_R: the unsent vectors are copied into one block at the end of the queue. */
    method QueueFlattened(vecs: seq<seq<Byte>>, updatePoll: bool)
      requires Valid() && status in {Connecting, Connected}
      requires status == Connected && writeQueue == [] ==> updatePoll
      modifies this`writeQueue, this`writeQueueBytes, this`status, this`pollOut, this`leaked, this`intact, this`submitted
      ensures Valid() && submitted == old(submitted) + Flatten(vecs)
      ensures forall k :: 0 <= k < |writeQueue| ==> writeQueue[k] in old(writeQueue) || fresh(writeQueue[k])
      ensures writeQueueBytes == old(writeQueueBytes) + |Flatten(vecs)|
      ensures if maxBufferBytes > 0 && writeQueueBytes >= maxBufferBytes
              then status == Disconnected && !intact
              else status == old(status) && intact == old(intact)
    {
      hide Pending, Shape, Flatten;
      var data := Gather(vecs);
      var qw := new QueuedWrite([data]);
      FlattenOne(data);
      var newQueue := writeQueue == [];
      PendingAppend(writeQueue, qw);
      ShapeAppend(writeQueue, qw);
      writeQueue := writeQueue + [qw];
      submitted := submitted + Flatten(vecs);
      QueueSignal(|data|);
      if updatePoll && newQueue {
        pollOut := true;
      }
    }

    lemma MoveSent(wire0: seq<Byte>, all: seq<Byte>, wire1: seq<Byte>, left: seq<Byte>, rest: seq<Byte>)
      requires wire1 + left == wire0 + all
      ensures wire1 + (left + rest) == wire0 + (all + rest)
    {
      assert wire1 + (left + rest) == (wire1 + left) + rest;
      assert wire0 + (all + rest) == (wire0 + all) + rest;
    }

    /** link_connection_flush_write_queue_T_R: one attempt at the oldest blocked write. Unless it ends in a
        disconnect, the bytes move from the queue to the wire and nothing else changes. */
    method Flush()
      requires Sound() && status == Connected
      modifies this`wire, this`attempts, this`writeQueue, this`writeQueueBytes, this`status, this`pollOut, this`leaked, this`intact, writeQueue
      ensures Valid() && status in {Connected, Disconnected}
      ensures status == Connected ==> intact == old(intact) && wire + Pending(writeQueue) == old(wire + Pending(writeQueue))
      ensures forall k :: 0 <= k < |writeQueue| ==> writeQueue[k] in old(writeQueue)
      ensures old(writeQueue) == [] ==> status == Connected
      ensures Flushed(old(wire), old(attempts), old(writeQueue), if old(writeQueue) == [] then [] else old(Flatten(writeQueue[0].vecs)))
      ensures old(attempts) <= attempts
    {
      hide Shape, Flatten, Pending;
      var doneWrites := true;
      if writeQueue != [] {
        doneWrites := FlushFirst();
      }
      pollOut := !doneWrites;
    }

    lemma NotFlushed()
      ensures status == Connected && writeQueue == [] ==> Flushed(wire, attempts, [], [])
      ensures status == Connecting && writeQueue == [] ==> attempts[|attempts|..] == []
    {
    }

    /** What a flush does: nothing with an empty queue. Otherwise it offers the oldest block to the socket, unless that
        is empty, until the block is written and leaves the queue, or the socket blocks and the block stays, or
        the connection breaks. */
    ghost predicate Flushed(wire0: seq<Byte>, attempts0: seq<Attempt>, queue0: seq<QueuedWrite>, block: seq<Byte>)
      reads this`wire, this`attempts, this`writeQueue, this`status
    {
      && attempts0 <= attempts
      && var news := attempts[|attempts0|..];
      if queue0 == [] then news == [] && wire == wire0 && writeQueue == [] && status == Connected
      else
        && (if block == [] then news == [] else news != [] && news[0].offered == block)
        && if Blocked(news) && nonblocking then status == Connected && writeQueue == queue0
           else if Blocked(news) || Broken(news) then status == Disconnected
           else status == Connected && writeQueue == queue0[1..] && wire == wire0 + block
    }

    method FlushFirst() returns (doneWrites: bool)
      requires Sound() && status == Connected && writeQueue != []
      modifies this`wire, this`attempts, this`writeQueue, this`writeQueueBytes, this`status, this`pollOut, this`leaked, this`intact, writeQueue[0]
      ensures Sound() && status in {Connected, Disconnected}
      ensures status == Connected ==> intact == old(intact) && wire + Pending(writeQueue) == old(wire + Pending(writeQueue))
      ensures writeQueue == old(writeQueue) || writeQueue == [] || writeQueue == old(writeQueue)[1..]
      ensures status == Connected && writeQueue != [] ==> !doneWrites
      ensures Flushed(old(wire), old(attempts), old(writeQueue), old(Flatten(writeQueue[0].vecs)))
    {
      hide Shape, Flatten, Pending;
      var qw := writeQueue[0];
      ghost var rest := Pending(writeQueue[1..]);
      ghost var all := Flatten(qw.vecs);
      ShapeSplit(writeQueue);
      PendingSplit(writeQueue);
      ghost var vecs0 := qw.vecs;
      FlattenSingle(vecs0);
      var r := WriteData(qw);
      ghost var left := Flatten(qw.vecs);
      ShapeSplit(writeQueue);
      PendingSplit(writeQueue);
      MoveSent(old(wire), all, wire, left, rest);
      if r.Done? {
        FlattenEmpty(qw.vecs);
        assert left == [] && wire + [] == wire && wire == old(wire) + all;
        assert [] + rest == rest;
        writeQueue := writeQueue[1..];
        QueueSignal(-(r.bytes as int));
        doneWrites := writeQueue == [];
      } else {
        leaked := leaked + (|all| - |left|);
        doneWrites := r.Fatal?;
        if r.Fatal? {
          Disconnect(Disconnected);
        }
      }
    }

    lemma Suffix(wire0: seq<Byte>, all: seq<Byte>, wire1: seq<Byte>, left: seq<Byte>)
      requires wire0 <= wire1 && wire1 + left == wire0 + all
      ensures all == wire1[|wire0|..] + left
    {
      assert all == (wire0 + all)[|wire0|..];
    }

    /** link_connection_writev: written now, queued behind what is blocked, or refused. */
    method Submit(vecs: seq<seq<Byte>>) returns (r: IoResult)
      requires Valid()
      modifies this`wire, this`attempts, this`writeQueue, this`writeQueueBytes, this`status, this`pollOut, this`leaked, this`intact, this`submitted
      ensures Valid() && (status == old(status) || status == Disconnected)
      ensures forall k :: 0 <= k < |writeQueue| ==> writeQueue[k] in old(writeQueue) || fresh(writeQueue[k])
      ensures intact ==> old(intact) && submitted == old(submitted) + Flatten(vecs)
      ensures old(intact) && status == old(status) ==>
        (intact <==> r.Queued? || (r.Done? && (vecs == [] || vecs[0] != [] || Flatten(vecs) == [])))
      ensures intact && r.Done? ==> writeQueue == []
      ensures status in {Disconnected, Timeout} && status == old(status) ==> r.Fatal? && wire == old(wire)
      ensures old(status) == Connected && old(writeQueue) == [] && vecs != [] && vecs[0] == [] ==>
        r == Done(0) && wire == old(wire) && writeQueue == []
      ensures if old(status) == Connected && old(writeQueue) == [] then Tried(old(attempts), vecs, r) else attempts == old(attempts)
      ensures old(status) == Connected && old(writeQueue) == [] && r.Done? && vecs != [] && vecs[0] != [] ==>
        wire == old(wire) + Flatten(vecs)
      ensures old(status) == Connecting || (old(status) == Connected && old(writeQueue) != []) ==> r.Queued? && wire == old(wire)
    {
      hide Shape, Flatten, Pending, Tried;
      if status == Connecting {
        QueueFlattened(vecs, true);
        return Queued;
      }
      if status == Disconnected {
        return Fatal;
      }
      if writeQueue != [] {
        QueueFlattened(vecs, false);
        return Queued;
      }
      if status != Connected {
        return Fatal;
      }
      r := SubmitNow(vecs);
    }

    /** With nothing queued, the write is tried at once. */
    method SubmitNow(vecs: seq<seq<Byte>>) returns (r: IoResult)
      requires Valid() && status == Connected && writeQueue == []
      modifies this`wire, this`attempts, this`writeQueue, this`writeQueueBytes, this`status, this`pollOut, this`leaked, this`intact, this`submitted
      ensures Valid() && (status == Connected || status == Disconnected)
      ensures forall k :: 0 <= k < |writeQueue| ==> fresh(writeQueue[k])
      ensures intact ==> old(intact) && submitted == old(submitted) + Flatten(vecs)
      ensures old(intact) && status == Connected ==>
        (intact <==> r.Queued? || (r.Done? && (vecs == [] || vecs[0] != [] || Flatten(vecs) == [])))
      ensures r.Done? ==> writeQueue == []
      ensures vecs != [] && vecs[0] == [] ==> r == Done(0) && wire == old(wire)
      ensures Tried(old(attempts), vecs, r)
      ensures r.Done? && vecs != [] && vecs[0] != [] ==> wire == old(wire) + Flatten(vecs)
    {
      hide Shape, Flatten, Pending, Tried;
      PendingNone(writeQueue);
      var qw := new QueuedWrite(vecs);
      r := WriteData(qw);
      TriedDone(old(attempts), vecs, r);
      FlattenEmpty(qw.vecs);
      ghost var sent := wire[|old(wire)|..];
      submitted := submitted + sent;
      assert Flatten(vecs) == sent + Flatten(qw.vecs) by { Suffix(old(wire), Flatten(vecs), wire, Flatten(qw.vecs)); }
      if r.Queued? {
        QueueFlattened(qw.vecs, true);
      } else if r.Fatal? || Flatten(qw.vecs) != [] {
        intact := false;
      }
    }

    lemma TriedDone(attempts0: seq<Attempt>, vecs: seq<seq<Byte>>, r: IoResult)
      requires Tried(attempts0, vecs, r)
      ensures vecs == [] || vecs[0] == [] ==> r == Done(0)
    {
    }

    /** The parts of link_connection_io_handler that concern output. */
    method HandleEvent(canWrite: bool, failed: bool, connectError: bool)
      requires Valid()
      modifies this`wire, this`attempts, this`writeQueue, this`writeQueueBytes, this`status, this`pollOut, this`leaked, this`intact, writeQueue
      ensures Valid() && submitted == old(submitted)
      ensures forall k :: 0 <= k < |writeQueue| ==> writeQueue[k] in old(writeQueue)
      ensures intact ==> old(intact)
      ensures status in {Connecting, Connected} ==> intact == old(intact)
      ensures status in {Connecting, Connected} ==> wire + Pending(writeQueue) == old(wire + Pending(writeQueue))
      ensures canWrite && !failed && (old(status) == Connected || (old(status) == Connecting && !connectError)) ==>
        Flushed(old(wire), old(attempts), old(writeQueue), if old(writeQueue) == [] then [] else old(Flatten(writeQueue[0].vecs)))
      ensures old(attempts) <= attempts
      ensures old(status) == Connected && failed ==> status == Disconnected
      ensures old(status) == Connecting && (failed || (canWrite && connectError)) ==> status == Disconnected
      ensures (!canWrite && !failed) || old(status) in {Disconnected, Timeout} ==>
        status == old(status) && wire == old(wire) && writeQueue == old(writeQueue) && attempts == old(attempts)
    {
      hide Flushed, Shape, Flatten, Pending;
      NotFlushed();
      if status == Connected && canWrite {
        Flush();
      }
      if failed || canWrite {
        if status == Connecting {
          if !connectError && canWrite && !failed {
            status, pollOut := Connected, false;
            NotFlushed();
            if writeQueue != [] {
              Flush();
            }
          } else {
            Disconnect(Disconnected);
          }
        } else if status == Connected && failed {
          Disconnect(Disconnected);
        }
      }
    }

    /** Every run: as long as there was no disconnect, no fatal error and no write that starts with an empty
        vector, the socket's bytes followed by the queued ones are all submitted writes in call order. */
    method Run(events: seq<Event>)
      requires Valid() && intact && wire == [] && submitted == [] && writeQueue == []
      modifies this
      ensures Valid()
      ensures intact ==> wire + Pending(writeQueue) == Submissions(events)
      ensures maxBufferBytes > 0 && status in {Connecting, Connected} ==>
        |Pending(writeQueue)| <= writeQueueBytes < maxBufferBytes
    {
      var i := 0;
      while i < |events|
        invariant i <= |events| && Valid() && (forall k :: 0 <= k < |writeQueue| ==> fresh(writeQueue[k]))
        invariant intact ==> submitted == Submissions(events[..i])
      {
        assert events[..i + 1] == events[..i] + [events[i]];
        SubmissionsAppend(events[..i], events[i]);
        match events[i] {
          case Write(vecs) =>
            var _ := Submit(vecs);
          case IoReady(canWrite, failed, connectError) => HandleEvent(canWrite, failed, connectError);
          case TimedOut => Disconnect(Timeout);
        }
        i := i + 1;
      }
      assert events[..i] == events;
    }
  }

  lemma TakenBefore(a: seq<Attempt>, b: seq<Attempt>, start: nat)
    requires start <= |a| && a <= b && AllTaken(b[start..])
    ensures AllTaken(a[start..]) && AllTaken(b[|a|..])
  {
    forall i | 0 <= i < |a| - start ensures a[start..][i] == b[start..][i] {
      assert a[start + i] == b[start + i];
    }
    forall i | 0 <= i < |b| - |a| ensures b[|a|..][i] == b[start..][|a| - start + i] {
    }
  }

  lemma TakenFlush(cnx: Connection, wire0: seq<Byte>, attempts0: seq<Attempt>, queue0: seq<QueuedWrite>, block: seq<Byte>)
    requires cnx.Flushed(wire0, attempts0, queue0, block) && attempts0 <= cnx.attempts && AllTaken(cnx.attempts[|attempts0|..])
    ensures cnx.status == Connected && cnx.writeQueue == if queue0 == [] then [] else queue0[1..]
  {
  }

  /** Writable events while the socket takes all it is offered: each takes one block from the queue to the wire, and
      as many events as there are blocks empty the queue. */
  method Drain(cnx: Connection, n: nat)
    requires cnx.Valid() && cnx.status == Connected
    modifies cnx, cnx.writeQueue
    ensures cnx.Valid() && old(cnx.attempts) <= cnx.attempts
    ensures AllTaken(cnx.attempts[|old(cnx.attempts)|..]) ==> (
      && cnx.status == Connected && cnx.writeQueue == old(cnx.writeQueue)[Min(n, |old(cnx.writeQueue)|)..]
      && cnx.wire + Pending(cnx.writeQueue) == old(cnx.wire + Pending(cnx.writeQueue)))
    ensures AllTaken(cnx.attempts[|old(cnx.attempts)|..]) && n >= |old(cnx.writeQueue)| ==>
      cnx.writeQueue == [] && cnx.wire == old(cnx.wire + Pending(cnx.writeQueue))
  {
    hide Connection.Valid, Connection.Sound, Connection.Flushed, Pending, Flatten, AllTaken;
    ghost var start, queue := |cnx.attempts|, cnx.writeQueue;
    assert queue[0..] == queue;
    for i := 0 to n
      invariant cnx.Valid() && old(cnx.attempts) <= cnx.attempts
      invariant forall k :: 0 <= k < |cnx.writeQueue| ==> cnx.writeQueue[k] in queue
      invariant AllTaken(cnx.attempts[start..]) ==> (
        && cnx.status == Connected && cnx.writeQueue == queue[Min(i, |queue|)..]
        && cnx.wire + Pending(cnx.writeQueue) == old(cnx.wire + Pending(cnx.writeQueue)))
    {
      ghost var wire0, attempts0, queue0 := cnx.wire, cnx.attempts, cnx.writeQueue;
      ghost var block := if queue0 == [] then [] else Flatten(queue0[0].vecs);
      cnx.HandleEvent(true, false, false);
      if AllTaken(cnx.attempts[start..]) {
        TakenBefore(attempts0, cnx.attempts, start);
        TakenFlush(cnx, wire0, attempts0, queue0, block);
      }
    }
    PendingNone(cnx.writeQueue);
  }

  /** A write of one byte behind an empty vector succeeds, and the byte is neither sent nor queued. */
  method LostByte(cnx: Connection, b: Byte) returns (r: IoResult)
    requires cnx.Valid() && cnx.intact && cnx.status == Connected && cnx.writeQueue == []
    modifies cnx
    ensures r == Done(0) && cnx.wire + Pending(cnx.writeQueue) == old(cnx.wire)
  {
    r := cnx.Submit([[], [b]]);
  }

  datatype Event = Write(vecs: seq<seq<Byte>>) | IoReady(canWrite: bool, failed: bool, connectError: bool) | TimedOut

  ghost function Submissions(events: seq<Event>): seq<Byte> {
    if events == [] then []
    else Submissions(events[..|events| - 1]) +
         match events[|events| - 1] case Write(vecs) => Flatten(vecs) case _ => []
  }

  lemma SubmissionsAppend(events: seq<Event>, e: Event)
    ensures Submissions(events + [e]) == Submissions(events) + match e case Write(vecs) => Flatten(vecs) case _ => []
  {
    assert (events + [e])[..|events|] == events;
  }
}

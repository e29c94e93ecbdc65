/** Commands for the I/O thread: a queue under a lock, a pipe that wakes the I/O thread up, and callers that
    wait for the commands that are synchronous. Each method is what one thread does while it holds the lock,
    or the dispatch of one command outside it; any interleaving of them is a run. */
module CommandQueue {

  class Command {
    const sync: bool
    var complete: bool
    ghost var runs: nat
    ghost var freed: bool   // the owner may have reused the memory

    constructor (sync: bool)
      ensures this.sync == sync && Untouched()
    {
      this.sync, complete, runs, freed := sync, false, 0, false;
    }

    ghost predicate Untouched()
      reads this
    {
      runs == 0 && !complete && !freed
    }

    /** Dispatched, and not touched by the I/O thread any more. */
    ghost predicate Finished()
      reads this
    {
      runs == 1 && if sync then complete else freed && !complete
    }

    /** Dispatched, but its caller has not been told yet. */
    ghost predicate Finishing()
      reads this
    {
      sync && runs == 1 && !complete && !freed
    }

    /** link_dispatch_command: a command that nobody waits for is freed by its own handler. */
    method Dispatch()
      requires !freed
      modifies this`runs, this`freed
      ensures runs == old(runs) + 1 && freed == !sync
    {
      runs := runs + 1;
      freed := !sync;
    }
  }

  class Loop {
    var unread: nat               // bytes in the wakeup pipe
    var queue: seq<Command>       // link_cmd_queue
    var batch: seq<Command>       // the list the I/O thread has taken, from the next command on
    var finishing: Command?       // the synchronous command just dispatched, if any

    ghost var enqueued: seq<Command>  // every queued command, in the order of the calls
    ghost var done: nat               // how many of them have been dispatched

    ghost predicate Valid()
      reads this, enqueued
    {
      && unread == (if queue == [] then 0 else 1)
      && done <= |enqueued| && enqueued[done..] == batch + queue
      && (forall i, j :: 0 <= i < j < |enqueued| ==> enqueued[i] != enqueued[j])
      && (forall i :: done <= i < |enqueued| ==> enqueued[i].Untouched())
      && (finishing == null || (done > 0 && finishing == enqueued[done - 1] && finishing.Finishing()))
      && forall i :: 0 <= i < done && (finishing == null || i < done - 1) ==> enqueued[i].Finished()
    }

    constructor ()
      ensures Valid() && enqueued == []
    {
      unread, queue, batch, finishing, enqueued, done := 0, [], [], null, [], 0;
    }

    /** link_exec_command in another thread, up to the wait: the pipe is written to when the queue was empty. */
    method Exec(cmd: Command)
      requires Valid() && cmd.Untouched() && cmd !in enqueued
      modifies this`unread, this`queue, this`enqueued
      ensures Valid() && enqueued == old(enqueued) + [cmd] && done == old(done) && unread == 1
    {
      if queue == [] {
        unread := unread + 1;
      }
      queue := queue + [cmd];
      enqueued := enqueued + [cmd];
      assert batch + queue == old(batch + queue) + [cmd];
    }

    /** The caller of a synchronous command wakes up: it returns only when the command is complete, and then
        the command's memory is its own again. */
    method Wake(cmd: Command) returns (returned: bool)
      requires Valid() && cmd in enqueued && cmd.sync && !cmd.freed
      modifies cmd`freed
      ensures Valid() && returned == cmd.complete && (returned ==> cmd.runs == 1)
      ensures returned ==> exists i :: 0 <= i < done && enqueued[i] == cmd
    {
      returned := cmd.complete;
      ghost var i :| 0 <= i < |enqueued| && enqueued[i] == cmd;
      if returned {
        assert i < done;
        cmd.freed := true;
      }
    }

    /** link_mainloop_handle_input, woken by the pipe: one byte, and the whole queue. */
    method TakeQueue()
      requires Valid() && unread > 0 && batch == [] && finishing == null
      modifies this`unread, this`queue, this`batch
      ensures Valid() && unread == 0 && queue == [] && batch == old(queue) && batch != []
      ensures enqueued == old(enqueued) && done == old(done)
    {
      unread := unread - 1;
      batch, queue := queue, [];
      assert batch + queue == old(batch + queue);
    }

    /** The next command of the batch. Whether it is synchronous is looked up before the dispatch. */
    method DispatchNext()
      requires Valid() && batch != [] && finishing == null
      modifies this`batch, this`finishing, this`done, batch[0]
      ensures Valid() && enqueued == old(enqueued) && done == old(done) + 1
      ensures enqueued[old(done)] == old(batch)[0] && enqueued[old(done)].runs == 1
      ensures old(batch)[0].sync ==> !old(batch)[0].freed
    {
      var cmd := batch[0];
      assert cmd == (batch + queue)[0] == enqueued[done..][0] == enqueued[done];
      var sync := cmd.sync;
      cmd.Dispatch();
      batch := batch[1..];
      assert enqueued[done + 1..] == enqueued[done..][1..] == batch + queue;
      done := done + 1;
      if sync {
        finishing := cmd;
      }
    }

    /** The caller of a synchronous command is told. Its memory is still its caller's to keep, because the
        caller waits for exactly this. */
    method Complete()
      requires Valid() && finishing != null
      modifies this`finishing, finishing`complete
      ensures Valid() && finishing == null && enqueued == old(enqueued) && done == old(done)
      ensures old(finishing).complete && !old(finishing).freed
    {
      var cmd := finishing;
      assert !cmd.freed;
      cmd.complete := true;
      finishing := null;
    }
  }

  datatype Event = Call(sync: bool) | Waken(n: nat) | Input | Step

  /** Is each call, in order, synchronous? */
  ghost function Calls(events: seq<Event>): seq<bool> {
    if events == [] then []
    else Calls(events[..|events| - 1]) + match events[|events| - 1] case Call(sync) => [sync] case _ => []
  }

  /** The callers still waiting: distinct synchronous commands whose memory nobody has freed. */
  ghost predicate Waiting(loop: Loop, waiting: seq<Command>)
    reads loop, waiting
  {
    && (forall i :: 0 <= i < |waiting| ==> waiting[i] in loop.enqueued && waiting[i].sync && !waiting[i].freed)
    && forall i, j :: 0 <= i < j < |waiting| ==> waiting[i] != waiting[j]
  }

  /** One event; an event that cannot happen now does nothing. */
  method Handle(loop: Loop, waiting: seq<Command>, event: Event) returns (waiting': seq<Command>)
    requires loop.Valid() && Waiting(loop, waiting)
    modifies loop, loop.enqueued
    ensures loop.Valid() && Waiting(loop, waiting')
    ensures if event.Call?
            then exists cmd: Command :: fresh(cmd) && cmd.sync == event.sync && loop.enqueued == old(loop.enqueued) + [cmd]
            else loop.enqueued == old(loop.enqueued)
  {
    waiting' := waiting;
    match event {
      case Call(sync) =>
        var cmd := new Command(sync);
        loop.Exec(cmd);
        if sync {
          waiting' := waiting' + [cmd];
        }
      case Waken(n) =>
        if n < |waiting| {
          var returned := loop.Wake(waiting[n]);
          if returned {
            waiting' := waiting[..n] + waiting[n + 1..];
          }
        }
      case Input =>
        if loop.unread > 0 && loop.batch == [] && loop.finishing == null {
          loop.TakeQueue();
        }
      case Step =>
        if loop.finishing != null {
          loop.Complete();
        } else if loop.batch != [] {
          NextIsQueued(loop);
          loop.DispatchNext();
        }
    }
  }

  lemma NextIsQueued(loop: Loop)
    requires loop.Valid() && loop.batch != []
    ensures loop.done < |loop.enqueued| && loop.batch[0] == loop.enqueued[loop.done]
  {
    assert loop.batch[0] == (loop.batch + loop.queue)[0] == loop.enqueued[loop.done..][0];
  }

  /** Any interleaving of callers and the I/O thread: the commands queued are those of the calls, in order;
      those dispatched are a prefix, and each ran once. */
  method Run(events: seq<Event>) returns (loop: Loop, waiting: seq<Command>)
    ensures fresh(loop) && loop.Valid() && Waiting(loop, waiting)
    ensures |loop.enqueued| == |Calls(events)|
    ensures forall i :: 0 <= i < |loop.enqueued| ==>
      loop.enqueued[i].sync == Calls(events)[i] && loop.enqueued[i].runs == if i < loop.done then 1 else 0
    ensures loop.unread == if loop.queue != [] then 1 else 0
    ensures loop.queue == [] && loop.batch == [] ==> loop.done == |loop.enqueued|
  {
    loop := new Loop();
    waiting := [];
    for k := 0 to |events|
      invariant fresh(loop) && loop.Valid() && Waiting(loop, waiting)
      invariant forall i :: 0 <= i < |loop.enqueued| ==> fresh(loop.enqueued[i])
      invariant |loop.enqueued| == |Calls(events[..k])|
      invariant forall i :: 0 <= i < |loop.enqueued| ==> loop.enqueued[i].sync == Calls(events[..k])[i]
    {
      hide Loop.Valid, Waiting;
      assert events[..k + 1][..k] == events[..k];
      waiting := Handle(loop, waiting, events[k]);
    }
    assert events[..|events|] == events;
  }
}

/** The table of requests that wait for a reply. */
module PendingReplies {
  import opened Common

  datatype Reply = Reply(msgType: nat, requestId: nat, cnx: nat, systemException: bool, content: int)

  /** GIOPMessageQueueEntry. `home` is the connection the request was sent on; `cnx` is forgotten once the
      entry is not used any more. */
  class Entry {
    const msgType: nat
    const requestId: nat
    const home: nat
    var async: bool   // it has a callback
    var cnx: Option<nat>
    var buffer: Option<Reply>

    ghost var departures: nat            // how often the entry has left the pending list
    ghost var calls: seq<Option<Reply>>  // the asynchronous callback, with the buffer it was handed
    ghost var withdrawn: bool            // the sender gave up before an answer came
    ghost var missed: bool               // the callback was set when the entry had left already

    constructor (msgType: nat, requestId: nat, home: nat)
      ensures this.msgType == msgType && this.requestId == requestId && this.home == home && !async
      ensures Waiting()
    {
      this.msgType, this.requestId, this.home, async := msgType, requestId, home, false;
      cnx, buffer, departures, calls, withdrawn, missed := Some(home), None, 0, [], false, false;
    }

    ghost predicate Waiting()
      reads this
    {
      cnx == Some(home) && buffer == None && departures == 0 && calls == [] && !withdrawn && !missed
    }

    predicate Expects(r: Reply) {
      r.requestId == requestId && r.msgType == msgType
    }

    predicate Answers(r: Reply) {
      Expects(r) && r.cnx == home
    }

    /** The entry was dropped with its connection; its callback, if any, has not been handed off yet. */
    ghost predicate Cut()
      reads this
    {
      cnx == None && buffer == None && departures == 1 && calls == [] && !withdrawn && !missed
    }

    /** The entry has left once. Its buffer, if any, is the answer to its own request, and an asynchronous
        callback that was set in time has been handed off once, with that buffer or with none. */
    ghost predicate Settled()
      reads this
    {
      && departures == 1
      && (buffer.Some? ==> Answers(buffer.value))
      && calls == (if async && !withdrawn && !missed then [buffer] else [])
      && (withdrawn ==> buffer == None)
    }
  }

  ghost predicate DistinctEntries(es: seq<Entry>) {
    forall i, j :: 0 <= i < j < |es| ==> es[i] != es[j]
  }

  /** Distinct entries, and distinct requests. */
  ghost predicate UniqueIds(es: seq<Entry>) {
    forall i, j :: 0 <= i < j < |es| ==>
      es[i] != es[j] && (es[i].requestId != es[j].requestId || es[i].msgType != es[j].msgType)
  }

  /** The entries of other connections, in order. */
  ghost function Others(es: seq<Entry>, cnx: nat): seq<Entry> {
    if es == [] then []
    else Others(es[..|es| - 1], cnx) + if es[|es| - 1].home == cnx then [] else [es[|es| - 1]]
  }

  /** The connection's entries that have a callback, newest first. */
  ghost function Callbacks(es: seq<Entry>, cnx: nat): seq<Entry>
    reads es`async
  {
    if es == [] then []
    else
      var e := es[|es| - 1];
      (if e.home == cnx && e.async then [e] else []) + Callbacks(es[..|es| - 1], cnx)
  }

  lemma OthersNil(cnx: nat)
    ensures Others([], cnx) == [] && Callbacks([], cnx) == []
  {
  }

  lemma FilterStep(es: seq<Entry>, i: nat, cnx: nat)
    requires i < |es|
    ensures Others(es[..i + 1], cnx) == Others(es[..i], cnx) + if es[i].home == cnx then [] else [es[i]]
    ensures Callbacks(es[..i + 1], cnx) == (if es[i].home == cnx && es[i].async then [es[i]] else []) + Callbacks(es[..i], cnx)
  {
    assert es[..i + 1][..i] == es[..i];
  }

  lemma RemoveStep(kept: seq<Entry>, before: seq<Entry>, i: nat)
    requires i < |before|
    ensures (kept + before[i..])[..|kept|] + (kept + before[i..])[|kept| + 1..] == kept + before[i + 1..]
    ensures kept + [before[i]] + before[i + 1..] == kept + before[i..]
  {
  }

  lemma UniqueAppend(es: seq<Entry>, e: Entry)
    requires UniqueIds(es) && forall i :: 0 <= i < |es| ==> Apart(es[i], e)
    ensures UniqueIds(es + [e])
  {
    forall i, j | 0 <= i < j < |es + [e]|
      ensures (es + [e])[i] != (es + [e])[j]
      ensures (es + [e])[i].requestId != (es + [e])[j].requestId || (es + [e])[i].msgType != (es + [e])[j].msgType
    {
      assert (es + [e])[i] == es[i] && Apart(es[i], e);
    }
  }

  predicate Apart(a: Entry, b: Entry) {
    a != b && (a.requestId != b.requestId || a.msgType != b.msgType)
  }

  lemma UniqueSplit(es: seq<Entry>)
    requires UniqueIds(es) && es != []
    ensures var e := es[|es| - 1];
      UniqueIds(es[..|es| - 1]) && forall o :: o in es[..|es| - 1] ==> Apart(o, e)
  {
  }

  lemma {:induction false} OthersFacts(es: seq<Entry>, cnx: nat)
    requires UniqueIds(es)
    ensures forall i :: 0 <= i < |Others(es, cnx)| ==> Others(es, cnx)[i] in es && Others(es, cnx)[i].home != cnx
    ensures forall i :: 0 <= i < |es| && es[i].home != cnx ==> es[i] in Others(es, cnx)
    ensures UniqueIds(Others(es, cnx))
  {
    if es != [] {
      var init, e := es[..|es| - 1], es[|es| - 1];
      UniqueSplit(es);
      hide UniqueIds;
      OthersFacts(init, cnx);
      assert es == init + [e];
      if e.home != cnx {
        UniqueAppend(Others(init, cnx), e);
      }
    }
  }

  lemma {:induction false} CallbacksFacts(es: seq<Entry>, cnx: nat)
    requires UniqueIds(es)
    ensures forall i :: 0 <= i < |Callbacks(es, cnx)| ==>
      Callbacks(es, cnx)[i] in es && Callbacks(es, cnx)[i].home == cnx && Callbacks(es, cnx)[i].async
    ensures forall i :: 0 <= i < |es| && es[i].home == cnx && es[i].async ==> es[i] in Callbacks(es, cnx)
    ensures DistinctEntries(Callbacks(es, cnx))
  {
    if es != [] {
      var init, e := es[..|es| - 1], es[|es| - 1];
      UniqueSplit(es);
      hide UniqueIds;
      CallbacksFacts(init, cnx);
      assert es == init + [e];
      assert e !in Callbacks(init, cnx);
    }
  }

  /** Of the first `n` entries, those of the connection are cut off; all others wait. */
  ghost predicate CutUpTo(es: seq<Entry>, n: nat, cnx: nat)
    reads es
  {
    forall j :: 0 <= j < |es| ==> if j < n && es[j].home == cnx then es[j].Cut() else es[j].Waiting()
  }

  class Table {
    var queued: seq<Entry>      // giop_queued_messages, newest first
    ghost var all: set<Entry>   // every entry that was ever set up

    ghost predicate Valid()
      reads this, all
    {
      && UniqueIds(queued) && (forall e :: e in queued ==> e in all)
      && forall e :: e in all ==> if e in queued then e.Waiting() else e.Settled()
    }

    constructor ()
      ensures Valid() && queued == [] && all == {}
    {
      queued, all := [], {};
    }

    /** giop_recv_list_setup_queue_entry, for a request id that no waiting request of that type has. */
    method Setup(msgType: nat, requestId: nat, cnx: nat) returns (ent: Entry)
      requires Valid() && forall e :: e in queued ==> e.requestId != requestId || e.msgType != msgType
      modifies this
      ensures Valid() && fresh(ent) && ent.Waiting() && queued == [ent] + old(queued) && all == old(all) + {ent}
      ensures ent.msgType == msgType && ent.requestId == requestId && ent.home == cnx && !ent.async
    {
      ent := new Entry(msgType, requestId, cnx);
      queued := [ent] + queued;
      all := all + {ent};
    }

    /** giop_recv_list_setup_queue_entry_async, some time after the entry was queued: the callback is missed
        exactly if the entry has left by then. */
    method SetupAsync(ent: Entry)
      requires Valid() && ent in all && !ent.async
      modifies ent`async, ent`missed
      ensures Valid() && ent.async && (ent.missed <==> ent !in queued) && ent.calls == []
    {
      ent.async := true;
      ent.missed := ent !in queued;
    }

    /** handle_reply. The answer goes to the entry that waits for it; a reply nobody waits for, or one from
        another connection, changes nothing. */
    method HandleReply(r: Reply) returns (error: bool)
      requires Valid()
      modifies this`queued, queued`departures, queued`buffer, queued`calls
      ensures Valid() && all == old(all)
      ensures forall e :: e in old(queued) && e.Answers(r) ==> e !in queued && e.buffer == Some(r) && !error
      ensures forall e :: e in old(queued) && !e.Answers(r) ==> e in queued && old(e.Waiting()) && e.Waiting()
      ensures (forall e :: e in old(queued) ==> !e.Answers(r)) ==> queued == old(queued)
      ensures forall e :: e in old(queued) && e.Expects(r) && !e.Answers(r) ==> error
      ensures (forall e :: e in old(queued) ==> !e.Expects(r)) ==> error == !r.systemException
    {
      var k := 0;
      while k < |queued| && !queued[k].Expects(r)
        invariant k <= |queued|
        invariant forall j :: 0 <= j < k ==> !queued[j].Expects(r)
      {
        k := k + 1;
      }
      if k == |queued| {
        return !r.systemException;
      }
      var ent := queued[k];
      assert ent in queued && ent.Expects(r) && ent.Waiting();
      if ent.cnx != Some(r.cnx) {
        return true;
      }
      queued := queued[..k] + queued[k + 1..];
      ent.departures := ent.departures + 1;
      ent.buffer := Some(r);
      if ent.async {
        InvokeAsync(ent);
      }
      error := false;
    }

    /** giop_recv_list_zap: the answers that can no longer come. */
    method Zap(cnx: nat)
      requires Valid()
      modifies this`queued, queued`departures, queued`buffer, queued`cnx, queued`calls
      ensures Valid() && all == old(all)
      ensures forall e :: e in old(queued) && e.home == cnx ==> e !in queued && e.buffer == None && e.cnx == None
      ensures forall e :: e in old(queued) && e.home != cnx ==> e in queued && e.Waiting()
      ensures forall e :: e in queued ==> e in old(queued)
    {
      hide Others, Callbacks, UniqueIds, DistinctEntries;
      ghost var before := queued;
      OthersFacts(before, cnx);
      CallbacksFacts(before, cnx);
      var notify := TakeOut(cnx);
      forall i | 0 <= i < |notify| ensures notify[i] in before && notify[i].Cut() && notify[i].async {
        var j :| 0 <= j < |before| && before[j] == notify[i];
      }
      Notify(notify);
      forall i | 0 <= i < |queued| ensures queued[i] in all && queued[i].Waiting() {
        var j :| 0 <= j < |before| && before[j] == queued[i];
      }
    }

    /** The first loop: the entries of the connection leave the list. */
    method TakeOut(cnx: nat) returns (notify: seq<Entry>)
      requires Valid()
      modifies this`queued, queued`departures, queued`buffer, queued`cnx
      ensures queued == Others(old(queued), cnx) && notify == Callbacks(old(queued), cnx)
      ensures CutUpTo(old(queued), |old(queued)|, cnx)
    {
      hide *;
      ghost var before := queued;
      WaitingQueue(cnx);
      OthersNil(cnx);
      notify := [];
      var k := 0;
      ghost var i, kept := 0, [];
      assert before[0..] == before && before[..0] == [] && kept + before == before;
      while k < |queued|
        invariant i <= |before| && k == |kept| && queued == kept + before[i..]
        invariant kept == Others(before[..i], cnx) && notify == Callbacks(before[..i], cnx)
        invariant CutUpTo(before, i, cnx)
        decreases |before| - i
      {
        assert i < |before|;
        k, notify, kept := TakeNext(queued[k], cnx, k, notify, before, i, kept);
        i := i + 1;
      }
      assert before[..i] == before && Others(before, cnx) + [] == Others(before, cnx);
    }

    /** One round of it, for the entry at `k`. */
    method TakeNext(ent: Entry, cnx: nat, k0: nat, notify0: seq<Entry>, ghost before: seq<Entry>, ghost i: nat, ghost kept0: seq<Entry>)
      returns (k: nat, notify: seq<Entry>, ghost kept: seq<Entry>)
      requires i < |before| && ent == before[i] && k0 == |kept0| && queued == kept0 + before[i..]
      requires kept0 == Others(before[..i], cnx) && notify0 == Callbacks(before[..i], cnx)
      requires CutUpTo(before, i, cnx) && DistinctEntries(before)
      modifies this`queued, ent`departures, ent`buffer, ent`cnx
      ensures k == |kept| && queued == kept + before[i + 1..]
      ensures kept == Others(before[..i + 1], cnx) && notify == Callbacks(before[..i + 1], cnx)
      ensures CutUpTo(before, i + 1, cnx)
    {
      hide *;
      k, notify, kept := k0, notify0, kept0;
      FilterStep(before, i, cnx);
      RemoveStep(kept, before, i);
      var mine := CutOff(ent, cnx, before, i);
      if mine {
        if ent.async {
          notify := [ent] + notify;
        }
        queued := queued[..k] + queued[k + 1..];
        assert kept + [] == kept;
      } else {
        k := k + 1;
        kept := kept + [ent];
      }
    }

    lemma WaitingQueue(cnx: nat)
      requires Valid()
      ensures CutUpTo(queued, 0, cnx) && DistinctEntries(queued)
    {
      assert forall j :: 0 <= j < |queued| ==> queued[j] in queued;
    }

    /** An entry of the connection forgets it. */
    method CutOff(ent: Entry, cnx: nat, ghost before: seq<Entry>, ghost i: nat) returns (mine: bool)
      requires i < |before| && ent == before[i] && DistinctEntries(before) && CutUpTo(before, i, cnx)
      modifies ent`buffer, ent`cnx, ent`departures
      ensures mine == (ent.home == cnx) && CutUpTo(before, i + 1, cnx)
    {
      assert ent.Waiting();
      mine := ent.cnx == Some(cnx);
      if mine {
        ent.buffer := None;
        ent.cnx := None;
        ent.departures := ent.departures + 1;
      }
    }

    /** The second loop, outside the lock. */
    method Notify(notify: seq<Entry>)
      requires DistinctEntries(notify) && forall i :: 0 <= i < |notify| ==> notify[i].Cut() && notify[i].async
      modifies notify`calls
      ensures forall e :: e in notify ==> e.Settled() && e.buffer == None && e.cnx == None
    {
      var n := 0;
      while n < |notify|
        invariant n <= |notify|
        invariant forall m :: n <= m < |notify| ==> notify[m].Cut()
        invariant forall m :: 0 <= m < n ==> notify[m].Settled() && notify[m].buffer == None && notify[m].cnx == None
      {
        InvokeAsync(notify[n]);
        n := n + 1;
      }
    }

    /** giop_invoke_async: the callback is called, or queued for the thread that sent the request. */
    method InvokeAsync(ent: Entry)
      requires ent.async && ent.calls == []
      modifies ent`calls
      ensures ent.calls == [ent.buffer]
    {
      ent.calls := ent.calls + [ent.buffer];
    }

    /** giop_recv_list_destroy_queue_entry: after an answer it only forgets the connection; before one it
        withdraws the request. */
    method Destroy(ent: Entry)
      requires Valid() && ent in all
      modifies this`queued, ent
      ensures Valid() && all == old(all) && ent !in queued && ent.cnx == None && ent.buffer == old(ent.buffer)
      ensures forall e :: e in queued <==> e in old(queued) && e != ent
      ensures ent.calls == old(ent.calls)
    {
      var k := 0;
      while k < |queued| && queued[k] != ent
        invariant k <= |queued| && ent !in queued[..k]
      {
        k := k + 1;
      }
      ghost var before := queued;
      if k < |queued| {
        queued := queued[..k] + queued[k + 1..];
        ent.departures := ent.departures + 1;
        ent.withdrawn := true;
      } else {
        assert queued[..k] == queued;
      }
      ent.cnx := None;
    }
  }

  /** A connection that is lost before the callback is set: nobody calls it. */
  method MissedCallback(table: Table, cnx: nat) returns (ent: Entry)
    requires table.Valid() && table.queued == []
    modifies table
    ensures table.Valid() && ent in table.all && ent !in table.queued && ent.async && ent.calls == []
  {
    ent := table.Setup(1, 0, cnx);
    assert ent in table.queued;
    table.Zap(cnx);
    table.SetupAsync(ent);
  }

  datatype Event =
    | Sent(msgType: nat, requestId: nat, cnx: nat)
    | CallbackSet(n: nat)   // of the n-th sender
    | Arrived(reply: Reply)
    | Closed(cnx: nat)
    | GivenUp(n: nat)   // the n-th sender withdraws

  /** Any run of registrations, replies, disconnects and withdrawals: an entry waits in the table, or has
      left it once and is settled. A registration whose id and type are waiting already is skipped. */
  method Run(events: seq<Event>) returns (table: Table, sent: seq<Entry>)
    ensures fresh(table) && table.Valid()
    ensures forall i :: 0 <= i < |sent| ==> if sent[i] in table.queued then sent[i].Waiting() else sent[i].Settled()
    ensures forall e :: e in table.queued ==> e in sent
  {
    table := new Table();
    sent := [];
    for k := 0 to |events|
      invariant fresh(table) && table.Valid()
      invariant forall e :: e in table.all ==> fresh(e)
      invariant forall e :: e in table.all <==> e in sent
    {
      hide Table.Valid;
      QueuedAll(table);
      Handle(table, sent, events[k]);
      if |table.queued| > 0 && table.queued[0] !in sent {
        sent := sent + [table.queued[0]];
      }
    }
    assert forall i :: 0 <= i < |sent| ==> sent[i] in table.all;
  }

  lemma QueuedAll(table: Table)
    requires table.Valid()
    ensures forall i :: 0 <= i < |table.queued| ==> table.queued[i] in table.all
  {
    assert forall i :: 0 <= i < |table.queued| ==> table.queued[i] in table.queued;
  }

  method Handle(table: Table, sent: seq<Entry>, event: Event)
    requires table.Valid() && forall e :: e in table.all <==> e in sent
    modifies table, table.all
    ensures table.Valid()
    ensures table.all == old(table.all) ||
      exists ent: Entry :: fresh(ent) && table.all == old(table.all) + {ent} && table.queued == [ent] + old(table.queued)
    ensures table.all == old(table.all) ==> forall e :: e in table.queued ==> e in sent
  {
    hide Table.Valid;
    QueuedAll(table);
    match event {
      case Sent(msgType, requestId, cnx) =>
        if forall i :: 0 <= i < |table.queued| ==> table.queued[i].requestId != requestId || table.queued[i].msgType != msgType {
          var ent := table.Setup(msgType, requestId, cnx);
        }
      case CallbackSet(n) =>
        if n < |sent| && !sent[n].async {
          assert sent[n] in table.all;
          table.SetupAsync(sent[n]);
        }
      case Arrived(reply) =>
        var _ := table.HandleReply(reply);
      case Closed(cnx) =>
        table.Zap(cnx);
      case GivenUp(n) =>
        if n < |sent| {
          assert sent[n] in table.all;
          table.Destroy(sent[n]);
        }
    }
    QueuedAll(table);
  }
}

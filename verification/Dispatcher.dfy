/** The request dispatcher: worker threads that own keys, and producers that push requests for keys. Each
    method is what one thread does while it holds the locks it needs; any interleaving of them is a run. */
module Dispatcher {
  import opened Common

  type Key = nat

  /** A request for an object of a POA; without a key it gets a thread of its own. */
  datatype Request = Request(id: nat, key: Option<Key>, poa: nat)

  /** What first_valid_request has found, before the thread's lock is taken. */
  datatype Peek = NoPeek | NoPolicy | FirstAllowed(at: Option<nat>)

  datatype Phase = Created | Live | Retired

  /** GIOPThread. `running` is the stack of handlers: a handler that waits for a reply processes the queue. */
  datatype Thread = Thread(keys: seq<Key>, queue: seq<Request>, asyncEnts: seq<nat>, policies: seq<set<nat>>,
                           peek: Peek, running: seq<Request>, phase: Phase)

  const MAIN: nat := 0

  /** The first request that the policy in force allows. */
  function FirstAllowedIndex(queue: seq<Request>, allowed: set<nat>): (i: nat)
    ensures i <= |queue| && (i < |queue| ==> queue[i].poa in allowed)
    ensures forall j :: 0 <= j < i ==> queue[j].poa !in allowed
  {
    if queue == [] || queue[0].poa in allowed then 0
    else
      var r := FirstAllowedIndex(queue[1..], allowed);
      assert forall j :: 1 <= j < 1 + r ==> queue[j] == queue[1..][j - 1];
      1 + r
  }

  /** first_valid_request: policies are kept newest first. */
  function FirstValid(t: Thread): Peek {
    if t.policies == [] then NoPolicy
    else
      var i := FirstAllowedIndex(t.queue, t.policies[0]);
      FirstAllowed(if i < |t.queue| then Some(i) else None)
  }

  /** giop_thread_queue_empty_T. */
  predicate QueueEmpty(t: Thread) {
    match FirstValid(t)
    case NoPolicy => t.queue == [] && t.asyncEnts == []
    case FirstAllowed(at) => at.None?
    case NoPeek => true
  }

  /** A thread has nothing to do exactly if, without a policy, both its queues are empty, and with one, no request
      is allowed; answers do not count then. */
  ghost predicate Idle(t: Thread) {
    if t.policies == [] then t.queue == [] && t.asyncEnts == []
    else forall r :: r in t.queue ==> r.poa !in t.policies[0]
  }

  lemma EmptyIsIdle(t: Thread)
    ensures QueueEmpty(t) <==> Idle(t)
  {
    if t.policies != [] {
      NoneAllowed(t.queue, t.policies[0]);
    }
  }

  /** What the search must find: no policy, or the first request that the newest policy allows. */
  ghost predicate Peeked(t: Thread, peek: Peek) {
    if t.policies == [] then peek == NoPolicy
    else
      && peek.FirstAllowed?
      && (peek.at == None <==> forall r :: r in t.queue ==> r.poa !in t.policies[0])
      && (peek.at.Some? ==>
        var i := peek.at.value;
        i < |t.queue| && t.queue[i].poa in t.policies[0] && forall j :: 0 <= j < i ==> t.queue[j].poa !in t.policies[0])
  }

  lemma PeekIs(t: Thread)
    ensures Peeked(t, FirstValid(t))
  {
    if t.policies != [] {
      NoneAllowed(t.queue, t.policies[0]);
    }
  }

  lemma NoneAllowed(queue: seq<Request>, allowed: set<nat>)
    ensures FirstAllowedIndex(queue, allowed) == |queue| <==> forall r :: r in queue ==> r.poa !in allowed
  {
    if FirstAllowedIndex(queue, allowed) == |queue| {
      forall r | r in queue ensures r.poa !in allowed {
        var i :| 0 <= i < |queue| && queue[i] == r;
      }
    }
  }

  // ----- keys -----

  /** A key is in the hash exactly when it is in the key list of the thread it is mapped to. */
  ghost predicate KeysOk(hash: map<Key, nat>, threads: seq<Thread>) {
    && (forall k :: k in hash ==> hash[k] < |threads| && k in threads[hash[k]].keys)
    && (forall t, k :: 0 <= t < |threads| && k in threads[t].keys ==> k in hash && hash[k] == t)
    && (forall t :: 0 <= t < |threads| ==> NoRepeat(threads[t].keys))
    && forall t :: 0 <= t < |threads| && threads[t].phase == Retired ==> threads[t].keys == []
  }

  ghost predicate NoRepeat(keys: seq<Key>) {
    forall i, j :: 0 <= i < j < |keys| ==> keys[i] != keys[j]
  }

  // ----- requests -----

  function Queued(threads: seq<Thread>): seq<Request> {
    if threads == [] then [] else Queued(threads[..|threads| - 1]) + threads[|threads| - 1].queue
  }

  /** The queue of one thread within all queues. */
  lemma {:induction false} QueuedSplit(threads: seq<Thread>, t: nat, th: Thread) returns (a: seq<Request>, b: seq<Request>)
    requires t < |threads|
    ensures Queued(threads) == a + (threads[t].queue + b)
    ensures Queued(threads[t := th]) == a + (th.queue + b)
  {
    var init, last := threads[..|threads| - 1], threads[|threads| - 1];
    var threads' := threads[t := th];
    if t == |threads| - 1 {
      assert threads'[..|threads| - 1] == init;
      a, b := Queued(init), [];
      assert last.queue + [] == last.queue && th.queue + [] == th.queue;
    } else {
      assert threads'[..|threads| - 1] == init[t := th] && threads'[|threads| - 1] == last;
      a, b := QueuedSplit(init, t, th);
      assert a + (init[t].queue + b) + last.queue == a + (init[t].queue + (b + last.queue));
      assert a + (th.queue + b) + last.queue == a + (th.queue + (b + last.queue));
      b := b + last.queue;
    }
  }

  lemma QueuedAdd(threads: seq<Thread>, th: Thread)
    ensures Queued(threads + [th]) == Queued(threads) + th.queue
  {
    assert (threads + [th])[..|threads|] == threads;
  }

  /** The requests of a key, or of a key and a POA. */
  predicate Matches(k: Key, poa: Option<nat>, r: Request) {
    r.key == Some(k) && (poa == None || poa == Some(r.poa))
  }

  function Select(k: Key, poa: Option<nat>, s: seq<Request>): seq<Request> {
    if s == [] then []
    else Select(k, poa, s[..|s| - 1]) + if Matches(k, poa, s[|s| - 1]) then [s[|s| - 1]] else []
  }

  lemma {:induction false} SelectConcat(k: Key, poa: Option<nat>, a: seq<Request>, b: seq<Request>)
    ensures Select(k, poa, a + b) == Select(k, poa, a) + Select(k, poa, b)
  {
    if b == [] {
      assert a + b == a;
    } else {
      assert (a + b)[..|a + b| - 1] == a + b[..|b| - 1];
      SelectConcat(k, poa, a, b[..|b| - 1]);
    }
  }

  lemma SelectOne(k: Key, poa: Option<nat>, r: Request)
    ensures Select(k, poa, [r]) == if Matches(k, poa, r) then [r] else []
  {
    assert [r][..0] == [];
  }

  lemma {:induction false} SelectNone(k: Key, poa: Option<nat>, s: seq<Request>)
    requires forall i :: 0 <= i < |s| ==> !Matches(k, poa, s[i])
    ensures Select(k, poa, s) == []
  {
    if s != [] {
      SelectNone(k, poa, s[..|s| - 1]);
    }
  }

  // ----- the invariant -----

  /** A producer that holds the hash lock. */
  datatype Push = NoPush | Pushing(t: nat, r: Request, isNew: bool, appended: bool)

  function InFlight(push: Push): seq<Request> {
    if push.Pushing? && !push.appended then [push.r] else []
  }

  /** A thread that is not running yet is the one a producer is about to start. */
  ghost predicate PushOk(push: Push, hash: map<Key, nat>, threads: seq<Thread>) {
    && (push.Pushing? ==>
          && push.t < |threads| && threads[push.t].phase == (if push.isNew then Created else Live)
          && (push.r.key.Some? ==> push.r.key.value in hash && hash[push.r.key.value] == push.t))
    && forall t :: 0 <= t < |threads| && threads[t].phase == Created ==> push.Pushing? && push.isNew && push.t == t
  }

  /** Requests for a key that was never taken from its thread are queued and handled only there. */
  ghost predicate Homed(hash: map<Key, nat>, threads: seq<Thread>, spoiled: set<Key>) {
    forall t, r :: 0 <= t < |threads| && (r in threads[t].queue || r in threads[t].running) ==> HomedAt(hash, spoiled, t, r)
  }

  ghost predicate HomedAt(hash: map<Key, nat>, spoiled: set<Key>, t: nat, r: Request) {
    r.key.Some? && r.key.value !in spoiled ==> r.key.value in hash && hash[r.key.value] == t
  }

  ghost predicate ThreadOk(t: Thread, policyUsed: bool) {
    && (t.phase == Retired ==> t.queue == [] && t.asyncEnts == [] && t.running == [] && t.peek == NoPeek)
    && (t.phase == Created ==> t.running == [] && t.peek == NoPeek && t.policies == [])
    && (!policyUsed ==> t.policies == [])
    && (t.peek == NoPolicy ==> t.policies == [])
    && (t.peek.FirstAllowed? ==>
          && t.policies != []
          && (t.peek.at.Some? ==>
                var i := t.peek.at.value;
                && i < |t.queue| && t.queue[i].poa in t.policies[0]
                && forall j :: 0 <= j < i ==> t.queue[j].poa !in t.policies[0]))
  }

  ghost predicate ThreadsOk(threads: seq<Thread>, policyUsed: bool) {
    && |threads| > 0 && threads[MAIN].phase == Live
    && forall t :: 0 <= t < |threads| ==> ThreadOk(threads[t], policyUsed)
  }

  /** No request is lost or duplicated on its way from the producers to the handlers. */
  ghost predicate Conserved(pushed: seq<Request>, started: seq<Request>, lost: seq<Request>, push: Push, threads: seq<Thread>) {
    multiset(pushed) == multiset(started) + multiset(lost) + multiset(InFlight(push)) + multiset(Queued(threads))
  }

  function QueueOf(k: Key, hash: map<Key, nat>, threads: seq<Thread>): seq<Request> {
    if k in hash && hash[k] < |threads| then threads[hash[k]].queue else []
  }

  /** Started requests, then waiting ones, are the pushed ones in push order. */
  ghost predicate Ordered(k: Key, poa: Option<nat>, pushed: seq<Request>, started: seq<Request>, push: Push,
                          hash: map<Key, nat>, threads: seq<Thread>)
  {
    Select(k, poa, pushed) == Select(k, poa, started) + (Select(k, poa, QueueOf(k, hash, threads)) + Select(k, poa, InFlight(push)))
  }

  /** Push order is kept for the requests of one key and one POA, and for all requests of a key as long as
      no policy has been in force. */
  ghost predicate InOrder(spoiled: set<Key>, policyUsed: bool, pushed: seq<Request>, started: seq<Request>, push: Push,
                          hash: map<Key, nat>, threads: seq<Thread>)
  {
    forall k, poa :: k !in spoiled && (poa != None || !policyUsed) ==> Ordered(k, poa, pushed, started, push, hash, threads)
  }

  /** The answers that wait for their threads. */
  ghost function Answers(threads: seq<Thread>): multiset<nat> {
    if threads == [] then multiset{} else Answers(threads[..|threads| - 1]) + multiset(threads[|threads| - 1].asyncEnts)
  }

  /** No answer is lost unnoticed, or delivered twice. */
  ghost predicate AllAnswers(answered: seq<nat>, delivered: seq<nat>, lostAnswers: seq<nat>, threads: seq<Thread>) {
    multiset(answered) == multiset(delivered) + multiset(lostAnswers) + Answers(threads)
  }

  lemma {:induction false} AnswersUpdate(threads: seq<Thread>, t: nat, th: Thread)
    requires t < |threads|
    ensures Answers(threads[t := th]) + multiset(threads[t].asyncEnts) == Answers(threads) + multiset(th.asyncEnts)
  {
    var n := |threads| - 1;
    AnswersLast(threads);
    AnswersLast(threads[t := th]);
    hide Answers;
    if t == n {
      assert threads[t := th][..n] == threads[..n];
    } else {
      assert threads[t := th][..n] == threads[..n][t := th];
      AnswersUpdate(threads[..n], t, th);
      AddBoth(Answers(threads[..n][t := th]), multiset(threads[t].asyncEnts), Answers(threads[..n]), multiset(th.asyncEnts),
              multiset(threads[n].asyncEnts));
    }
  }

  lemma AnswersLast(threads: seq<Thread>)
    requires threads != []
    ensures Answers(threads) == Answers(threads[..|threads| - 1]) + multiset(threads[|threads| - 1].asyncEnts)
  {
  }

  lemma AddBoth(a: multiset<nat>, b: multiset<nat>, c: multiset<nat>, d: multiset<nat>, e: multiset<nat>)
    requires a + b == c + d
    ensures (a + e) + b == (c + e) + d
  {
    assert (a + e) + b == (a + b) + e == (c + d) + e;
  }

  lemma CancelBoth(a: multiset<nat>, b: multiset<nat>, c: multiset<nat>)
    requires a + b == c + b
    ensures a == c
  {
    assert a == (a + b) - b && c == (c + b) - b;
  }

  /** A step that leaves the waiting answers alone. */
  lemma AnswersKept(answered: seq<nat>, delivered: seq<nat>, lost: seq<nat>, threads: seq<Thread>, t: nat, th: Thread)
    requires AllAnswers(answered, delivered, lost, threads) && t < |threads| && th.asyncEnts == threads[t].asyncEnts
    ensures AllAnswers(answered, delivered, lost, threads[t := th])
  {
    hide Answers;
    AnswersUpdate(threads, t, th);
    CancelBoth(Answers(threads[t := th]), multiset(th.asyncEnts), Answers(threads));
  }

  lemma AnswersNewThread(answered: seq<nat>, delivered: seq<nat>, lost: seq<nat>, threads: seq<Thread>, th: Thread)
    requires AllAnswers(answered, delivered, lost, threads) && th.asyncEnts == []
    ensures AllAnswers(answered, delivered, lost, threads + [th])
  {
    AnswersLast(threads + [th]);
    hide Answers;
    assert (threads + [th])[..|threads|] == threads;
  }

  lemma AnswersMoved(threads: seq<Thread>, t: nat, th: Thread, e: nat)
    requires t < |threads| && th.asyncEnts == [e] + threads[t].asyncEnts
    ensures Answers(threads[t := th]) == Answers(threads) + multiset{e}
  {
    hide Answers;
    AnswersUpdate(threads, t, th);
    var m := multiset(threads[t].asyncEnts);
    assert multiset(th.asyncEnts) == multiset{e} + m;
    assert Answers(threads) + (multiset{e} + m) == (Answers(threads) + multiset{e}) + m;
    CancelBoth(Answers(threads[t := th]), m, Answers(threads) + multiset{e});
  }

  /** An answer is queued. */
  lemma AnswersQueued(answered: seq<nat>, delivered: seq<nat>, lost: seq<nat>, threads: seq<Thread>, t: nat, th: Thread, e: nat)
    requires AllAnswers(answered, delivered, lost, threads)
    requires t < |threads| && th.asyncEnts == [e] + threads[t].asyncEnts
    ensures AllAnswers(answered + [e], delivered, lost, threads[t := th])
  {
    hide Answers;
    AnswersMoved(threads, t, th, e);
  }

  /** An answer comes too late. */
  lemma AnswersLate(answered: seq<nat>, delivered: seq<nat>, lost: seq<nat>, threads: seq<Thread>, e: nat)
    requires AllAnswers(answered, delivered, lost, threads)
    ensures AllAnswers(answered + [e], delivered, lost + [e], threads)
  {
    hide Answers;
  }

  /** The newest answer of a thread is delivered. */
  lemma AnswersTaken(answered: seq<nat>, delivered: seq<nat>, lost: seq<nat>, threads: seq<Thread>, t: nat, th: Thread, e: nat)
    requires AllAnswers(answered, delivered, lost, threads)
    requires t < |threads| && threads[t].asyncEnts == [e] + th.asyncEnts
    ensures AllAnswers(answered, delivered + [e], lost, threads[t := th])
  {
    hide Answers;
    assert threads[t := th][t := threads[t]] == threads;
    AnswersMoved(threads[t := th], t, threads[t], e);
  }

  /** All answers that wait for a thread are lost. */
  lemma AnswersDropped(answered: seq<nat>, delivered: seq<nat>, lost: seq<nat>, threads: seq<Thread>, t: nat, th: Thread)
    requires AllAnswers(answered, delivered, lost, threads) && t < |threads| && th.asyncEnts == []
    ensures AllAnswers(answered, delivered, lost + threads[t].asyncEnts, threads[t := th])
  {
    hide Answers;
    AnswersUpdate(threads, t, th);
    var m := multiset(threads[t].asyncEnts);
    assert multiset(th.asyncEnts) == multiset{};
    assert Answers(threads) + multiset(th.asyncEnts) == Answers(threads);
    assert multiset(lost + threads[t].asyncEnts) == multiset(lost) + m;
    assert multiset(delivered) + multiset(lost) + (Answers(threads[t := th]) + m)
        == multiset(delivered) + (multiset(lost) + m) + Answers(threads[t := th]);
  }

  lemma GoneIs()
    ensures Gone().asyncEnts == []
  {
  }

  // ----- what each step keeps -----

  lemma InOrderPush(spoiled: set<Key>, policyUsed: bool, pushed: seq<Request>, started: seq<Request>, push': Push,
                    hash: map<Key, nat>, threads: seq<Thread>, hash': map<Key, nat>, threads': seq<Thread>, r: Request)
    requires InOrder(spoiled, policyUsed, pushed, started, NoPush, hash, threads) && InFlight(push') == [r]
    requires forall k :: QueueOf(k, hash', threads') == QueueOf(k, hash, threads)
    ensures InOrder(spoiled, policyUsed, pushed + [r], started, push', hash', threads')
  {
    forall k, poa | k !in spoiled && (poa != None || !policyUsed)
      ensures Ordered(k, poa, pushed + [r], started, push', hash', threads')
    {
      assert Ordered(k, poa, pushed, started, NoPush, hash, threads);
      OrderedPush(k, poa, pushed, started, push', hash, threads, hash', threads', r);
    }
  }

  lemma OrderedPush(k: Key, poa: Option<nat>, pushed: seq<Request>, started: seq<Request>, push': Push,
                    hash: map<Key, nat>, threads: seq<Thread>, hash': map<Key, nat>, threads': seq<Thread>, r: Request)
    requires Ordered(k, poa, pushed, started, NoPush, hash, threads) && InFlight(push') == [r]
    requires QueueOf(k, hash', threads') == QueueOf(k, hash, threads)
    ensures Ordered(k, poa, pushed + [r], started, push', hash', threads')
  {
    hide Select, QueueOf;
    SelectConcat(k, poa, pushed, [r]);
    SelectEmpty(k, poa);
    Assoc(Select(k, poa, pushed), Select(k, poa, started), Select(k, poa, QueueOf(k, hash, threads)), Select(k, poa, [r]));
  }

  lemma Assoc<T>(p: seq<T>, s: seq<T>, q: seq<T>, d: seq<T>)
    ensures p == s + (q + []) ==> p + d == s + (q + d)
    ensures p == s + (q + d) ==> p == s + ((q + d) + [])
  {
  }

  lemma ConservedPush(pushed: seq<Request>, started: seq<Request>, lost: seq<Request>, push': Push,
                      threads: seq<Thread>, threads': seq<Thread>, r: Request)
    requires Conserved(pushed, started, lost, NoPush, threads) && InFlight(push') == [r] && Queued(threads') == Queued(threads)
    ensures Conserved(pushed + [r], started, lost, push', threads')
  {
  }

  lemma SelectEmpty(k: Key, poa: Option<nat>)
    ensures Select(k, poa, []) == []
  {
  }

  function Fresh(key: Option<Key>): Thread {
    Thread(if key.Some? then [key.value] else [], [], [], [], NoPeek, [], Created)
  }

  function Bind(hash: map<Key, nat>, key: Option<Key>, t: nat): map<Key, nat> {
    if key.Some? then hash[key.value := t] else hash
  }

  lemma NewThreadKeys(hash: map<Key, nat>, threads: seq<Thread>, key: Option<Key>)
    requires KeysOk(hash, threads) && (key.Some? ==> key.value !in hash)
    ensures KeysOk(Bind(hash, key, |threads|), threads + [Fresh(key)])
  {
    var threads' := threads + [Fresh(key)];
    assert forall t :: 0 <= t < |threads| ==> threads'[t] == threads[t];
    assert threads'[|threads|] == Fresh(key);
    hide Bind, NoRepeat;
    assert forall k :: k in Bind(hash, key, |threads|) <==> k in hash || key == Some(k) by { BindIs(hash, key, |threads|); }
    BindIs(hash, key, |threads|);
    assert NoRepeat(Fresh(key).keys) by { FreshKeys(key); }
  }

  lemma BindIs(hash: map<Key, nat>, key: Option<Key>, t: nat)
    ensures forall k :: k in Bind(hash, key, t) <==> k in hash || key == Some(k)
    ensures forall k :: k in Bind(hash, key, t) ==> Bind(hash, key, t)[k] == if key == Some(k) then t else hash[k]
  {
  }

  lemma FreshKeys(key: Option<Key>)
    ensures NoRepeat(Fresh(key).keys)
  {
  }

  lemma NewThreadHomed(hash: map<Key, nat>, threads: seq<Thread>, key: Option<Key>, spoiled: set<Key>)
    requires Homed(hash, threads, spoiled) && (key.Some? ==> key.value !in hash)
    ensures Homed(Bind(hash, key, |threads|), threads + [Fresh(key)], spoiled)
  {
    var threads' := threads + [Fresh(key)];
    forall t, r | 0 <= t < |threads'| && (r in threads'[t].queue || r in threads'[t].running)
      ensures HomedAt(Bind(hash, key, |threads|), spoiled, t, r)
    {
      assert t < |threads| && threads'[t] == threads[t];
      assert HomedAt(hash, spoiled, t, r);
    }
  }

  lemma NewThreadQueues(hash: map<Key, nat>, threads: seq<Thread>, key: Option<Key>)
    requires KeysOk(hash, threads) && (key.Some? ==> key.value !in hash)
    ensures forall k :: QueueOf(k, Bind(hash, key, |threads|), threads + [Fresh(key)]) == QueueOf(k, hash, threads)
    ensures Queued(threads + [Fresh(key)]) == Queued(threads)
  {
    QueuedAdd(threads, Fresh(key));
    assert Queued(threads) + [] == Queued(threads);
    var threads' := threads + [Fresh(key)];
    hide Queued, QueueOf, Fresh, Bind;
    forall k ensures QueueOf(k, Bind(hash, key, |threads|), threads') == QueueOf(k, hash, threads) {
      NewThreadQueue(hash, threads, key, k);
    }
  }

  lemma NewThreadQueue(hash: map<Key, nat>, threads: seq<Thread>, key: Option<Key>, k: Key)
    requires KeysOk(hash, threads) && (key.Some? ==> key.value !in hash)
    ensures QueueOf(k, Bind(hash, key, |threads|), threads + [Fresh(key)]) == QueueOf(k, hash, threads)
  {
    if k in hash {
      assert (threads + [Fresh(key)])[hash[k]] == threads[hash[k]];
    }
  }

  /** With the main thread alone. */
  lemma StartOk()
    ensures
      var threads := [Thread([], [], [], [], NoPeek, [], Live)];
      && KeysOk(map[], threads) && ThreadsOk(threads, false) && PushOk(NoPush, map[], threads)
      && Homed(map[], threads, {}) && Conserved([], [], [], NoPush, threads)
      && InOrder({}, false, [], [], NoPush, map[], threads) && AllAnswers([], [], [], threads)
  {
    var th := Thread([], [], [], [], NoPeek, [], Live);
    QueuedAdd([], th);
    AnswersNewThread([], [], [], [], th);
    assert [] + [th] == [th];
  }

  lemma FreshIs(key: Option<Key>)
    ensures Fresh(key).asyncEnts == []
  {
  }

  lemma InFlightIs(push: Push)
    requires push.Pushing? && !push.appended
    ensures InFlight(push) == [push.r]
  {
  }

  lemma KnownPush(push: Push, hash: map<Key, nat>, threads: seq<Thread>)
    requires PushOk(NoPush, hash, threads) && push.Pushing? && !push.isNew && push.r.key.Some? && push.r.key.value in hash
    requires push.t == hash[push.r.key.value] < |threads| && threads[push.t].phase == Live
    ensures PushOk(push, hash, threads)
  {
  }

  /** The new thread is the only one that does not run yet. */
  lemma NewThreadPush(hash: map<Key, nat>, threads: seq<Thread>, r: Request)
    requires PushOk(NoPush, hash, threads)
    ensures PushOk(Pushing(|threads|, r, true, false), Bind(hash, r.key, |threads|), threads + [Fresh(r.key)])
  {
    var threads' := threads + [Fresh(r.key)];
    assert forall t :: 0 <= t < |threads| ==> threads'[t] == threads[t];
  }

  lemma NewThreadKeeps(hash: map<Key, nat>, threads: seq<Thread>, policyUsed: bool, spoiled: set<Key>,
                       pushed: seq<Request>, started: seq<Request>, lost: seq<Request>, r: Request)
    requires KeysOk(hash, threads) && ThreadsOk(threads, policyUsed) && PushOk(NoPush, hash, threads)
    requires Homed(hash, threads, spoiled) && Conserved(pushed, started, lost, NoPush, threads)
    requires InOrder(spoiled, policyUsed, pushed, started, NoPush, hash, threads)
    requires r.key.Some? ==> r.key.value !in hash
    ensures
      var push, hash', threads' := Pushing(|threads|, r, true, false), Bind(hash, r.key, |threads|), threads + [Fresh(r.key)];
      && KeysOk(hash', threads') && ThreadsOk(threads', policyUsed) && PushOk(push, hash', threads')
      && Homed(hash', threads', spoiled) && Conserved(pushed + [r], started, lost, push, threads')
      && InOrder(spoiled, policyUsed, pushed + [r], started, push, hash', threads')
  {
    hide *;
    var push, hash', threads' := Pushing(|threads|, r, true, false), Bind(hash, r.key, |threads|), threads + [Fresh(r.key)];
    NewThreadKeys(hash, threads, r.key);
    NewThreadHomed(hash, threads, r.key, spoiled);
    NewThreadQueues(hash, threads, r.key);
    NewThreadOk(threads, r.key, policyUsed);
    NewThreadPush(hash, threads, r);
    InFlightIs(push);
    InOrderPush(spoiled, policyUsed, pushed, started, push, hash, threads, hash', threads', r);
    ConservedPush(pushed, started, lost, push, threads, threads', r);
  }

  lemma KnownThread(hash: map<Key, nat>, threads: seq<Thread>, k: Key)
    requires KeysOk(hash, threads) && PushOk(NoPush, hash, threads) && k in hash
    ensures hash[k] < |threads| && threads[hash[k]].phase == Live
  {
  }

  lemma NewThreadOk(threads: seq<Thread>, key: Option<Key>, policyUsed: bool)
    requires ThreadsOk(threads, policyUsed)
    ensures ThreadsOk(threads + [Fresh(key)], policyUsed)
  {
    var threads' := threads + [Fresh(key)];
    forall t | 0 <= t < |threads'| ensures ThreadOk(threads'[t], policyUsed) {
      assert t < |threads| ==> threads'[t] == threads[t];
    }
  }

  lemma MoreAnswers(t: Thread, policyUsed: bool, ent: nat)
    requires ThreadOk(t, policyUsed) && t.phase == Live
    ensures ThreadOk(t.(asyncEnts := [ent] + t.asyncEnts), policyUsed)
  {
  }

  lemma PeekedOk(th: Thread, policyUsed: bool, peek: Peek, threads: seq<Thread>, t: nat)
    requires ThreadsOk(threads, policyUsed) && t < |threads| && th == threads[t] && th.phase == Live && Peeked(th, peek)
    ensures ThreadOk(th.(peek := peek), policyUsed) && (t == MAIN ==> threads[t].phase == Live)
  {
    ThreadIsOk(threads, policyUsed, t);
  }

  ghost function Request1(r: Option<Request>): seq<Request> {
    if r.Some? then [r.value] else []
  }

  /** The answer that a thread delivers next. */
  ghost function Answer1(t: Thread): seq<nat> {
    if t.peek == NoPolicy && t.asyncEnts != [] then [t.asyncEnts[0]] else []
  }

  /** A thread that has peeked takes its newest answer, if no policy is in force and there is one; or else the
      oldest request, or the one found under the policy; or else nothing. */
  ghost predicate Popped(t: Thread, t': Thread, r: Option<Request>) {
    && t' == t.(peek := NoPeek, asyncEnts := t'.asyncEnts, queue := t'.queue, running := Request1(r) + t.running)
    && t.asyncEnts == Answer1(t) + t'.asyncEnts
    && match t.peek
       case NoPolicy =>
         if t.asyncEnts != [] || t.queue == [] then r == None && t'.queue == t.queue
         else r.Some? && t.queue == [r.value] + t'.queue
       case FirstAllowed(at) =>
         if at == None then r == None && t'.queue == t.queue
         else at.value < |t.queue| && r == Some(t.queue[at.value]) && t'.queue == t.queue[..at.value] + t.queue[at.value + 1..]
       case NoPeek => false
  }

  lemma PoppedAnswer(t: Thread)
    requires t.peek == NoPolicy && t.asyncEnts != []
    ensures Popped(t, t.(asyncEnts := t.asyncEnts[1..], peek := NoPeek), None)
    ensures Answer1(t) == [t.asyncEnts[0]] && Request1(None) == []
  {
    assert [] + t.running == t.running;
  }

  lemma PoppedNothing(t: Thread)
    requires t.peek != NoPeek && if t.peek == NoPolicy then t.asyncEnts == [] && t.queue == [] else t.peek.at == None
    ensures Popped(t, t.(peek := NoPeek), None) && Answer1(t) == [] && Request1(None) == []
  {
    assert [] + t.running == t.running && [] + t.asyncEnts == t.asyncEnts;
  }

  lemma PoppedRequest(t: Thread, i: nat)
    requires t.peek != NoPeek && i < |t.queue|
    requires if t.peek == NoPolicy then t.asyncEnts == [] && i == 0 else t.peek.at == Some(i)
    ensures
      var t' := t.(queue := t.queue[..i] + t.queue[i + 1..], running := [t.queue[i]] + t.running, peek := NoPeek);
      Popped(t, t', Some(t.queue[i]))
    ensures Answer1(t) == [] && Request1(Some(t.queue[i])) == [t.queue[i]]
  {
    assert [] + t.asyncEnts == t.asyncEnts;
    assert t.queue[..0] + t.queue[1..] == t.queue[1..] && t.queue == [t.queue[0]] + t.queue[1..];
  }

  lemma PushUpdate(push: Push, hash: map<Key, nat>, threads: seq<Thread>, t: nat, th: Thread)
    requires PushOk(push, hash, threads) && t < |threads| && th.phase == threads[t].phase
    ensures PushOk(push, hash, threads[t := th])
  {
  }

  /** What a thread that has peeked may do. */
  lemma PopFacts(th: Thread, policyUsed: bool)
    requires ThreadOk(th, policyUsed) && th.peek != NoPeek
    ensures th.phase == Live && ThreadOk(th.(peek := NoPeek), policyUsed)
    ensures th.peek == NoPolicy && th.asyncEnts != [] ==> ThreadOk(th.(asyncEnts := th.asyncEnts[1..], peek := NoPeek), policyUsed)
    ensures th.peek.FirstAllowed? && th.peek.at.Some? ==> (
      var i := th.peek.at.value;
      policyUsed && i < |th.queue| && forall j :: 0 <= j < i ==> th.queue[j].poa != th.queue[i].poa)
  {
  }

  lemma ThreadIsOk(threads: seq<Thread>, policyUsed: bool, t: nat)
    requires ThreadsOk(threads, policyUsed) && t < |threads|
    ensures ThreadOk(threads[t], policyUsed) && (t == MAIN ==> threads[t].phase == Live)
  {
  }

  lemma ConservedAppend(pushed: seq<Request>, started: seq<Request>, lost: seq<Request>, push: Push, threads: seq<Thread>)
    requires push.Pushing? && !push.appended && push.t < |threads|
    requires Conserved(pushed, started, lost, push, threads)
    ensures Conserved(pushed, started, lost, push.(appended := true),
      threads[push.t := threads[push.t].(queue := threads[push.t].queue + [push.r])])
  {
    hide Queued;
    var q := threads[push.t].queue;
    var a, b := QueuedSplit(threads, push.t, threads[push.t].(queue := q + [push.r]));
    assert multiset(a + ((q + [push.r]) + b)) == multiset(a + (q + b)) + multiset([push.r]);
  }

  lemma ConservedSame(pushed: seq<Request>, started: seq<Request>, lost: seq<Request>, push: Push, push': Push,
                      threads: seq<Thread>, threads': seq<Thread>)
    requires Conserved(pushed, started, lost, push, threads)
    requires InFlight(push') == InFlight(push) && Queued(threads') == Queued(threads)
    ensures Conserved(pushed, started, lost, push', threads')
  {
  }

  lemma RetiredKeys(hash: map<Key, nat>, threads: seq<Thread>, t: nat)
    requires KeysOk(hash, threads) && t < |threads|
    ensures threads[t].phase == Retired ==> threads[t].keys == []
  {
  }

  lemma KeysUpdate(hash: map<Key, nat>, threads: seq<Thread>, t: nat, th: Thread)
    requires KeysOk(hash, threads) && t < |threads| && th.keys == threads[t].keys && (th.phase == Retired ==> th.keys == [])
    ensures KeysOk(hash, threads[t := th])
  {
  }

  lemma HomedUpdate(hash: map<Key, nat>, threads: seq<Thread>, spoiled: set<Key>, t: nat, th: Thread)
    requires Homed(hash, threads, spoiled) && t < |threads|
    requires forall r :: r in th.queue || r in th.running ==>
      r in threads[t].queue || r in threads[t].running || HomedAt(hash, spoiled, t, r)
    ensures Homed(hash, threads[t := th], spoiled)
  {
    var threads' := threads[t := th];
    forall u, r | 0 <= u < |threads'| && (r in threads'[u].queue || r in threads'[u].running)
      ensures HomedAt(hash, spoiled, u, r)
    {
      assert u != t ==> threads'[u] == threads[u];
      if u == t && !(r in threads[t].queue || r in threads[t].running) {
        assert r in th.queue || r in th.running;
      }
    }
  }

  lemma ThreadsUpdate(threads: seq<Thread>, policyUsed: bool, t: nat, th: Thread)
    requires ThreadsOk(threads, policyUsed) && t < |threads| && ThreadOk(th, policyUsed) && (t == MAIN ==> th.phase == Live)
    ensures ThreadsOk(threads[t := th], policyUsed)
  {
  }

  lemma QueueOfUpdate(k: Key, hash: map<Key, nat>, threads: seq<Thread>, t: nat, th: Thread)
    requires t < |threads|
    ensures QueueOf(k, hash, threads[t := th]) == if k in hash && hash[k] == t then th.queue else QueueOf(k, hash, threads)
  {
  }

  lemma SameQueued(threads: seq<Thread>, t: nat, th: Thread)
    requires t < |threads| && th.queue == threads[t].queue
    ensures Queued(threads[t := th]) == Queued(threads)
  {
    var a, b := QueuedSplit(threads, t, th);
  }

  /** A step that does not touch the queue of the thread. */
  lemma SameQueue(threads: seq<Thread>, t: nat, th: Thread)
    requires t < |threads| && th.queue == threads[t].queue
    ensures Queued(threads[t := th]) == Queued(threads)
    ensures forall k, hash: map<Key, nat> :: QueueOf(k, hash, threads[t := th]) == QueueOf(k, hash, threads)
  {
    SameQueued(threads, t, th);
  }

  lemma InOrderSame(spoiled: set<Key>, policyUsed: bool, pushed: seq<Request>, started: seq<Request>, push: Push, push': Push,
                    hash: map<Key, nat>, threads: seq<Thread>, threads': seq<Thread>)
    requires InOrder(spoiled, policyUsed, pushed, started, push, hash, threads) && InFlight(push') == InFlight(push)
    requires forall k :: QueueOf(k, hash, threads') == QueueOf(k, hash, threads)
    ensures InOrder(spoiled, policyUsed, pushed, started, push', hash, threads')
  {
    hide QueueOf, Select;
    forall k, poa | k !in spoiled && (poa != None || !policyUsed)
      ensures Ordered(k, poa, pushed, started, push', hash, threads')
    {
      assert Ordered(k, poa, pushed, started, push, hash, threads);
    }
  }

  lemma InOrderAppend(spoiled: set<Key>, policyUsed: bool, pushed: seq<Request>, started: seq<Request>, push: Push,
                      hash: map<Key, nat>, threads: seq<Thread>)
    requires PushOk(push, hash, threads) && push.Pushing? && !push.appended
    requires InOrder(spoiled, policyUsed, pushed, started, push, hash, threads)
    ensures InOrder(spoiled, policyUsed, pushed, started, push.(appended := true), hash,
      threads[push.t := threads[push.t].(queue := threads[push.t].queue + [push.r])])
  {
    var push' := push.(appended := true);
    var threads' := threads[push.t := threads[push.t].(queue := threads[push.t].queue + [push.r])];
    forall k, poa | k !in spoiled && (poa != None || !policyUsed)
      ensures Ordered(k, poa, pushed, started, push', hash, threads')
    {
      assert Ordered(k, poa, pushed, started, push, hash, threads);
      OrderedAppend(k, poa, pushed, started, push, hash, threads);
    }
  }

  lemma OrderedAppend(k: Key, poa: Option<nat>, pushed: seq<Request>, started: seq<Request>, push: Push,
                      hash: map<Key, nat>, threads: seq<Thread>)
    requires PushOk(push, hash, threads) && push.Pushing? && !push.appended
    requires Ordered(k, poa, pushed, started, push, hash, threads)
    ensures Ordered(k, poa, pushed, started, push.(appended := true), hash,
      threads[push.t := threads[push.t].(queue := threads[push.t].queue + [push.r])])
  {
    hide Select, QueueOf;
    var th := threads[push.t].(queue := threads[push.t].queue + [push.r]);
    var q, q' := QueueOf(k, hash, threads), QueueOf(k, hash, threads[push.t := th]);
    QueueOfUpdate(k, hash, threads, push.t, th);
    if k in hash && hash[k] == push.t {
      QueueOfHere(k, hash, threads, push.t);
    }
    SelectConcat(k, poa, threads[push.t].queue, [push.r]);
    SelectOne(k, poa, push.r);
    SelectEmpty(k, poa);
    assert Select(k, poa, q') == Select(k, poa, q) + Select(k, poa, [push.r]) by {
      assert Select(k, poa, q) + [] == Select(k, poa, q);
    }
    Assoc(Select(k, poa, pushed), Select(k, poa, started), Select(k, poa, q), Select(k, poa, [push.r]));
  }

  lemma QueueOfHere(k: Key, hash: map<Key, nat>, threads: seq<Thread>, t: nat)
    requires t < |threads| && k in hash && hash[k] == t
    ensures QueueOf(k, hash, threads) == threads[t].queue
  {
  }

  /** A request taken out of the queue of its thread: those before it have another key or POA. */
  lemma OrderedTake(k: Key, poa: Option<nat>, pushed: seq<Request>, started: seq<Request>, push: Push,
                    hash: map<Key, nat>, threads: seq<Thread>, t: nat, i: nat, th: Thread)
    requires t < |threads| && i < |threads[t].queue|
    requires th.queue == threads[t].queue[..i] + threads[t].queue[i + 1..]
    requires Ordered(k, poa, pushed, started, push, hash, threads)
    requires Matches(k, poa, threads[t].queue[i]) ==>
      k in hash && hash[k] == t && forall j :: 0 <= j < i ==> !Matches(k, poa, threads[t].queue[j])
    ensures Ordered(k, poa, pushed, started + [threads[t].queue[i]], push, hash, threads[t := th])
  {
    hide Select, QueueOf, Matches;
    var q := threads[t].queue;
    var r, a, b := q[i], q[..i], q[i + 1..];
    assert q == a + ([r] + b);
    QueueOfUpdate(k, hash, threads, t, th);
    if k in hash && hash[k] == t {
      QueueOfHere(k, hash, threads, t);
    }
    SelectConcat(k, poa, a, [r] + b);
    SelectConcat(k, poa, [r], b);
    SelectConcat(k, poa, a, b);
    SelectConcat(k, poa, started, [r]);
    SelectOne(k, poa, r);
    if Matches(k, poa, r) {
      SelectNone(k, poa, a);
    }
    TakeAssoc(Select(k, poa, started), Select(k, poa, [r]), Select(k, poa, b), Select(k, poa, InFlight(push)));
  }

  lemma TakeAssoc<T>(s: seq<T>, r: seq<T>, b: seq<T>, f: seq<T>)
    ensures s + (([] + (r + b)) + f) == (s + r) + (([] + b) + f)
    ensures r == [] ==> r + b == b && s + r == s
  {
  }

  lemma InOrderTake(spoiled: set<Key>, policyUsed: bool, pushed: seq<Request>, started: seq<Request>, push: Push,
                    hash: map<Key, nat>, threads: seq<Thread>, t: nat, i: nat, th: Thread)
    requires InOrder(spoiled, policyUsed, pushed, started, push, hash, threads) && Homed(hash, threads, spoiled)
    requires t < |threads| && i < |threads[t].queue|
    requires th.queue == threads[t].queue[..i] + threads[t].queue[i + 1..]
    requires forall j :: 0 <= j < i ==> threads[t].queue[j].poa != threads[t].queue[i].poa
    requires !policyUsed ==> i == 0
    ensures InOrder(spoiled, policyUsed, pushed, started + [threads[t].queue[i]], push, hash, threads[t := th])
  {
    var r, threads', started' := threads[t].queue[i], threads[t := th], started + [threads[t].queue[i]];
    forall k, poa | k !in spoiled && (poa != None || !policyUsed)
      ensures Ordered(k, poa, pushed, started', push, hash, threads')
    {
      assert Ordered(k, poa, pushed, started, push, hash, threads);
      assert r in threads[t].queue && HomedAt(hash, spoiled, t, r);
      OrderedTake(k, poa, pushed, started, push, hash, threads, t, i, th);
    }
  }

  lemma ConservedTake(pushed: seq<Request>, started: seq<Request>, lost: seq<Request>, push: Push, threads: seq<Thread>,
                      t: nat, i: nat, th: Thread)
    requires Conserved(pushed, started, lost, push, threads) && t < |threads| && i < |threads[t].queue|
    requires th.queue == threads[t].queue[..i] + threads[t].queue[i + 1..]
    ensures Conserved(pushed, started + [threads[t].queue[i]], lost, push, threads[t := th])
  {
    hide Queued, InFlight;
    var q := threads[t].queue;
    var a, b := QueuedSplit(threads, t, th);
    var x, r, y := q[..i], q[i], q[i + 1..];
    assert q == x + ([r] + y);
    assert Queued(threads) == a + ((x + ([r] + y)) + b) && Queued(threads[t := th]) == a + ((x + y) + b);
    TakeMultiset(a, x, r, y, b);
    StartedMultiset(started, r);
    MoveOne(multiset(started), multiset(lost), multiset(InFlight(push)), multiset(Queued(threads[t := th])), multiset([r]));
  }

  lemma MoveOne(s: multiset<Request>, l: multiset<Request>, f: multiset<Request>, q: multiset<Request>, r: multiset<Request>)
    ensures s + l + f + (q + r) == (s + r) + l + f + q
  {
  }

  lemma StartedMultiset(started: seq<Request>, r: Request)
    ensures multiset(started + [r]) == multiset(started) + multiset([r])
  {
  }

  lemma TakeMultiset(a: seq<Request>, x: seq<Request>, r: Request, y: seq<Request>, b: seq<Request>)
    ensures multiset(a + ((x + ([r] + y)) + b)) == multiset(a + ((x + y) + b)) + multiset([r])
  {
    assert multiset(a + ((x + ([r] + y)) + b)) == multiset(a) + multiset(x) + multiset([r]) + multiset(y) + multiset(b);
    assert multiset(a + ((x + y) + b)) == multiset(a) + multiset(x) + multiset(y) + multiset(b);
  }

  lemma TakenHome(hash: map<Key, nat>, threads: seq<Thread>, spoiled: set<Key>, t: nat, i: nat, th: Thread)
    requires Homed(hash, threads, spoiled) && t < |threads| && i < |threads[t].queue|
    requires th.queue == threads[t].queue[..i] + threads[t].queue[i + 1..]
    requires th.running == [threads[t].queue[i]] + threads[t].running
    ensures Homed(hash, threads[t := th], spoiled)
  {
    forall r | r in th.queue || r in th.running ensures r in threads[t].queue || r in threads[t].running {
    }
    HomedUpdate(hash, threads, spoiled, t, th);
  }

  class Dispatcher {
    var hash: map<Key, nat>       // giop_pool_hash: the thread of a key
    var threads: seq<Thread>      // all threads ever created; the first is the main thread
    var push: Push                // the producer that holds the hash lock

    ghost var pushed: seq<Request>
    ghost var started: seq<Request>
    ghost var lost: seq<Request>  // dropped by a thread that retired with a policy in force
    ghost var spoiled: set<Key>   // keys that were released, or of which requests were lost
    ghost var policyUsed: bool

    ghost var answered: seq<nat>    // asynchronous answers queued for a thread, in the order of the calls
    ghost var delivered: seq<nat>   // those whose callback has been called, in that order
    ghost var lostAnswers: seq<nat> // those queued for a retired thread, or dropped by one that retired
    ghost var late: bool            // an answer came for a retired thread

    ghost predicate Valid()
      reads this
    {
      && Base() && AllAnswers(answered, delivered, lostAnswers, threads)
      && (!policyUsed && !late ==> lostAnswers == [])
    }

    ghost predicate Base()
      reads this`hash, this`threads, this`push, this`pushed, this`started, this`lost, this`spoiled, this`policyUsed
    {
      && KeysOk(hash, threads) && ThreadsOk(threads, policyUsed) && PushOk(push, hash, threads)
      && Homed(hash, threads, spoiled) && Conserved(pushed, started, lost, push, threads)
      && InOrder(spoiled, policyUsed, pushed, started, push, hash, threads)
      && (!policyUsed ==> lost == [])
    }

    /** The parts of the invariant, taken apart and put together. */
    lemma Opened()
      requires Valid()
      ensures KeysOk(hash, threads) && ThreadsOk(threads, policyUsed) && PushOk(push, hash, threads)
      ensures Homed(hash, threads, spoiled) && Conserved(pushed, started, lost, push, threads)
      ensures InOrder(spoiled, policyUsed, pushed, started, push, hash, threads)
      ensures AllAnswers(answered, delivered, lostAnswers, threads)
      ensures Base() && MAIN < |threads| && (!policyUsed ==> lost == []) && (!policyUsed && !late ==> lostAnswers == [])
    {
    }

    lemma Closed()
      requires KeysOk(hash, threads) && ThreadsOk(threads, policyUsed) && PushOk(push, hash, threads)
      requires Homed(hash, threads, spoiled) && Conserved(pushed, started, lost, push, threads)
      requires InOrder(spoiled, policyUsed, pushed, started, push, hash, threads)
      requires AllAnswers(answered, delivered, lostAnswers, threads)
      requires (!policyUsed ==> lost == []) && (!policyUsed && !late ==> lostAnswers == [])
      ensures Valid()
    {
    }

    lemma Completed()
      requires Base() && AllAnswers(answered, delivered, lostAnswers, threads) && (!policyUsed && !late ==> lostAnswers == [])
      ensures Valid()
    {
    }

    constructor ()
      ensures Valid() && pushed == [] && started == [] && lost == [] && spoiled == {} && !policyUsed
      ensures answered == [] && delivered == [] && lostAnswers == [] && !late && hash == map[] && push == NoPush
      ensures threads == [Thread([], [], [], [], NoPeek, [], Live)]
    {
      hash, push := map[], NoPush;
      threads := [Thread([], [], [], [], NoPeek, [], Live)];
      pushed, started, lost, spoiled, policyUsed := [], [], [], {}, false;
      answered, delivered, lostAnswers, late := [], [], [], false;
      new;
      hide *;
      StartOk();
      Closed();
    }

    /** giop_thread_request_push_key, up to the choice of the thread; the hash lock stays taken. */
    method PushKey(r: Request)
      requires Valid() && push.NoPush?
      modifies this`hash, this`threads, this`push, this`pushed
      ensures Valid() && pushed == old(pushed) + [r] && push.Pushing? && push.r == r && !push.appended
      ensures r.key.Some? && r.key.value in old(hash) ==>
        push.t == old(hash)[r.key.value] && !push.isNew && threads == old(threads) && hash == old(hash)
      ensures !(r.key.Some? && r.key.value in old(hash)) ==>
        && push.t == |old(threads)| && push.isNew && threads == old(threads) + [Fresh(r.key)]
        && hash == Bind(old(hash), r.key, |old(threads)|)
    {
      hide *;
      if r.key.Some? && r.key.value in hash {
        PushKnown(r, r.key.value);
      } else {
        PushNew(r);
      }
    }

    method PushKnown(r: Request, k: Key)
      requires Valid() && push.NoPush? && r.key == Some(k) && k in hash
      modifies this`push, this`pushed
      ensures Valid() && pushed == old(pushed) + [r] && push == Pushing(hash[k], r, false, false)
    {
      hide *;
      Opened();
      KnownThread(hash, threads, k);
      ghost var p := Pushing(hash[k], r, false, false);
      KnownPush(p, hash, threads);
      InFlightIs(p);
      InOrderPush(spoiled, policyUsed, pushed, started, p, hash, threads, hash, threads, r);
      ConservedPush(pushed, started, lost, p, threads, threads, r);
      push, pushed := Pushing(hash[k], r, false, false), pushed + [r];
      Closed();
    }

    method PushNew(r: Request)
      requires Valid() && push.NoPush? && (r.key.Some? ==> r.key.value !in hash)
      modifies this`hash, this`threads, this`push, this`pushed
      ensures Valid() && pushed == old(pushed) + [r] && push == Pushing(|old(threads)|, r, true, false)
      ensures threads == old(threads) + [Fresh(r.key)] && hash == Bind(old(hash), r.key, |old(threads)|)
    {
      hide *;
      Opened();
      NewThreadKeeps(hash, threads, policyUsed, spoiled, pushed, started, lost, r);
      FreshIs(r.key);
      AnswersNewThread(answered, delivered, lostAnswers, threads, Fresh(r.key));
      push, pushed := Pushing(|threads|, r, true, false), pushed + [r];
      hash := Bind(hash, r.key, |threads|);
      threads := threads + [Fresh(r.key)];
      Closed();
    }

    /** giop_thread_request_push, for the chosen thread. */
    method Append()
      requires Valid() && push.Pushing? && !push.appended
      modifies this`threads, this`push
      ensures Valid() && push == old(push).(appended := true)
      ensures threads == old(threads)[push.t := old(threads)[push.t].(queue := old(threads)[push.t].queue + [push.r])]
    {
      hide KeysOk, ThreadsOk, Homed, Conserved, InOrder, AllAnswers, Queued, QueueOf, Select;
      ghost var push0, threads0 := push, threads;
      var t := push.t;
      var th := threads[t].(queue := threads[t].queue + [push.r]);
      ThreadIsOk(threads, policyUsed, t);
      KeysUpdate(hash, threads, t, th);
      HomedUpdate(hash, threads, spoiled, t, th);
      ThreadsUpdate(threads, policyUsed, t, th);
      InOrderAppend(spoiled, policyUsed, pushed, started, push, hash, threads);
      ConservedAppend(pushed, started, lost, push, threads);
      AnswersKept(answered, delivered, lostAnswers, threads, t, th);
      threads, push := threads[t := th], push.(appended := true);
    }

    /** The new thread is given to the pool, and the hash lock is released. */
    method Unlock()
      requires Valid() && push.Pushing? && push.appended
      modifies this`threads, this`push
      ensures Valid() && push == NoPush
      ensures threads == old(threads)[old(push).t := old(threads)[old(push).t].(phase := Live)]
    {
      hide KeysOk, ThreadsOk, Homed, Conserved, InOrder, AllAnswers, Queued, QueueOf, Select;
      var t := push.t;
      var th := threads[t].(phase := Live);
      ThreadIsOk(threads, policyUsed, t);
      KeysUpdate(hash, threads, t, th);
      HomedUpdate(hash, threads, spoiled, t, th);
      ThreadsUpdate(threads, policyUsed, t, th);
      SameQueue(threads, t, th);
      InOrderSame(spoiled, policyUsed, pushed, started, push, NoPush, hash, threads, threads[t := th]);
      ConservedSame(pushed, started, lost, push, NoPush, threads, threads[t := th]);
      AnswersKept(answered, delivered, lostAnswers, threads, t, th);
      threads, push := threads[t := th], NoPush;
    }

    /** first_valid_request at the start of giop_thread_queue_process, before the thread's lock is taken. */
    method PeekQueue(t: nat)
      requires Valid() && t < |threads| && threads[t].phase == Live && threads[t].peek == NoPeek
      modifies this`threads
      ensures Valid() && threads == old(threads)[t := old(threads)[t].(peek := FirstValid(old(threads)[t]))]
      ensures Peeked(old(threads)[t], FirstValid(old(threads)[t]))
    {
      hide *;
      Opened();
      PeekIs(threads[t]);
      PeekedOk(threads[t], policyUsed, FirstValid(threads[t]), threads, t);
      var th := threads[t].(peek := FirstValid(threads[t]));
      KeysUpdate(hash, threads, t, th);
      HomedUpdate(hash, threads, spoiled, t, th);
      ThreadsUpdate(threads, policyUsed, t, th);
      PushUpdate(push, hash, threads, t, th);
      SameQueue(threads, t, th);
      InOrderSame(spoiled, policyUsed, pushed, started, push, push, hash, threads, threads[t := th]);
      ConservedSame(pushed, started, lost, push, push, threads, threads[t := th]);
      AnswersKept(answered, delivered, lostAnswers, threads, t, th);
      threads := threads[t := th];
      Closed();
    }

    /** The rest of giop_thread_queue_process, up to the call of the handler: an asynchronous answer if there
        is one and no policy is in force, or the request that was found. */
    method Pop(t: nat) returns (r: Option<Request>)
      requires Valid() && t < |threads| && threads[t].peek != NoPeek
      modifies this`threads, this`started, this`delivered
      ensures Valid() && |threads| == |old(threads)| && threads == old(threads)[t := threads[t]]
      ensures Popped(old(threads)[t], threads[t], r)
      ensures started == old(started) + Request1(r) && delivered == old(delivered) + Answer1(old(threads)[t])
    {
      hide *;
      var th := threads[t];
      r := None;
      if th.peek == NoPolicy && th.asyncEnts != [] {
        PopAnswer(t);
      } else if th.peek == NoPolicy && th.queue != [] {
        r := Some(th.queue[0]);
        PopRequest(t, 0);
      } else if th.peek.FirstAllowed? && th.peek.at.Some? {
        PopBounds(t);
        r := Some(th.queue[th.peek.at.value]);
        PopRequest(t, th.peek.at.value);
      } else {
        PopNothing(t);
      }
    }

    lemma PopBounds(t: nat)
      requires Valid() && t < |threads| && threads[t].peek.FirstAllowed? && threads[t].peek.at.Some?
      ensures threads[t].peek.at.value < |threads[t].queue|
    {
      ThreadIsOk(threads, policyUsed, t);
    }

    method PopAnswer(t: nat)
      requires Valid() && t < |threads| && threads[t].peek == NoPolicy && threads[t].asyncEnts != []
      modifies this`threads, this`delivered
      ensures Valid() && threads == old(threads)[t := old(threads)[t].(asyncEnts := old(threads)[t].asyncEnts[1..], peek := NoPeek)]
      ensures Popped(old(threads)[t], threads[t], None) && delivered == old(delivered) + Answer1(old(threads)[t])
      ensures Request1(None) == []
    {
      hide *;
      Opened();
      ThreadIsOk(threads, policyUsed, t);
      PopFacts(threads[t], policyUsed);
      var th := threads[t];
      var th' := th.(asyncEnts := th.asyncEnts[1..], peek := NoPeek);
      PoppedAnswer(th);
      AnswersTaken(answered, delivered, lostAnswers, threads, t, th', th.asyncEnts[0]);
      Quiet(t, th');
      delivered := delivered + [th.asyncEnts[0]];
      Completed();
    }

    method PopNothing(t: nat)
      requires Valid() && t < |threads| && threads[t].peek != NoPeek
      requires if threads[t].peek == NoPolicy then threads[t].asyncEnts == [] && threads[t].queue == [] else threads[t].peek.at == None
      modifies this`threads
      ensures Valid() && threads == old(threads)[t := old(threads)[t].(peek := NoPeek)]
      ensures Popped(old(threads)[t], threads[t], None) && Answer1(old(threads)[t]) == [] && Request1(None) == []
    {
      hide *;
      Opened();
      ThreadIsOk(threads, policyUsed, t);
      PopFacts(threads[t], policyUsed);
      PoppedNothing(threads[t]);
      var th := threads[t].(peek := NoPeek);
      AnswersKept(answered, delivered, lostAnswers, threads, t, th);
      Quiet(t, th);
      Completed();
    }

    method PopRequest(t: nat, i: nat)
      requires Valid() && t < |threads| && threads[t].peek != NoPeek && i < |threads[t].queue|
      requires if threads[t].peek == NoPolicy then threads[t].asyncEnts == [] && i == 0 else threads[t].peek.at == Some(i)
      modifies this`threads, this`started
      ensures Valid() && |threads| == |old(threads)| && threads == old(threads)[t := threads[t]]
      ensures Popped(old(threads)[t], threads[t], Some(old(threads)[t].queue[i])) && Answer1(old(threads)[t]) == []
      ensures started == old(started) + Request1(Some(old(threads)[t].queue[i]))
    {
      hide *;
      Opened();
      ThreadIsOk(threads, policyUsed, t);
      PopFacts(threads[t], policyUsed);
      PoppedRequest(threads[t], i);
      Take(t, i);
    }

    /** The thread starts the handler of the request at `i`. */
    method Take(t: nat, i: nat)
      requires Valid() && t < |threads| && threads[t].phase == Live && i < |threads[t].queue|
      requires forall j :: 0 <= j < i ==> threads[t].queue[j].poa != threads[t].queue[i].poa
      requires !policyUsed ==> i == 0
      modifies this`threads, this`started
      ensures Valid() && started == old(started) + [old(threads)[t].queue[i]]
      ensures threads == old(threads)[t := old(threads)[t].(queue := old(threads)[t].queue[..i] + old(threads)[t].queue[i + 1..],
        running := [old(threads)[t].queue[i]] + old(threads)[t].running, peek := NoPeek)]
    {
      hide KeysOk, ThreadsOk, Homed, Conserved, InOrder, AllAnswers, Queued, QueueOf, Select;
      ThreadIsOk(threads, policyUsed, t);
      var q := threads[t].queue;
      var th := threads[t].(queue := q[..i] + q[i + 1..], running := [q[i]] + threads[t].running, peek := NoPeek);
      KeysUpdate(hash, threads, t, th);
      TakenHome(hash, threads, spoiled, t, i, th);
      ThreadsUpdate(threads, policyUsed, t, th);
      InOrderTake(spoiled, policyUsed, pushed, started, push, hash, threads, t, i, th);
      ConservedTake(pushed, started, lost, push, threads, t, i, th);
      AnswersKept(answered, delivered, lostAnswers, threads, t, th);
      threads, started := threads[t := th], started + [q[i]];
    }

    /** A change of one thread's own state that leaves its keys, its queue and its phase alone. */
    method Quiet(t: nat, th: Thread)
      requires Base() && t < |threads| && ThreadOk(th, policyUsed)
      requires th.keys == threads[t].keys && th.queue == threads[t].queue && th.phase == threads[t].phase
      requires forall r :: r in th.running ==> r in threads[t].running
      modifies this`threads
      ensures Base() && threads == old(threads)[t := th]
    {
      hide KeysOk, ThreadsOk, ThreadOk, Homed, Conserved, InOrder, AllAnswers, Queued, QueueOf, Select;
      ThreadIsOk(threads, policyUsed, t);
      RetiredKeys(hash, threads, t);
      KeysUpdate(hash, threads, t, th);
      HomedUpdate(hash, threads, spoiled, t, th);
      ThreadsUpdate(threads, policyUsed, t, th);
      SameQueue(threads, t, th);
      InOrderSame(spoiled, policyUsed, pushed, started, push, push, hash, threads, threads[t := th]);
      ConservedSame(pushed, started, lost, push, push, threads, threads[t := th]);
      threads := threads[t := th];
    }

    /** The innermost handler of the thread returns. */
    method Return(t: nat)
      requires Valid() && t < |threads| && threads[t].phase == Live && threads[t].peek == NoPeek && threads[t].running != []
      modifies this`threads
      ensures Valid() && threads == old(threads)[t := old(threads)[t].(running := old(threads)[t].running[1..])]
    {
      ThreadIsOk(threads, policyUsed, t);
      AnswersKept(answered, delivered, lostAnswers, threads, t, threads[t].(running := threads[t].running[1..]));
      hide KeysOk, ThreadsOk, ThreadOk, Homed, Conserved, InOrder, AllAnswers;
      Quiet(t, threads[t].(running := threads[t].running[1..]));
    }

    /** The end of the loop of giop_request_handler_thread: the thread retires if it finds nothing to do. All
        its keys become free. Without a policy in force its queues are empty; with one, what is queued is lost. */
    method TryRetire(t: nat) returns (done: bool)
      requires Valid() && push.NoPush? && t != MAIN && t < |threads|
      requires threads[t].phase == Live && threads[t].peek == NoPeek && threads[t].running == []
      modifies this`hash, this`threads, this`lost, this`spoiled, this`lostAnswers
      ensures Valid() && (done <==> Idle(old(threads)[t]))
      ensures !done ==> threads == old(threads) && hash == old(hash) && lost == old(lost)
      ensures done ==> threads == old(threads)[t := Gone()]
      ensures done ==> forall k :: k in hash <==> k in old(hash) && old(hash)[k] != t
      ensures done ==> forall k :: k in hash ==> hash[k] == old(hash)[k]
      ensures lost == old(lost) + if done then old(threads)[t].queue else []
      ensures lostAnswers == old(lostAnswers) + if done then old(threads)[t].asyncEnts else []
      ensures done && old(threads)[t].policies == [] ==>
        old(threads)[t].queue == [] && old(threads)[t].asyncEnts == [] && spoiled == old(spoiled)
    {
      hide KeysOk, ThreadsOk, Homed, Conserved, InOrder, AllAnswers, Queued, QueueOf, Select, PushOk, KeysOf, Gone;
      EmptyIsIdle(threads[t]);
      done := QueueEmpty(threads[t]);
      if done {
        var hash' := ReleaseAll(threads[t].keys, hash);
        RetireKeys(hash, threads, t, hash');
        RetireHomed(hash, threads, t, hash', spoiled);
        RetireThreads(hash, threads, policyUsed, t, hash');
        RetireInOrder(spoiled, policyUsed, pushed, started, hash, threads, t, hash');
        RetireConserved(pushed, started, lost, threads, t);
        GoneIs();
        AnswersDropped(answered, delivered, lostAnswers, threads, t, Gone());
        lost, lostAnswers := lost + threads[t].queue, lostAnswers + threads[t].asyncEnts;
        spoiled := spoiled + KeysOf(threads[t].queue);
        hash, threads := hash', threads[t := Gone()];
      }
    }

    /** giop_thread_key_add: a key may not be in use already. */
    method KeyAdd(t: nat, k: Key)
      requires Valid() && push.NoPush? && t < |threads| && threads[t].phase == Live && k !in hash
      modifies this`hash, this`threads
      ensures Valid() && hash == old(hash)[k := t] && threads == old(threads)[t := old(threads)[t].(keys := [k] + old(threads)[t].keys)]
    {
      hide KeysOk, ThreadsOk, Homed, Conserved, InOrder, AllAnswers, Queued, QueueOf, Select;
      var th := threads[t].(keys := [k] + threads[t].keys);
      ThreadIsOk(threads, policyUsed, t);
      AddedKeys(hash, threads, t, k);
      AddedHomed(hash, threads, t, k, spoiled);
      ThreadsUpdate(threads, policyUsed, t, th);
      AddedInOrder(spoiled, policyUsed, pushed, started, hash, threads, t, k);
      SameQueue(threads, t, th);
      ConservedSame(pushed, started, lost, push, push, threads, threads[t := th]);
      AnswersKept(answered, delivered, lostAnswers, threads, t, th);
      hash, threads := hash[k := t], threads[t := th];
    }

    /** giop_thread_key_release: later requests for the key may overtake those that wait. */
    method KeyRelease(k: Key)
      requires Valid() && push.NoPush?
      modifies this`hash, this`threads, this`spoiled
      ensures Valid() && hash == if k in old(hash) then old(hash) - {k} else old(hash)
      ensures spoiled == if k in old(hash) then old(spoiled) + {k} else old(spoiled)
    {
      hide *;
      if k in hash {
        Opened();
        var t := hash[k];
        var i := FindKey(hash, threads, k);
        var th := threads[t].(keys := RemoveAt(threads[t].keys, i));
        ReleaseKeeps(hash, threads, policyUsed, spoiled, pushed, started, lost, k, i);
        AnswersKept(answered, delivered, lostAnswers, threads, t, th);
        hash, threads, spoiled := hash - {k}, threads[t := th], spoiled + {k};
        Closed();
      }
    }

    /** g_list_remove's search. */
    method FindKey(hash: map<Key, nat>, threads: seq<Thread>, k: Key) returns (i: nat)
      requires KeysOk(hash, threads) && k in hash
      ensures hash[k] < |threads| && i < |threads[hash[k]].keys| && threads[hash[k]].keys[i] == k
    {
      var keys := threads[hash[k]].keys;
      i := 0;
      while keys[i] != k
        invariant i < |keys| && k in keys[i..]
        decreases |keys| - i
      {
        assert keys[i..] == [keys[i]] + keys[i + 1..];
        i := i + 1;
      }
    }

    /** A policy comes into force on the thread, or ends. */
    method PushPolicy(t: nat, allowed: set<nat>)
      requires Valid() && t < |threads| && threads[t].phase == Live && threads[t].peek == NoPeek
      modifies this`threads, this`policyUsed
      ensures Valid() && policyUsed && threads == old(threads)[t := old(threads)[t].(policies := [allowed] + old(threads)[t].policies)]
    {
      hide KeysOk, Homed, Conserved, InOrder, AllAnswers, Queued, QueueOf, Select;
      PolicyInOrder(spoiled, policyUsed, pushed, started, push, hash, threads);
      policyUsed := true;
      ThreadIsOk(threads, policyUsed, t);
      AnswersKept(answered, delivered, lostAnswers, threads, t, threads[t].(policies := [allowed] + threads[t].policies));
      Quiet(t, threads[t].(policies := [allowed] + threads[t].policies));
    }

    method PopPolicy(t: nat)
      requires Valid() && t < |threads| && threads[t].phase == Live && threads[t].peek == NoPeek && threads[t].policies != []
      modifies this`threads
      ensures Valid() && threads == old(threads)[t := old(threads)[t].(policies := old(threads)[t].policies[1..])]
    {
      ThreadIsOk(threads, policyUsed, t);
      hide KeysOk, ThreadsOk, Homed, Conserved, InOrder, AllAnswers;
      AnswersKept(answered, delivered, lostAnswers, threads, t, threads[t].(policies := threads[t].policies[1..]));
      Quiet(t, threads[t].(policies := threads[t].policies[1..]));
    }

    /** giop_invoke_async in another thread than the one that sent the request: the answer joins the sender's
        queue, and is lost if the sender has retired meanwhile. */
    method PushAsync(t: nat, ent: nat)
      requires Valid() && t < |threads| && threads[t].phase != Created
      modifies this`threads, this`answered, this`lostAnswers, this`late
      ensures Valid() && answered == old(answered) + [ent]
      ensures old(threads)[t].phase == Retired ==> threads == old(threads) && lostAnswers == old(lostAnswers) + [ent]
      ensures old(threads)[t].phase == Live ==> (
        && lostAnswers == old(lostAnswers)
        && threads == old(threads)[t := old(threads)[t].(asyncEnts := [ent] + old(threads)[t].asyncEnts)])
    {
      hide *;
      if threads[t].phase == Retired {
        AnswerLate(ent);
      } else {
        QueueAnswer(t, ent);
      }
    }

    method AnswerLate(ent: nat)
      requires Valid()
      modifies this`answered, this`lostAnswers, this`late
      ensures Valid() && answered == old(answered) + [ent] && lostAnswers == old(lostAnswers) + [ent]
    {
      hide *;
      Opened();
      AnswersLate(answered, delivered, lostAnswers, threads, ent);
      answered, lostAnswers, late := answered + [ent], lostAnswers + [ent], true;
      Completed();
    }

    method QueueAnswer(t: nat, ent: nat)
      requires Valid() && t < |threads| && threads[t].phase == Live
      modifies this`threads, this`answered
      ensures Valid() && answered == old(answered) + [ent]
      ensures threads == old(threads)[t := old(threads)[t].(asyncEnts := [ent] + old(threads)[t].asyncEnts)]
    {
      hide *;
      Opened();
      ThreadIsOk(threads, policyUsed, t);
      MoreAnswers(threads[t], policyUsed, ent);
      var th := threads[t].(asyncEnts := [ent] + threads[t].asyncEnts);
      AnswersQueued(answered, delivered, lostAnswers, threads, t, th, ent);
      Quiet(t, th);
      answered := answered + [ent];
      Completed();
    }

    /** giop_thread_request_push for the main thread: no key and no hash lock. */
    method PushMain(r: Request)
      requires Valid() && r.key == None
      modifies this`threads, this`pushed
      ensures Valid() && pushed == old(pushed) + [r]
      ensures threads == old(threads)[MAIN := old(threads)[MAIN].(queue := old(threads)[MAIN].queue + [r])]
    {
      hide *;
      Opened();
      ThreadIsOk(threads, policyUsed, MAIN);
      MainKeeps(hash, threads, policyUsed, spoiled, pushed, started, lost, push, r);
      AnswersKept(answered, delivered, lostAnswers, threads, MAIN, threads[MAIN].(queue := threads[MAIN].queue + [r]));
      threads, pushed := threads[MAIN := threads[MAIN].(queue := threads[MAIN].queue + [r])], pushed + [r];
      Closed();
    }

    /** Two handlers of one key never run on different threads. */
    lemma SerialPerKey(k: Key, t1: nat, r1: Request, t2: nat, r2: Request)
      requires Valid() && k !in spoiled && t1 < |threads| && t2 < |threads|
      requires r1 in threads[t1].running && r1.key == Some(k) && r2 in threads[t2].running && r2.key == Some(k)
      ensures t1 == t2
    {
      assert HomedAt(hash, spoiled, t1, r1) && HomedAt(hash, spoiled, t2, r2);
    }

    /** When all workers have retired and nothing is on its way, every request was started exactly once. */
    lemma AllStarted()
      requires Valid() && push.NoPush? && threads[MAIN].queue == [] && lost == []
      requires forall t :: 0 < t < |threads| ==> threads[t].phase == Retired
      ensures multiset(started) == multiset(pushed)
      ensures forall k :: k !in spoiled && !policyUsed ==> Select(k, None, started) == Select(k, None, pushed)
      ensures threads[MAIN].asyncEnts == [] && lostAnswers == [] ==> multiset(delivered) == multiset(answered)
    {
      NoneWaiting(threads, policyUsed);
      StartedAll(hash, threads, spoiled, policyUsed, pushed, started);
      if lostAnswers == [] {
        DeliveredAll(answered, delivered, threads);
      }
    }

    /** Any schedule of the threads. A step that cannot be taken is skipped. */
    method Run(schedule: seq<Step>)
      requires Valid()
      modifies this
      ensures Valid()
    {
      hide *;
      for i := 0 to |schedule|
        invariant Valid()
      {
        TakeStep(schedule[i]);
      }
    }

    method TakeStep(step: Step)
      requires Valid()
      modifies this
      ensures Valid()
    {
      hide KeysOk, ThreadsOk, ThreadOk, Homed, Conserved, InOrder, AllAnswers, PushOk, QueueEmpty, FirstValid;
      match step {
        case PushKeyed(r) => if push.NoPush? { PushKey(r); }
        case AppendIt => if push.Pushing? && !push.appended { Append(); }
        case UnlockIt => if push.Pushing? && push.appended { Unlock(); }
        case PushToMain(r) => if r.key == None { PushMain(r); }
        case Peeking(t) => if t < |threads| && threads[t].phase == Live && threads[t].peek == NoPeek { PeekQueue(t); }
        case Popping(t) =>
          if t < |threads| && threads[t].peek != NoPeek {
            var _ := Pop(t);
          }
        case Returning(t) =>
          if t < |threads| && threads[t].phase == Live && threads[t].peek == NoPeek && threads[t].running != [] { Return(t); }
        case Retiring(t) =>
          if push.NoPush? && t != MAIN && t < |threads| && threads[t].phase == Live && threads[t].peek == NoPeek && threads[t].running == [] {
            var _ := TryRetire(t);
          }
        case Adding(t, k) => if push.NoPush? && t < |threads| && threads[t].phase == Live && k !in hash { KeyAdd(t, k); }
        case Releasing(k) => if push.NoPush? { KeyRelease(k); }
        case PolicyOn(t, allowed) =>
          if t < |threads| && threads[t].phase == Live && threads[t].peek == NoPeek { PushPolicy(t, allowed); }
        case PolicyOff(t) =>
          if t < |threads| && threads[t].phase == Live && threads[t].peek == NoPeek && threads[t].policies != [] { PopPolicy(t); }
        case Answering(t, ent) => if t < |threads| && threads[t].phase != Created { PushAsync(t, ent); }
      }
    }
  }

  /** A handler that leaves a policy in force which allows nothing: the thread retires behind it, and the
      second request for its key is lost. */
  method PolicyLoses(k: Key, first: Request, second: Request) returns (d: Dispatcher)
    requires first.key == Some(k) && second.key == Some(k)
    ensures fresh(d) && d.Valid() && d.push == NoPush && d.pushed == [first, second] && d.started == [first] && d.lost == [second]
  {
    d := new Dispatcher();
    hide Dispatcher.Valid, Dispatcher.Base;
    HandlesFirst(d, k, first);
    assert d.hash[k] == 1;
    d.PushPolicy(1, {});
    d.PushKey(second);
    d.Append();
    d.Unlock();
    d.Return(1);
    var th := d.threads[1];
    BlockedQueue(th, second);
    var done := d.TryRetire(1);
  }

  /** Up to the handler of the first request. */
  method HandlesFirst(d: Dispatcher, k: Key, r: Request)
    requires d.Valid() && d.push == NoPush && d.pushed == [] && d.started == [] && d.lost == [] && d.hash == map[]
    requires r.key == Some(k) && d.threads == [Thread([], [], [], [], NoPeek, [], Live)]
    modifies d
    ensures d.Valid() && d.push == NoPush && d.pushed == [r] && d.started == [r] && d.lost == [] && d.hash == map[k := 1]
    ensures |d.threads| == 2 && d.threads[1] == Thread([k], [], [], [], NoPeek, [r], Live)
  {
    hide Dispatcher.Valid, Dispatcher.Base;
    d.PushKey(r);
    d.Append();
    d.Unlock();
    assert d.threads[1] == Thread([k], [r], [], [], NoPeek, [], Live);
    d.PeekQueue(1);
    var got := d.Pop(1);
  }

  lemma BlockedQueue(t: Thread, r: Request)
    requires t.queue == [r] && t.policies == [{}]
    ensures Idle(t)
  {
  }

  /** One giop_thread_queue_process of a thread that is left alone: whether it starts and delivers nothing depends
      on whether there is something to do. */
  method Turn(d: Dispatcher, t: nat) returns (r: Option<Request>)
    requires d.Valid() && d.push.NoPush? && t != MAIN && t < |d.threads|
    requires d.threads[t].phase == Live && d.threads[t].peek == NoPeek && d.threads[t].running == []
    modifies d`threads, d`started, d`delivered
    ensures d.Valid() && |d.threads| == |old(d.threads)|
    ensures d.threads[t].phase == Live && d.threads[t].peek == NoPeek && d.threads[t].running == []
    ensures d.threads[t].policies == old(d.threads[t].policies)
    ensures d.started == old(d.started) && d.delivered == old(d.delivered) ==> Idle(d.threads[t])
    ensures old(d.threads[t].policies) == [] ==> (
      && d.started + d.threads[t].queue == old(d.started) + old(d.threads[t].queue)
      && d.delivered + d.threads[t].asyncEnts == old(d.delivered) + old(d.threads[t].asyncEnts)
      && (|d.threads[t].queue| + |d.threads[t].asyncEnts| < |old(d.threads[t].queue)| + |old(d.threads[t].asyncEnts)|
          || Idle(d.threads[t])))
  {
    hide Dispatcher.Valid, Dispatcher.Base, ThreadOk;
    d.PeekQueue(t);
    r := d.Pop(t);
    if r.Some? {
      d.Return(t);
    }
  }

  /** One round of giop_request_handler_thread in which the thread is left alone: if it starts and delivers
      nothing, it retires. */
  method Round(d: Dispatcher, t: nat) returns (r: Option<Request>, done: bool)
    requires d.Valid() && d.push.NoPush? && t != MAIN && t < |d.threads|
    requires d.threads[t].phase == Live && d.threads[t].peek == NoPeek && d.threads[t].running == []
    modifies d`hash, d`threads, d`started, d`delivered, d`lost, d`lostAnswers, d`spoiled
    ensures d.Valid() && |d.threads| == |old(d.threads)|
    ensures d.started == old(d.started) && d.delivered == old(d.delivered) ==> done
    ensures done ==> d.threads[t] == Gone() && forall k :: k in d.hash ==> d.hash[k] != t
    ensures !done ==> d.threads[t].phase == Live && d.threads[t].peek == NoPeek && d.threads[t].running == []
    ensures !done ==> d.threads[t].policies == old(d.threads[t].policies)
    ensures old(d.threads[t].policies) == [] ==> (
      && d.lost == old(d.lost) && d.lostAnswers == old(d.lostAnswers)
      && d.started + (if done then [] else d.threads[t].queue) == old(d.started) + old(d.threads[t].queue)
      && d.delivered + (if done then [] else d.threads[t].asyncEnts) == old(d.delivered) + old(d.threads[t].asyncEnts)
      && (!done ==> |d.threads[t].queue| + |d.threads[t].asyncEnts| < |old(d.threads[t].queue)| + |old(d.threads[t].asyncEnts)|))
  {
    hide *;
    r := Turn(d, t);
    IdleQueues(d.threads[t]);
    done := d.TryRetire(t);
  }

  lemma IdleQueues(t: Thread)
    ensures Idle(t) && t.policies == [] ==> t.queue == [] && t.asyncEnts == []
  {
  }

  /** A thread without a policy that nobody else bothers starts all its requests in order, delivers all its answers,
      and retires. */
  method Work(d: Dispatcher, t: nat)
    requires d.Valid() && d.push.NoPush? && t != MAIN && t < |d.threads| && d.threads[t].policies == []
    requires d.threads[t].phase == Live && d.threads[t].peek == NoPeek && d.threads[t].running == []
    modifies d`hash, d`threads, d`started, d`delivered, d`lost, d`lostAnswers, d`spoiled
    ensures d.Valid() && |d.threads| == |old(d.threads)| && d.threads[t] == Gone()
    ensures forall k :: k in d.hash ==> d.hash[k] != t
    ensures d.started == old(d.started) + old(d.threads[t].queue) && d.lost == old(d.lost)
    ensures d.delivered == old(d.delivered) + old(d.threads[t].asyncEnts) && d.lostAnswers == old(d.lostAnswers)
  {
    hide *;
    var done := false;
    while !done
      invariant d.Valid() && d.push.NoPush? && t != MAIN && t < |d.threads| && |d.threads| == |old(d.threads)|
      invariant d.lost == old(d.lost) && d.lostAnswers == old(d.lostAnswers)
      invariant !done ==> d.threads[t].phase == Live && d.threads[t].peek == NoPeek && d.threads[t].running == []
      invariant !done ==> d.threads[t].policies == []
      invariant done ==> d.threads[t] == Gone() && forall k :: k in d.hash ==> d.hash[k] != t
      invariant d.started + (if done then [] else d.threads[t].queue) == old(d.started) + old(d.threads[t].queue)
      invariant d.delivered + (if done then [] else d.threads[t].asyncEnts) == old(d.delivered) + old(d.threads[t].asyncEnts)
      decreases !done, |d.threads[t].queue| + |d.threads[t].asyncEnts|
    {
      var _, fin := Round(d, t);
      done := fin;
    }
  }

  datatype Step =
    | PushKeyed(r: Request) | AppendIt | UnlockIt | PushToMain(r: Request)
    | Peeking(t: nat) | Popping(t: nat) | Returning(t: nat) | Retiring(t: nat)
    | Adding(t: nat, k: Key) | Releasing(k: Key) | PolicyOn(t: nat, allowed: set<nat>) | PolicyOff(t: nat) | Answering(t: nat, ent: nat)

  lemma NoneWaiting(threads: seq<Thread>, policyUsed: bool)
    requires ThreadsOk(threads, policyUsed) && threads[MAIN].queue == []
    requires forall t :: 0 < t < |threads| ==> threads[t].phase == Retired
    ensures forall t :: 0 <= t < |threads| ==> threads[t].queue == []
    ensures threads[MAIN].asyncEnts == [] ==> forall t :: 0 <= t < |threads| ==> threads[t].asyncEnts == []
  {
    assert forall t :: 0 <= t < |threads| ==> ThreadOk(threads[t], policyUsed);
  }

  lemma StartedAll(hash: map<Key, nat>, threads: seq<Thread>, spoiled: set<Key>, policyUsed: bool,
                   pushed: seq<Request>, started: seq<Request>)
    requires forall t :: 0 <= t < |threads| ==> threads[t].queue == []
    requires Conserved(pushed, started, [], NoPush, threads) && InOrder(spoiled, policyUsed, pushed, started, NoPush, hash, threads)
    ensures multiset(started) == multiset(pushed)
    ensures forall k :: k !in spoiled && !policyUsed ==> Select(k, None, started) == Select(k, None, pushed)
  {
    NothingQueued(threads);
    forall k | k !in spoiled && !policyUsed ensures Select(k, None, started) == Select(k, None, pushed) {
      assert Ordered(k, None, pushed, started, NoPush, hash, threads);
      SelectEmpty(k, None);
      assert QueueOf(k, hash, threads) == [];
    }
  }

  lemma DeliveredAll(answered: seq<nat>, delivered: seq<nat>, threads: seq<Thread>)
    requires AllAnswers(answered, delivered, [], threads)
    ensures (forall t :: 0 <= t < |threads| ==> threads[t].asyncEnts == []) ==> multiset(delivered) == multiset(answered)
  {
    if forall t :: 0 <= t < |threads| ==> threads[t].asyncEnts == [] {
      NothingAnswered(threads);
    }
  }

  lemma {:induction false} NothingAnswered(threads: seq<Thread>)
    requires forall t :: 0 <= t < |threads| ==> threads[t].asyncEnts == []
    ensures Answers(threads) == multiset{}
  {
    if threads != [] {
      NothingAnswered(threads[..|threads| - 1]);
    }
  }

  lemma {:induction false} NothingQueued(threads: seq<Thread>)
    requires forall t :: 0 <= t < |threads| ==> threads[t].queue == []
    ensures Queued(threads) == []
  {
    if threads != [] {
      NothingQueued(threads[..|threads| - 1]);
    }
  }

  lemma MainKeeps(hash: map<Key, nat>, threads: seq<Thread>, policyUsed: bool, spoiled: set<Key>,
                  pushed: seq<Request>, started: seq<Request>, lost: seq<Request>, push: Push, r: Request)
    requires KeysOk(hash, threads) && ThreadsOk(threads, policyUsed) && PushOk(push, hash, threads)
    requires Homed(hash, threads, spoiled) && Conserved(pushed, started, lost, push, threads)
    requires InOrder(spoiled, policyUsed, pushed, started, push, hash, threads)
    requires |threads| > 0 && r.key == None
    ensures
      var threads' := threads[MAIN := threads[MAIN].(queue := threads[MAIN].queue + [r])];
      && KeysOk(hash, threads') && ThreadsOk(threads', policyUsed) && PushOk(push, hash, threads')
      && Homed(hash, threads', spoiled) && Conserved(pushed + [r], started, lost, push, threads')
      && InOrder(spoiled, policyUsed, pushed + [r], started, push, hash, threads')
  {
    var th := threads[MAIN].(queue := threads[MAIN].queue + [r]);
    ThreadIsOk(threads, policyUsed, MAIN);
    hide KeysOk, Homed, ThreadsOk, Conserved, InOrder;
    KeysUpdate(hash, threads, MAIN, th);
    HomedUpdate(hash, threads, spoiled, MAIN, th);
    ThreadsUpdate(threads, policyUsed, MAIN, th);
    MainConserved(pushed, started, lost, push, threads, r);
    MainInOrder(spoiled, policyUsed, pushed, started, push, hash, threads, r);
  }

  lemma MainConserved(pushed: seq<Request>, started: seq<Request>, lost: seq<Request>, push: Push, threads: seq<Thread>, r: Request)
    requires |threads| > 0 && Conserved(pushed, started, lost, push, threads)
    ensures Conserved(pushed + [r], started, lost, push, threads[MAIN := threads[MAIN].(queue := threads[MAIN].queue + [r])])
  {
    hide Queued;
    var q := threads[MAIN].queue;
    var a, b := QueuedSplit(threads, MAIN, threads[MAIN].(queue := q + [r]));
    assert multiset(a + ((q + [r]) + b)) == multiset(a + (q + b)) + multiset([r]);
  }

  lemma MainInOrder(spoiled: set<Key>, policyUsed: bool, pushed: seq<Request>, started: seq<Request>, push: Push,
                    hash: map<Key, nat>, threads: seq<Thread>, r: Request)
    requires InOrder(spoiled, policyUsed, pushed, started, push, hash, threads) && |threads| > 0 && r.key == None
    ensures InOrder(spoiled, policyUsed, pushed + [r], started, push, hash,
      threads[MAIN := threads[MAIN].(queue := threads[MAIN].queue + [r])])
  {
    var th := threads[MAIN].(queue := threads[MAIN].queue + [r]);
    var pushed', threads' := pushed + [r], threads[MAIN := th];
    forall k, poa | k !in spoiled && (poa != None || !policyUsed)
      ensures Ordered(k, poa, pushed', started, push, hash, threads')
    {
      assert Ordered(k, poa, pushed, started, push, hash, threads);
      hide Select, QueueOf;
      SelectOne(k, poa, r);
      SelectConcat(k, poa, pushed, [r]);
      SelectConcat(k, poa, threads[MAIN].queue, [r]);
      QueueOfUpdate(k, hash, threads, MAIN, th);
      if k in hash && hash[k] == MAIN {
        QueueOfHere(k, hash, threads, MAIN);
        assert Select(k, poa, threads[MAIN].queue) + [] == Select(k, poa, threads[MAIN].queue);
      }
      assert Select(k, poa, pushed) + [] == Select(k, poa, pushed);
    }
  }

  function Gone(): Thread {
    Thread([], [], [], [], NoPeek, [], Retired)
  }

  ghost function KeysOf(q: seq<Request>): set<Key> {
    set r | r in q && r.key.Some? :: r.key.value
  }

  /** giop_thread_key_release_T for every key in the list. */
  method ReleaseAll(keys: seq<Key>, hash: map<Key, nat>) returns (hash': map<Key, nat>)
    ensures forall k :: k in hash' <==> k in hash && k !in keys
    ensures forall k :: k in hash' ==> hash'[k] == hash[k]
  {
    hash' := hash;
    for i := 0 to |keys|
      invariant forall k :: k in hash' <==> k in hash && k !in keys[..i]
      invariant forall k :: k in hash' ==> hash'[k] == hash[k]
    {
      hash' := hash' - {keys[i]};
      assert keys[..i + 1] == keys[..i] + [keys[i]];
    }
    assert keys[..|keys|] == keys;
  }

  ghost predicate Released(hash: map<Key, nat>, threads: seq<Thread>, t: nat, hash': map<Key, nat>)
    requires t < |threads|
  {
    && (forall k :: k in hash' <==> k in hash && k !in threads[t].keys)
    && forall k :: k in hash' ==> hash'[k] == hash[k]
  }

  lemma RetireKeys(hash: map<Key, nat>, threads: seq<Thread>, t: nat, hash': map<Key, nat>)
    requires KeysOk(hash, threads) && t < |threads| && Released(hash, threads, t, hash')
    ensures KeysOk(hash', threads[t := Gone()])
    ensures forall k :: k in hash' ==> hash'[k] != t
    ensures forall k :: k in hash ==> (k !in hash' <==> hash[k] == t)
  {
    var threads' := threads[t := Gone()];
    forall k | k in hash' ensures hash'[k] < |threads'| && hash'[k] != t && k in threads'[hash'[k]].keys {
      assert k in hash && k in threads[hash[k]].keys;
    }
    forall u, k | 0 <= u < |threads'| && k in threads'[u].keys ensures k in hash' && hash'[k] == u {
      assert u != t && k in threads[u].keys && hash[k] == u;
      if k in threads[t].keys {
        assert false;
      }
    }
  }

  lemma RetireHomed(hash: map<Key, nat>, threads: seq<Thread>, t: nat, hash': map<Key, nat>, spoiled: set<Key>)
    requires Homed(hash, threads, spoiled) && t < |threads| && Released(hash, threads, t, hash')
    requires forall k :: k in hash ==> (k !in hash' <==> hash[k] == t)
    ensures Homed(hash', threads[t := Gone()], spoiled + KeysOf(threads[t].queue))
  {
    var threads' := threads[t := Gone()];
    var spoiled' := spoiled + KeysOf(threads[t].queue);
    forall u, r | 0 <= u < |threads'| && (r in threads'[u].queue || r in threads'[u].running)
      ensures HomedAt(hash', spoiled', u, r)
    {
      assert u != t && threads'[u] == threads[u];
      assert HomedAt(hash, spoiled, u, r);
    }
  }

  lemma RetireInOrder(spoiled: set<Key>, policyUsed: bool, pushed: seq<Request>, started: seq<Request>,
                      hash: map<Key, nat>, threads: seq<Thread>, t: nat, hash': map<Key, nat>)
    requires InOrder(spoiled, policyUsed, pushed, started, NoPush, hash, threads) && t < |threads|
    requires Released(hash, threads, t, hash') && forall k :: k in hash ==> (k !in hash' <==> hash[k] == t)
    ensures InOrder(spoiled + KeysOf(threads[t].queue), policyUsed, pushed, started, NoPush, hash', threads[t := Gone()])
  {
    var threads', spoiled' := threads[t := Gone()], spoiled + KeysOf(threads[t].queue);
    forall k, poa | k !in spoiled' && (poa != None || !policyUsed)
      ensures Ordered(k, poa, pushed, started, NoPush, hash', threads')
    {
      hide Select;
      assert Ordered(k, poa, pushed, started, NoPush, hash, threads);
      SelectEmpty(k, poa);
      if k in hash && hash[k] == t {
        NoneOfKey(k, poa, threads[t].queue);
      }
    }
  }

  lemma NoneOfKey(k: Key, poa: Option<nat>, q: seq<Request>)
    requires k !in KeysOf(q)
    ensures Select(k, poa, q) == []
  {
    forall i | 0 <= i < |q| ensures !Matches(k, poa, q[i]) {
      assert q[i] in q;
    }
    SelectNone(k, poa, q);
  }

  lemma RetireConserved(pushed: seq<Request>, started: seq<Request>, lost: seq<Request>, threads: seq<Thread>, t: nat)
    requires Conserved(pushed, started, lost, NoPush, threads) && t < |threads|
    ensures Conserved(pushed, started, lost + threads[t].queue, NoPush, threads[t := Gone()])
  {
    hide Queued;
    var a, b := QueuedSplit(threads, t, Gone());
    LoseMultiset(a, threads[t].queue, b);
  }

  lemma LoseMultiset(a: seq<Request>, q: seq<Request>, b: seq<Request>)
    ensures multiset(a + (q + b)) == multiset(a + ([] + b)) + multiset(q)
  {
    assert multiset(a + (q + b)) == multiset(a) + multiset(q) + multiset(b);
    assert multiset(a + ([] + b)) == multiset(a) + multiset(b);
  }

  lemma RetireThreads(hash: map<Key, nat>, threads: seq<Thread>, policyUsed: bool, t: nat, hash': map<Key, nat>)
    requires ThreadsOk(threads, policyUsed) && PushOk(NoPush, hash, threads) && t < |threads| && t != MAIN && QueueEmpty(threads[t])
    ensures ThreadsOk(threads[t := Gone()], policyUsed) && PushOk(NoPush, hash', threads[t := Gone()])
    ensures !policyUsed || threads[t].policies == [] ==>
      threads[t].queue == [] && threads[t].asyncEnts == [] && KeysOf(threads[t].queue) == {}
  {
  }

  lemma AddedKeys(hash: map<Key, nat>, threads: seq<Thread>, t: nat, k: Key)
    requires KeysOk(hash, threads) && t < |threads| && threads[t].phase == Live && k !in hash
    ensures KeysOk(hash[k := t], threads[t := threads[t].(keys := [k] + threads[t].keys)])
  {
    assert k !in threads[t].keys;
  }

  lemma AddedHomed(hash: map<Key, nat>, threads: seq<Thread>, t: nat, k: Key, spoiled: set<Key>)
    requires Homed(hash, threads, spoiled) && t < |threads| && k !in hash
    ensures Homed(hash[k := t], threads[t := threads[t].(keys := [k] + threads[t].keys)], spoiled)
  {
    var threads' := threads[t := threads[t].(keys := [k] + threads[t].keys)];
    forall u, r | 0 <= u < |threads'| && (r in threads'[u].queue || r in threads'[u].running)
      ensures HomedAt(hash[k := t], spoiled, u, r)
    {
      assert r in threads[u].queue || r in threads[u].running;
      assert HomedAt(hash, spoiled, u, r);
    }
  }

  lemma AddedInOrder(spoiled: set<Key>, policyUsed: bool, pushed: seq<Request>, started: seq<Request>,
                     hash: map<Key, nat>, threads: seq<Thread>, t: nat, k: Key)
    requires InOrder(spoiled, policyUsed, pushed, started, NoPush, hash, threads)
    requires t < |threads| && k !in hash && Homed(hash, threads, spoiled)
    ensures InOrder(spoiled, policyUsed, pushed, started, NoPush, hash[k := t],
      threads[t := threads[t].(keys := [k] + threads[t].keys)])
  {
    var hash', threads' := hash[k := t], threads[t := threads[t].(keys := [k] + threads[t].keys)];
    forall l, poa | l !in spoiled && (poa != None || !policyUsed)
      ensures Ordered(l, poa, pushed, started, NoPush, hash', threads')
    {
      assert Ordered(l, poa, pushed, started, NoPush, hash, threads);
      if l == k {
        forall i | 0 <= i < |threads[t].queue| ensures !Matches(l, poa, threads[t].queue[i]) {
          assert HomedAt(hash, spoiled, t, threads[t].queue[i]);
        }
        SelectNone(l, poa, threads[t].queue);
      }
    }
  }

  function RemoveAt(keys: seq<Key>, i: nat): seq<Key>
    requires i < |keys|
  {
    keys[..i] + keys[i + 1..]
  }

  lemma RemovedKeys(hash: map<Key, nat>, threads: seq<Thread>, k: Key, i: nat)
    requires KeysOk(hash, threads) && k in hash && i < |threads[hash[k]].keys| && threads[hash[k]].keys[i] == k
    ensures KeysOk(hash - {k}, threads[hash[k] := threads[hash[k]].(keys := RemoveAt(threads[hash[k]].keys, i))])
  {
    var t, keys := hash[k], threads[hash[k]].keys;
    var keys' := keys[..i] + keys[i + 1..];
    forall l ensures l in keys' <==> l in keys && l != k {
      if l in keys && l != k {
        var j :| 0 <= j < |keys| && keys[j] == l;
        assert keys'[if j < i then j else j - 1] == l;
      }
    }
    assert NoRepeat(keys');
  }

  lemma RemovedHomed(hash: map<Key, nat>, threads: seq<Thread>, k: Key, th: Thread, spoiled: set<Key>)
    requires Homed(hash, threads, spoiled) && k in hash && hash[k] < |threads|
    requires th.queue == threads[hash[k]].queue && th.running == threads[hash[k]].running
    ensures Homed(hash - {k}, threads[hash[k] := th], spoiled + {k})
  {
    var threads' := threads[hash[k] := th];
    forall u, r | 0 <= u < |threads'| && (r in threads'[u].queue || r in threads'[u].running)
      ensures HomedAt(hash - {k}, spoiled + {k}, u, r)
    {
      assert r in threads[u].queue || r in threads[u].running;
      assert HomedAt(hash, spoiled, u, r);
    }
  }

  lemma RemovedInOrder(spoiled: set<Key>, policyUsed: bool, pushed: seq<Request>, started: seq<Request>,
                       hash: map<Key, nat>, threads: seq<Thread>, k: Key, th: Thread)
    requires InOrder(spoiled, policyUsed, pushed, started, NoPush, hash, threads)
    requires k in hash && hash[k] < |threads| && th.queue == threads[hash[k]].queue
    ensures InOrder(spoiled + {k}, policyUsed, pushed, started, NoPush, hash - {k}, threads[hash[k] := th])
  {
    var hash', threads', spoiled' := hash - {k}, threads[hash[k] := th], spoiled + {k};
    forall l, poa | l !in spoiled' && (poa != None || !policyUsed)
      ensures Ordered(l, poa, pushed, started, NoPush, hash', threads')
    {
      assert Ordered(l, poa, pushed, started, NoPush, hash, threads);
      assert QueueOf(l, hash', threads') == QueueOf(l, hash, threads);
    }
  }

  lemma PolicyInOrder(spoiled: set<Key>, policyUsed: bool, pushed: seq<Request>, started: seq<Request>, push: Push,
                      hash: map<Key, nat>, threads: seq<Thread>)
    requires InOrder(spoiled, policyUsed, pushed, started, push, hash, threads)
    ensures InOrder(spoiled, true, pushed, started, push, hash, threads)
  {
  }

  lemma ReleaseKeeps(hash: map<Key, nat>, threads: seq<Thread>, policyUsed: bool, spoiled: set<Key>,
                     pushed: seq<Request>, started: seq<Request>, lost: seq<Request>, k: Key, i: nat)
    requires KeysOk(hash, threads) && ThreadsOk(threads, policyUsed) && PushOk(NoPush, hash, threads)
    requires Homed(hash, threads, spoiled) && Conserved(pushed, started, lost, NoPush, threads)
    requires InOrder(spoiled, policyUsed, pushed, started, NoPush, hash, threads)
    requires k in hash && hash[k] < |threads| && i < |threads[hash[k]].keys| && threads[hash[k]].keys[i] == k
    ensures
      var threads' := threads[hash[k] := threads[hash[k]].(keys := RemoveAt(threads[hash[k]].keys, i))];
      && KeysOk(hash - {k}, threads') && ThreadsOk(threads', policyUsed) && PushOk(NoPush, hash - {k}, threads')
      && Homed(hash - {k}, threads', spoiled + {k}) && Conserved(pushed, started, lost, NoPush, threads')
      && InOrder(spoiled + {k}, policyUsed, pushed, started, NoPush, hash - {k}, threads')
  {
    hide *;
    var t := hash[k];
    var th := threads[t].(keys := RemoveAt(threads[t].keys, i));
    KnownThread(hash, threads, k);
    ThreadIsOk(threads, policyUsed, t);
    RemovedKeys(hash, threads, k, i);
    RemovedThread(hash, threads, policyUsed, k, th.keys);
    RemovedHomed(hash, threads, k, th, spoiled);
    ThreadsUpdate(threads, policyUsed, t, th);
    RemovedInOrder(spoiled, policyUsed, pushed, started, hash, threads, k, th);
    SameQueued(threads, t, th);
    ConservedSame(pushed, started, lost, NoPush, NoPush, threads, threads[t := th]);
  }

  lemma RemovedThread(hash: map<Key, nat>, threads: seq<Thread>, policyUsed: bool, k: Key, keys: seq<Key>)
    requires k in hash && hash[k] < |threads| && threads[hash[k]].phase == Live
    requires ThreadOk(threads[hash[k]], policyUsed) && PushOk(NoPush, hash, threads)
    ensures ThreadOk(threads[hash[k]].(keys := keys), policyUsed)
    ensures PushOk(NoPush, hash - {k}, threads[hash[k] := threads[hash[k]].(keys := keys)])
  {
  }
}

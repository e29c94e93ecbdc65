/** Both ends of a connection together: a value marshalled into a send buffer and demarshalled from what that
    buffer sends, and messages written to an output queue and dispatched by the receiving channel. */
module EndToEnd {
  import opened Common
  import opened Cdr
  import opened TypeCodes
  import opened TypeCodeRoundTrip
  import opened TypeCodeEquality
  import opened TypeCodeDecoder
  import opened SendBuffer
  import opened RecvBuffer
  import opened Values
  import opened ValueRoundTrip
  import opened ValueCodec
  import GiopReceive
  import LinkConnection

  // ----- a value -----

  /** The bytes that the buffer's vectors stand for, header first. */
  method Gather(buf: Buffer) returns (bytes: seq<Byte>)
    requires buf.Valid() && buf.headerSize == 12
    ensures bytes == buf.Contents()
  {
    hide Denotes, ChunksOk;
    var size := Store(buf.order, 4, buf.messageSize);
    bytes := [71, 73, 79, 80, 1, buf.minor, OrderFlag(buf.order), buf.messageType] + size;
    ghost var header := bytes;
    assert buf.iovecs[..0] == [];
    for i := 0 to |buf.iovecs|
      invariant bytes == header + Flat(buf.mem, buf.iovecs[..i])
    {
      var v := buf.iovecs[i];
      assert InBounds(buf.mem, v);
      assert buf.iovecs[..i + 1][..i] == buf.iovecs[..i];
      bytes := bytes + buf.mem[v.base..v.base + v.len];
    }
    assert buf.iovecs[..|buf.iovecs|] == buf.iovecs;
  }

  /** A value sent in a message of its own, and received with an equivalent type on a machine of either byte
      order: it is the same value, and nothing of the message is left over. With 64-bit pointers that is so
      exactly if the machine can decode the TypeCodes in the value. */
  method Transfer(buf: Buffer, t: TypeCode, v: Value, expected: TypeCode, native: Order, wide: bool, next: nat,
                  ghost h: map<nat, TypeCode>)
    returns (err: bool, v': Value, ghost rest: nat)
    requires exists version :: buf.Started(version)
    requires HasType(t, v) && ValueInHeap(h, v) && Equiv(t, expected, false)
    requires |Marshal(t, v, Pads(12), buf.order)| < 0x1_0000_0000
    requires wide ==> |Marshal(t, v, Pads(12), buf.order)| <= 0x8000_0000
    modifies buf
    ensures err <==> wide && !LocalValue(v)
    ensures !err ==> Erase(v') == Erase(v) && rest == 0
  {
    hide *;
    StartedIs(buf);
    MarshalValue(buf, t, v);
    buf.ContentsFit();
    HeaderAt(buf);
    var bytes := Gather(buf);
    FlagIs(buf.order);
    assert bytes[6] == bytes[..8][6];
    var c := new Input(bytes, 0, 12, |bytes|, FlagOrder(bytes[6]), native, wide);
    ghost var st := Dec(12, map[], next);
    assert c.Window() == Win(bytes, |bytes|, buf.order, 0, wide);
    StartsThere(c.Window());
    ghost var sent, st' := DemarshalAsEquivalent(h, c.Window(), t, expected, v, Pads(12), st);
    var next';
    err, v', next' := DemarshalValue(expected, c, next);
    ReportsIs(Demarshal(c.Window(), expected, st), err, v', Dec(c.cur, map[], next'), sent, st');
    rest := if err then 0 else c.end - c.cur;
  }

  lemma FlagIs(o: Order)
    ensures FlagOrder(OrderFlag(o)) == o
  {
  }

  lemma StartedIs(buf: Buffer)
    requires exists version :: buf.Started(version)
    ensures buf.Valid() && buf.headerSize == 12 && buf.out == Pads(12)
  {
  }

  lemma StartsThere(w: Window)
    requires w.body == 0 && (w.wide ==> w.end <= 0x8000_0000)
    ensures Within(w, Pads(12))
  {
  }

  lemma ReportsIs(r: Parsed<Value>, err: bool, v: Value, st: Dec, sent: Value, st': Dec)
    requires Reports(r, err, v, st) && (r == Ok(sent, st') || r.Fail?)
    ensures err <==> r.Fail?
    ensures !err ==> v == sent && st == st'
  {
  }

  // ----- messages -----

  /** What a send buffer sends is one message to the receiver. */
  lemma SentIsFrame(buf: Buffer, limit: nat)
    requires buf.Valid() && buf.headerSize == 12 && buf.messageSize < 0x1_0000_0000
    requires buf.minor <= 2 && buf.messageType < GiopReceive.NUM_MSG_TYPES && buf.messageSize <= limit
    ensures GiopReceive.IsFrame(buf.Contents(), limit)
  {
    hide *;
    buf.ContentsFit();
    HeaderAt(buf);
    FrameOf(buf.Contents(), buf.minor, buf.order, buf.messageType, limit);
  }

  lemma HeaderAt(buf: Buffer)
    requires buf.Valid() && buf.headerSize == 12
    ensures |buf.Contents()| == |buf.out| == 12 + buf.messageSize
    ensures buf.Contents()[..8] == [71, 73, 79, 80, 1, buf.minor, OrderFlag(buf.order), buf.messageType]
  {
    hide Flat, ChunksOk, Store;
    buf.ContentsFit();
    assert buf.Contents()[..8] == buf.Header()[..8];
  }

  lemma FrameOf(f: seq<Byte>, minor: Byte, order: Order, messageType: Byte, limit: nat)
    requires |f| >= 12 && f[..8] == [71, 73, 79, 80, 1, minor, OrderFlag(order), messageType]
    requires minor <= 2 && messageType < GiopReceive.NUM_MSG_TYPES
    requires Load(order, f[8..12]) == |f| - 12 <= limit
    ensures GiopReceive.IsFrame(f, limit)
  {
    hide Load;
    assert forall i :: 0 <= i < 8 ==> f[i] == f[..8][i];
    assert f[..4] == f[..8][..4] == [71, 73, 79, 80];
    assert FlagOrder(f[6]) == order;
  }

  /** The messages written, in the order of the calls. */
  ghost function Messages(events: seq<LinkConnection.Event>): seq<seq<Byte>> {
    if events == [] then []
    else
      Messages(events[..|events| - 1]) +
      match events[|events| - 1] case Write(vecs) => [Flatten(vecs)] case _ => []
  }

  lemma {:induction false} MessagesAreSubmitted(events: seq<LinkConnection.Event>)
    ensures Flatten(Messages(events)) == LinkConnection.Submissions(events)
  {
    if events != [] {
      var init := events[..|events| - 1];
      MessagesAreSubmitted(init);
      match events[|events| - 1] {
        case Write(vecs) => FlattenSnoc(Messages(init), Flatten(vecs));
        case _ =>
          assert Messages(init) + [] == Messages(init);
      }
    }
  }

  /** As much of a stream of messages as has arrived is split into the first ones of them. */
  lemma {:induction false} SplitPrefix(fs: seq<seq<Byte>>, s: seq<Byte>, rest: seq<Byte>, limit: nat) returns (k: nat)
    requires GiopReceive.FramesOk(fs, limit) && Flatten(fs) == s + rest
    ensures k <= |fs| && GiopReceive.SplitStream(s, limit) == GiopReceive.Split(fs[..k], false)
    ensures rest == [] ==> k == |fs|
  {
    hide GiopReceive.HeaderOk, GiopReceive.BodySize;
    k := 0;
    if fs != [] {
      var f := fs[0];
      assert GiopReceive.IsFrame(f, limit);
      var all := Flatten(fs);
      assert all[..12] == f[..12] && all[..|f|] == f && all[|f|..] == Flatten(fs[1..]);
      assert |s| >= 12 ==> s[..12] == all[..12];
      if |s| >= |f| {
        assert s[..|f|] == f && all[|f|..] == s[|f|..] + rest;
        GiopReceive.HeaderOnly(s, f, limit);
        k := SplitPrefix(fs[1..], s[|f|..], rest, limit);
        k := k + 1;
        assert fs[..k] == [f] + fs[1..][..k - 1];
      } else if |s| >= 12 {
        GiopReceive.HeaderOnly(s, f, limit);
      }
    }
  }

  /** Messages written to a connection in any run of its events, and the bytes that got out read in any
      pieces at the other end: the receiver has handled exactly the first messages in order, all of them when
      everything has been written and read, and it never meets a bad header. */
  method Converse(cnx: LinkConnection.Connection, events: seq<LinkConnection.Event>, orb: GiopReceive.Orb, limit: nat, calls: nat)
    returns (channel: GiopReceive.Channel)
    requires cnx.Valid() && cnx.intact && cnx.wire == [] && cnx.submitted == [] && cnx.writeQueue == []
    requires GiopReceive.FramesOk(Messages(events), limit)
    modifies cnx
    ensures channel.Valid()
    ensures cnx.intact ==> exists k ::
      && 0 <= k <= |Messages(events)|
      && channel.Box() == GiopReceive.FeedAll(orb, Messages(events)[..k])
      && (channel.unread == [] && LinkConnection.Pending(cnx.writeQueue) == [] ==> k == |Messages(events)|)
      && (Ordinary(orb, Messages(events), limit) ==> GiopReceive.Handed(channel.log) == Messages(events)[..k])
  {
    hide *;
    cnx.Run(events);
    channel := new GiopReceive.Channel(orb, limit, cnx.wire);
    channel.Run(calls);
    if cnx.intact {
      MessagesAreSubmitted(events);
      ghost var rest := channel.unread + LinkConnection.Pending(cnx.writeQueue);
      assert Flatten(Messages(events)) == channel.consumed + rest;
      ghost var k := SplitPrefix(Messages(events), channel.consumed, rest, limit);
      ReceivedFrames(orb, channel.consumed, limit, Messages(events)[..k]);
      if Ordinary(orb, Messages(events), limit) {
        OrdinaryHanded(orb, Messages(events), k, limit);
        LogIs(channel);
      }
    }
  }

  /** Requests and locate requests without fragments, with good headers. */
  ghost predicate Ordinary(orb: GiopReceive.Orb, fs: seq<seq<Byte>>, limit: nat) {
    forall i :: 0 <= i < |fs| ==>
      |fs[i]| >= 12 && GiopReceive.Plain(fs[i]) && fs[i][7] in {0, 3} && GiopReceive.HeaderGood(orb, fs[i])
  }

  /** They are all handed on, as they are, and the connection stays open. */
  lemma {:induction false} OrdinaryHanded(orb: GiopReceive.Orb, fs: seq<seq<Byte>>, k: nat, limit: nat)
    requires GiopReceive.FramesOk(fs, limit) && Ordinary(orb, fs, limit) && k <= |fs|
    ensures !GiopReceive.FeedAll(orb, fs[..k]).closed && GiopReceive.Handed(GiopReceive.FeedAll(orb, fs[..k]).log) == fs[..k]
  {
    hide GiopReceive.Feed, GiopReceive.IsFrame, GiopReceive.Plain, GiopReceive.HeaderGood, GiopReceive.FragsOk;
    if k > 0 {
      OrdinaryHanded(orb, fs, k - 1, limit);
      assert fs[..k] == fs[..k - 1] + [fs[k - 1]];
      GiopReceive.FeedAppend(orb, fs[..k - 1], fs[k - 1]);
      assert GiopReceive.IsFrame(fs[k - 1], limit);
      hide GiopReceive.FeedAll;
      OrdinaryStep(orb, GiopReceive.FeedAll(orb, fs[..k - 1]), fs[k - 1], limit);
    }
  }

  lemma OrdinaryStep(orb: GiopReceive.Orb, box: GiopReceive.Inbox, f: seq<Byte>, limit: nat)
    requires |f| >= 12 && GiopReceive.IsFrame(f, limit) && GiopReceive.Plain(f) && GiopReceive.FragsOk(box.frags) && !box.closed
    requires f[7] in {0, 3} && GiopReceive.HeaderGood(orb, f)
    ensures !GiopReceive.Feed(orb, box, f).closed
    ensures GiopReceive.Handed(GiopReceive.Feed(orb, box, f).log) == GiopReceive.Handed(box.log) + [f]
  {
    GiopReceive.PlainStep(orb, box, f, limit);
    hide GiopReceive.Feed, GiopReceive.IsFrame, GiopReceive.Plain, GiopReceive.HeaderGood, GiopReceive.FragsOk;
    var r := GiopReceive.Feed(orb, box, f);
    assert r.log[..|r.log| - 1] == box.log;
  }

  lemma LogIs(channel: GiopReceive.Channel)
    ensures channel.Box().log == channel.log
  {
  }

  lemma ReceivedFrames(orb: GiopReceive.Orb, s: seq<Byte>, limit: nat, fs: seq<seq<Byte>>)
    requires GiopReceive.SplitStream(s, limit) == GiopReceive.Split(fs, false)
    ensures forall i :: 0 <= i < |fs| ==> |fs[i]| >= 12
    ensures GiopReceive.Receive(orb, s, limit) == GiopReceive.FeedAll(orb, fs)
  {
    GiopReceive.SplitFrames(s, limit);
  }
}

/** The receiving side of a GIOP connection: messages cut out of the byte stream, and fragments put
    together again. */
module GiopReceive {
  import opened Common
  import opened Cdr

  const REQUEST: Byte := 0
  const REPLY: Byte := 1
  const CANCELREQUEST: Byte := 2
  const LOCATEREQUEST: Byte := 3
  const LOCATEREPLY: Byte := 4
  const CLOSECONNECTION: Byte := 5
  const MESSAGEERROR: Byte := 6
  const FRAGMENT: Byte := 7
  const NUM_MSG_TYPES: Byte := 8

  // ----- messages in a stream -----

  function MessageType(f: seq<Byte>): Byte
    requires |f| >= 12
  {
    f[7]
  }

  function MessageOrder(f: seq<Byte>): Order
    requires |f| >= 12
  {
    FlagOrder(f[6])
  }

  predicate MoreFragments(f: seq<Byte>)
    requires |f| >= 12
  {
    f[6] / 2 % 2 == 1
  }

  function BodySize(f: seq<Byte>): nat
    requires |f| >= 12
  {
    Load(MessageOrder(f), f[8..12])
  }

  /** The checks of giop_recv_msg_reading_body; `limit` is the size limit of the connection. */
  predicate HeaderOk(f: seq<Byte>, limit: nat) {
    && |f| >= 12 && f[..4] == [71, 73, 79, 80] && f[7] < NUM_MSG_TYPES
    && f[4] == 1 && f[5] <= 2 && BodySize(f) <= limit
  }

  lemma HeaderOnly(f: seq<Byte>, g: seq<Byte>, limit: nat)
    requires |f| >= 12 && |g| >= 12 && f[..12] == g[..12]
    ensures HeaderOk(f, limit) == HeaderOk(g, limit) && BodySize(f) == BodySize(g)
  {
    assert forall i :: 0 <= i < 12 ==> f[i] == f[..12][i];
    assert forall i :: 0 <= i < 12 ==> g[i] == g[..12][i];
    assert f[8..12] == g[8..12];
    assert f[..4] == g[..4];
  }

  /** A header and the body it announces. */
  predicate IsFrame(f: seq<Byte>, limit: nat) {
    |f| >= 12 && HeaderOk(f, limit) && |f| == 12 + BodySize(f)
  }

  ghost predicate FramesOk(fs: seq<seq<Byte>>, limit: nat) {
    forall i :: 0 <= i < |fs| ==> |fs[i]| >= 12 && IsFrame(fs[i], limit)
  }

  /** The stream cut at the header sizes, up to the first incomplete message or bad header. */
  datatype Split = Split(frames: seq<seq<Byte>>, bad: bool)

  function SplitStream(s: seq<Byte>, limit: nat): Split {
    if |s| < 12 then Split([], false)
    else if !HeaderOk(s, limit) then Split([], true)
    else
      var n := 12 + BodySize(s);
      if |s| < n then Split([], false)
      else
        var r := SplitStream(s[n..], limit);
        Split([s[..n]] + r.frames, r.bad)
  }

  /** What is left of a stream after its complete messages. */
  predicate Incomplete(s: seq<Byte>, limit: nat) {
    |s| < 12 || (HeaderOk(s, limit) && |s| < 12 + BodySize(s))
  }

  /** Complete messages and then an incomplete or bad one can be cut in only one way. */
  lemma {:induction false} SplitUnique(fs: seq<seq<Byte>>, rest: seq<Byte>, limit: nat)
    requires FramesOk(fs, limit)
    requires Incomplete(rest, limit) || (|rest| >= 12 && !HeaderOk(rest, limit))
    ensures SplitStream(Flatten(fs) + rest, limit) == Split(fs, !Incomplete(rest, limit))
  {
    hide HeaderOk, BodySize;
    if fs == [] {
      assert Flatten(fs) + rest == rest;
    } else {
      var s := Flatten(fs) + rest;
      assert IsFrame(fs[0], limit);
      assert s == fs[0] + (Flatten(fs[1..]) + rest);
      assert s[..12] == fs[0][..12] && s[..|fs[0]|] == fs[0] && s[|fs[0]|..] == Flatten(fs[1..]) + rest;
      HeaderOnly(s, fs[0], limit);
      SplitUnique(fs[1..], rest, limit);
    }
  }

  // ----- fragments -----

  /** A received message: its bytes up to `end`, the position behind what has been demarshalled, and the
      size field of its header. */
  datatype Buf = Buf(bytes: seq<Byte>, cur: nat, size: nat, id: U32)

  /** A head may end before the alignment of its own arguments: then `cur` is behind the end. */
  predicate BufOk(b: Buf) {
    12 <= b.cur && 12 <= |b.bytes|
  }

  /** A buffer that can be a fragment of a message. */
  predicate PartOk(b: Buf) {
    12 <= b.cur <= |b.bytes|
  }

  function Payload(b: Buf): seq<Byte>
    requires b.cur <= |b.bytes|
  {
    b.bytes[b.cur..]
  }

  /** The lists of fragments under way, newest list first, each with its head first. */
  type Frags = seq<seq<Buf>>

  ghost predicate AllOk(l: seq<Buf>) {
    forall i :: 0 <= i < |l| ==> PartOk(l[i])
  }

  ghost predicate ListOk(l: seq<Buf>) {
    && l != [] && BufOk(l[0]) && AllOk(l[1..]) && MessageType(l[0].bytes) in {REQUEST, REPLY, LOCATEREQUEST, LOCATEREPLY}
    && l[0].size == |l[0].bytes| - 12 + |Payloads(l[1..])|
  }

  predicate NoneEmpty(frags: Frags) {
    forall i :: 0 <= i < |frags| ==> frags[i] != []
  }

  ghost predicate FragsOk(frags: Frags) {
    && (forall i :: 0 <= i < |frags| ==> ListOk(frags[i]))
    && forall i, j :: 0 <= i < j < |frags| ==> frags[i] != [] && frags[j] != [] && frags[i][0].id != frags[j][0].id
  }

  ghost function Payloads(l: seq<Buf>): seq<Byte>
    requires AllOk(l)
  {
    if l == [] then []
    else
      assert PartOk(l[0]);
      Payload(l[0]) + Payloads(l[1..])
  }

  lemma {:induction false} PayloadsAppend(l: seq<Buf>, b: Buf)
    requires PartOk(b) && AllOk(l)
    ensures AllOk(l + [b]) && Payloads(l + [b]) == Payloads(l) + Payload(b)
  {
    if l == [] {
      assert l + [b] == [b];
    } else {
      assert (l + [b])[1..] == l[1..] + [b];
      PayloadsAppend(l[1..], b);
    }
  }

  /** The whole message: the head, the fragments' payloads in arrival order, and the head's position. */
  ghost function Rebuilt(l: seq<Buf>): Buf
    requires l != [] && AllOk(l[1..])
  {
    Buf(l[0].bytes + Payloads(l[1..]), l[0].cur, l[0].size, l[0].id)
  }

  method CopyTo(a: array<Byte>, at: nat, data: seq<Byte>)
    requires at + |data| <= a.Length
    modifies a
    ensures a[..at + |data|] == old(a[..at]) + data
  {
    forall i | 0 <= i < |data| {
      a[at + i] := data[i];
    }
    assert a[..at] == old(a[..at]);
  }

  /** concat_frags: the buffer computed from the accumulated size is never overrun. */
  method ConcatFrags(l: seq<Buf>) returns (whole: Buf)
    requires ListOk(l)
    ensures whole == Rebuilt(l)
  {
    var head := l[0];
    var initialOffset := head.cur;
    var length := head.size + initialOffset - 12;
    var body := new Byte[length + 12];
    assert body[..0] == [];
    CopyTo(body, 0, head.bytes);
    var ptr := |head.bytes|;
    var k := 1;
    while k < |l|
      invariant 1 <= k <= |l| && AllOk(l[k..]) && ptr + |Payloads(l[k..])| <= body.Length
      invariant 0 <= ptr <= body.Length && body[..ptr] + Payloads(l[k..]) == head.bytes + Payloads(l[1..])
    {
      assert l[k..][0] == l[k] && l[k..][1..] == l[k + 1..] && l[k] == l[1..][k - 1] && PartOk(l[k]);
      assert Payloads(l[k..]) == Payload(l[k]) + Payloads(l[k + 1..]);
      hide Payload, Payloads, ListOk, PartOk;
      ghost var before := body[..ptr];
      CopyTo(body, ptr, Payload(l[k]));
      assert before + Payload(l[k]) + Payloads(l[k + 1..]) == before + Payloads(l[k..]);
      ptr := ptr + |Payload(l[k])|;
      k := k + 1;
    }
    assert l[k..] == [];
    whole := Buf(body[..ptr], initialOffset, head.size, head.id);
  }

  /** The list whose head has the request id, or else, for GIOP 1.1, the newest list. */
  function FindList(frags: Frags, id: U32, firstIfNone: bool): (k: nat)
    requires NoneEmpty(frags)
    ensures k <= |frags|
  {
    var k := FirstWithId(frags, id);
    if k < |frags| then k else if firstIfNone then 0 else |frags|
  }

  function FirstWithId(frags: Frags, id: U32): (k: nat)
    requires NoneEmpty(frags)
    ensures k <= |frags| && (k < |frags| ==> frags[k][0].id == id)
    ensures forall j :: 0 <= j < k ==> frags[j][0].id != id
  {
    if frags == [] then 0
    else
      if frags[0][0].id == id then 0 else 1 + FirstWithId(frags[1..], id)
  }

  /** giop_connection_get_frag. */
  method GetFrag(frags: Frags, id: U32, firstIfNone: bool) returns (k: nat)
    requires NoneEmpty(frags)
    ensures k == FindList(frags, id, firstIfNone)
  {
    k := 0;
    assert frags[0..] == frags;
    while k < |frags|
      invariant k <= |frags| && FirstWithId(frags, id) == k + FirstWithId(frags[k..], id)
    {
      assert frags[k..][0] == frags[k] && frags[k..][1..] == frags[k + 1..];
      if frags[k][0].id == id {
        return;
      }
      k := k + 1;
    }
    if firstIfNone {
      k := 0;
    }
  }

  datatype FragResult = Refused | Kept(frags: Frags) | Whole(frags: Frags, buf: Buf)

  /** giop_recv_buffer_handle_fragmented, for a buffer whose own header, or fragment header, has been read. */
  ghost function HandleFragmented(frags: Frags, buf: Buf): (r: FragResult)
    requires FragsOk(frags) && BufOk(buf) && buf.size == |buf.bytes| - 12
    ensures r.Kept? || r.Whole? ==> FragsOk(r.frags)
  {
    if MessageType(buf.bytes) !in {REQUEST, REPLY, LOCATEREQUEST, LOCATEREPLY, FRAGMENT} then Refused
    else
      ListsNonempty(frags);
      var k := FindList(frags, buf.id, buf.bytes[5] == 1);
      if k == |frags| then
        if !MoreFragments(buf.bytes) || MessageType(buf.bytes) == FRAGMENT then Refused
        else
          AddOk(frags, buf);
          Kept([[buf]] + frags)
      else
        if !PartOk(buf) then Refused
        else
          var l := Extended(frags[k], buf);
          ExtendedOk(frags[k], buf);
          if MoreFragments(buf.bytes) then
            ReplaceOk(frags, k, l);
            Kept(frags[k := l])
          else
            RemoveOk(frags, k);
            Whole(frags[..k] + frags[k + 1..], Rebuilt(l))
  }

  lemma ListsNonempty(frags: Frags)
    requires FragsOk(frags)
    ensures NoneEmpty(frags)
  {
  }

  /** The list with one more fragment, counted on the head. */
  function Extended(l: seq<Buf>, buf: Buf): seq<Buf>
    requires l != [] && buf.cur <= |buf.bytes|
  {
    [l[0].(size := l[0].size + (|buf.bytes| - buf.cur))] + l[1..] + [buf]
  }

  lemma ExtendedOk(l: seq<Buf>, buf: Buf)
    requires ListOk(l) && PartOk(buf)
    ensures ListOk(Extended(l, buf)) && Extended(l, buf)[0].id == l[0].id
    ensures Extended(l, buf)[1..] == l[1..] + [buf]
  {
    var r := Extended(l, buf);
    assert r[1..] == l[1..] + [buf];
    PayloadsAppend(l[1..], buf);
  }

  lemma AddOk(frags: Frags, buf: Buf)
    requires FragsOk(frags) && BufOk(buf) && buf.size == |buf.bytes| - 12
    requires MessageType(buf.bytes) in {REQUEST, REPLY, LOCATEREQUEST, LOCATEREPLY}
    requires forall i :: 0 <= i < |frags| ==> frags[i] != [] && frags[i][0].id != buf.id
    ensures FragsOk([[buf]] + frags)
  {
    assert [buf][1..] == [];
    var r := [[buf]] + frags;
    forall i | 0 <= i < |r| ensures r[i] == if i == 0 then [buf] else frags[i - 1] {
    }
  }

  lemma ReplaceOk(frags: Frags, k: nat, l: seq<Buf>)
    requires FragsOk(frags) && k < |frags| && ListOk(l) && frags[k] != [] && l[0].id == frags[k][0].id
    ensures FragsOk(frags[k := l])
  {
  }

  lemma RemoveOk(frags: Frags, k: nat)
    requires FragsOk(frags) && k < |frags|
    ensures FragsOk(frags[..k] + frags[k + 1..])
  {
    var r := frags[..k] + frags[k + 1..];
    forall i | 0 <= i < |r| ensures r[i] == frags[if i < k then i else i + 1] {
    }
  }

  // ----- interleaved fragments -----

  /** The fragments under way for a request id. */
  ghost function Lookup(frags: Frags, id: U32): seq<Buf>
    requires NoneEmpty(frags)
  {
    var k := FirstWithId(frags, id);
    if k < |frags| then frags[k] else []
  }

  ghost predicate Handable(buf: Buf) {
    BufOk(buf) && buf.size == |buf.bytes| - 12 && buf.bytes[5] != 1
  }

  lemma FirstIs(frags: Frags, k: nat, id: U32)
    requires NoneEmpty(frags) && k < |frags| && frags[k][0].id == id
    requires forall i :: 0 <= i < |frags| && i != k ==> frags[i][0].id != id
    ensures Lookup(frags, id) == frags[k]
  {
  }

  lemma FirstNone(frags: Frags, id: U32)
    requires NoneEmpty(frags) && forall i :: 0 <= i < |frags| ==> frags[i][0].id != id
    ensures Lookup(frags, id) == []
  {
  }

  /** Only the list of the fragment's own id changes, and what happens to it depends on nothing else. */
  lemma OwnListOnly(frags: Frags, buf: Buf, id: U32)
    requires FragsOk(frags) && Handable(buf)
    ensures NoneEmpty(frags)
    ensures
      var r := HandleFragmented(frags, buf);
      var l := Lookup(frags, buf.id);
      && (r.Refused? <==> MessageType(buf.bytes) !in {REQUEST, REPLY, LOCATEREQUEST, LOCATEREPLY, FRAGMENT}
                          || (if l == [] then !MoreFragments(buf.bytes) || MessageType(buf.bytes) == FRAGMENT else !PartOk(buf)))
      && (!r.Refused? ==>
            && NoneEmpty(r.frags) && (r.Kept? <==> MoreFragments(buf.bytes))
            && (l == [] || PartOk(buf)) && Lookup(r.frags, buf.id) == (if r.Whole? then [] else if l == [] then [buf] else Extended(l, buf))
            && (id != buf.id ==> Lookup(r.frags, id) == Lookup(frags, id)))
      && (r.Whole? ==> l != [] && PartOk(buf) && ListOk(Extended(l, buf)) && r.buf == Rebuilt(Extended(l, buf)))
  {
    var k := FirstWithId(frags, buf.id);
    var r := HandleFragmented(frags, buf);
    if !r.Refused? {
      if k == |frags| {
        AddLookup(frags, buf, id);
      } else {
        ExtendedOk(frags[k], buf);
        if r.Kept? {
          ReplaceLookup(frags, k, Extended(frags[k], buf), id);
        } else {
          RemoveLookup(frags, k, id);
        }
      }
    }
  }

  lemma AddLookup(frags: Frags, buf: Buf, id: U32)
    requires NoneEmpty(frags) && forall i :: 0 <= i < |frags| ==> frags[i][0].id != buf.id
    ensures NoneEmpty([[buf]] + frags) && Lookup([[buf]] + frags, buf.id) == [buf]
    ensures id != buf.id ==> Lookup([[buf]] + frags, id) == Lookup(frags, id)
  {
    assert ([[buf]] + frags)[1..] == frags;
  }

  lemma ReplaceLookup(frags: Frags, k: nat, l: seq<Buf>, id: U32)
    requires FragsOk(frags) && NoneEmpty(frags) && k < |frags| && l != [] && l[0].id == frags[k][0].id
    ensures NoneEmpty(frags[k := l]) && Lookup(frags[k := l], l[0].id) == l
    ensures id != l[0].id ==> Lookup(frags[k := l], id) == Lookup(frags, id)
  {
    var r := frags[k := l];
    FirstIs(r, k, l[0].id);
    if id != l[0].id {
      SameLookup(frags, r, k, id);
    }
  }

  lemma {:induction false} SameLookup(frags: Frags, r: Frags, k: nat, id: U32)
    requires NoneEmpty(frags) && NoneEmpty(r) && |r| == |frags| && k < |frags|
    requires frags[k][0].id != id && r[k][0].id != id && forall i :: 0 <= i < |r| && i != k ==> r[i] == frags[i]
    ensures Lookup(r, id) == Lookup(frags, id)
  {
    var a, b := FirstWithId(frags, id), FirstWithId(r, id);
    if a < |frags| {
      assert r[a] == frags[a] && b <= a;
    }
    if b < |r| {
      assert r[b] == frags[b] && a <= b;
    }
  }

  lemma RemoveLookup(frags: Frags, k: nat, id: U32)
    requires FragsOk(frags) && NoneEmpty(frags) && k < |frags|
    ensures NoneEmpty(frags[..k] + frags[k + 1..]) && Lookup(frags[..k] + frags[k + 1..], frags[k][0].id) == []
    ensures id != frags[k][0].id ==> Lookup(frags[..k] + frags[k + 1..], id) == Lookup(frags, id)
  {
    var r := frags[..k] + frags[k + 1..];
    forall i | 0 <= i < |r| ensures r[i] == frags[if i < k then i else i + 1] {
    }
    FirstNone(r, frags[k][0].id);
    if id != frags[k][0].id {
      var a := FirstWithId(frags, id);
      if a < |frags| {
        assert r[if a < k then a else a - 1] == frags[a];
        FirstIs(r, if a < k then a else a - 1, id);
      } else {
        FirstNone(r, id);
      }
    }
  }

  /** A run of fragmented messages: what is under way, and the messages completed so far. */
  datatype Run = Broken | Running(frags: Frags, done: seq<Buf>)

  ghost function Assemble(bufs: seq<Buf>): (r: Run)
    requires forall i :: 0 <= i < |bufs| ==> Handable(bufs[i])
    ensures r.Running? ==> FragsOk(r.frags)
  {
    if bufs == [] then Running([], [])
    else
      var r := Assemble(bufs[..|bufs| - 1]);
      assert Handable(bufs[|bufs| - 1]);
      if r.Broken? then Broken
      else
        match HandleFragmented(r.frags, bufs[|bufs| - 1])
        case Refused => Broken
        case Kept(frags) => Running(frags, r.done)
        case Whole(frags, buf) => Running(frags, r.done + [buf])
  }

  function OfId(id: U32, bufs: seq<Buf>): seq<Buf> {
    if bufs == [] then []
    else
      OfId(id, bufs[..|bufs| - 1]) + if bufs[|bufs| - 1].id == id then [bufs[|bufs| - 1]] else []
  }

  /** What one more buffer does to the list `l` of its own id. */
  ghost predicate Acceptable(l: seq<Buf>, b: Buf)
    requires Handable(b)
  {
    MessageType(b.bytes) in {REQUEST, REPLY, LOCATEREQUEST, LOCATEREPLY, FRAGMENT}
    && if l != [] then PartOk(b) else MoreFragments(b.bytes) && MessageType(b.bytes) != FRAGMENT
  }

  ghost function NextList(l: seq<Buf>, b: Buf): seq<Buf>
    requires Handable(b)
  {
    if !MoreFragments(b.bytes) || (l != [] && !PartOk(b)) then [] else if l == [] then [b] else Extended(l, b)
  }

  ghost function Completed(l: seq<Buf>, b: Buf): seq<Buf>
    requires Handable(b)
  {
    if l == [] || MoreFragments(b.bytes) || !PartOk(b) || !AllOk(Extended(l, b)[1..]) then [] else [Rebuilt(Extended(l, b))]
  }

  ghost predicate HandableAll(bufs: seq<Buf>) {
    forall i :: 0 <= i < |bufs| ==> Handable(bufs[i])
  }

  /** The run so far and one more buffer: only the list of its id counts, and only that list changes. */
  lemma AssembleStep(bufs: seq<Buf>, b: Buf, id: U32)
    requires HandableAll(bufs) && Handable(b)
    ensures HandableAll(bufs + [b])
    ensures
      var r := Assemble(bufs);
      var r' := Assemble(bufs + [b]);
      && (r.Running? ==> NoneEmpty(r.frags) && (r'.Running? <==> Acceptable(Lookup(r.frags, b.id), b)))
      && (r'.Running? ==>
            && r.Running? && NoneEmpty(r'.frags)
            && Lookup(r'.frags, b.id) == NextList(Lookup(r.frags, b.id), b)
            && (id != b.id ==> Lookup(r'.frags, id) == Lookup(r.frags, id))
            && r'.done == r.done + Completed(Lookup(r.frags, b.id), b))
  {
    assert (bufs + [b])[..|bufs|] == bufs;
    if Assemble(bufs).Running? {
      hide HandleFragmented, Lookup, Extended, Rebuilt, MoreFragments;
      OwnListOnly(Assemble(bufs).frags, b, id);
    }
  }

  lemma OfIdAppend(id: U32, bufs: seq<Buf>, more: seq<Buf>)
    requires |more| <= 1
    ensures OfId(id, bufs + more) == OfId(id, bufs) + OfId(id, more)
  {
    if more != [] {
      assert (bufs + more)[..|bufs|] == bufs && more[..0] == [];
    } else {
      assert bufs + more == bufs;
    }
  }

  lemma CompletedId(l: seq<Buf>, b: Buf)
    requires Handable(b) && (l == [] || l[0].id == b.id)
    ensures OfId(b.id, Completed(l, b)) == Completed(l, b)
    ensures forall id :: id != b.id ==> OfId(id, Completed(l, b)) == []
    ensures |Completed(l, b)| <= 1
  {
    var c := Completed(l, b);
    assert c != [] ==> c[0].id == b.id && c[..0] == [];
  }

  lemma LookupId(frags: Frags, id: U32)
    requires NoneEmpty(frags)
    ensures Lookup(frags, id) == [] || Lookup(frags, id)[0].id == id
  {
  }

  lemma {:induction false} OwnHandable(id: U32, bufs: seq<Buf>)
    requires HandableAll(bufs)
    ensures HandableAll(OfId(id, bufs))
  {
    hide Handable;
    if bufs != [] {
      OwnHandable(id, bufs[..|bufs| - 1]);
    }
  }

  /** The run of all buffers and the run of one id's buffers agree about that id. */
  ghost predicate Agree(all: Run, own: Run, id: U32) {
    && all.Running? && own.Running? && NoneEmpty(all.frags) && NoneEmpty(own.frags)
    && Lookup(own.frags, id) == Lookup(all.frags, id) && own.done == OfId(id, all.done)
  }

  lemma AgreeStep(init: seq<Buf>, own: seq<Buf>, b: Buf, id: U32)
    requires HandableAll(init) && HandableAll(own) && Handable(b)
    requires Agree(Assemble(init), Assemble(own), id)
    requires HandableAll(init + [b]) && Assemble(init + [b]).Running?
    ensures b.id == id ==> HandableAll(own + [b]) && Agree(Assemble(init + [b]), Assemble(own + [b]), id)
    ensures b.id != id ==> Agree(Assemble(init + [b]), Assemble(own), id)
  {
    hide Assemble, Lookup, Extended, Rebuilt, Acceptable, NextList, Completed, OfId, Handable;
    var all := Assemble(init);
    var l := Lookup(all.frags, b.id);
    AssembleStep(init, b, id);
    LookupId(all.frags, b.id);
    CompletedId(l, b);
    OfIdAppend(id, all.done, Completed(l, b));
    if b.id == id {
      AssembleStep(own, b, id);
    } else {
      assert OfId(id, all.done) + [] == OfId(id, all.done);
    }
  }

  /** However the fragments of different requests are interleaved, each request's messages are those that
      its own fragments give by themselves. */
  lemma {:induction false} Interleaving(bufs: seq<Buf>, id: U32)
    requires HandableAll(bufs) && Assemble(bufs).Running?
    ensures HandableAll(OfId(id, bufs)) && Agree(Assemble(bufs), Assemble(OfId(id, bufs)), id)
    decreases |bufs|
  {
    hide *;
    OwnHandable(id, bufs);
    if bufs == [] {
      AgreeNil(id);
    } else {
      var init, b := bufs[..|bufs| - 1], bufs[|bufs| - 1];
      assert bufs == init + [b];
      HandableSplit(init, b);
      AssembleStep(init, b, id);
      Interleaving(init, id);
      AgreeStep(init, OfId(id, init), b, id);
      OfIdMore(id, init, b);
    }
  }

  lemma AgreeNil(id: U32)
    ensures HandableAll([]) && OfId(id, []) == [] && Agree(Assemble([]), Assemble([]), id)
  {
  }

  lemma HandableSplit(init: seq<Buf>, b: Buf)
    requires HandableAll(init + [b])
    ensures HandableAll(init) && Handable(b)
  {
    assert (init + [b])[|init|] == b;
    assert forall i :: 0 <= i < |init| ==> (init + [b])[i] == init[i];
  }

  lemma OfIdMore(id: U32, init: seq<Buf>, b: Buf)
    ensures OfId(id, init + [b]) == if b.id == id then OfId(id, init) + [b] else OfId(id, init)
  {
    OfIdAppend(id, init, [b]);
    OfIdOne(id, b);
  }

  lemma OfIdOne(id: U32, b: Buf)
    ensures OfId(id, [b]) == if b.id == id then [b] else []
  {
    assert [b][..0] == [];
  }

  /** A head, its middle fragments and the last one, with nothing of the same id under way before: the
      message is the head's bytes and then the payloads in arrival order. */
  lemma Reassembled(before: seq<Buf>, head: Buf, mids: seq<Buf>, last: Buf) returns (whole: Buf)
    requires HandableAll(before) && Handable(head) && HandableAll(mids) && AllOk(mids) && Handable(last) && PartOk(last) && last.id == head.id
    requires Assemble(before).Running? && NoneEmpty(Assemble(before).frags) && Lookup(Assemble(before).frags, head.id) == []
    requires MoreFragments(head.bytes) && MessageType(head.bytes) in {REQUEST, REPLY, LOCATEREQUEST, LOCATEREPLY}
    requires forall i :: 0 <= i < |mids| ==> MoreFragments(mids[i].bytes) && MessageType(mids[i].bytes) == FRAGMENT && mids[i].id == head.id
    requires !MoreFragments(last.bytes) && MessageType(last.bytes) == FRAGMENT
    ensures HandableAll(before + [head] + mids + [last])
    ensures
      var run := Assemble(before + [head] + mids + [last]);
      && run.Running? && run.done == Assemble(before).done + [whole]
      && NoneEmpty(run.frags) && Lookup(run.frags, head.id) == []
    ensures AllOk(mids + [last]) && whole.bytes == head.bytes + Payloads(mids + [last])
    ensures whole.cur == head.cur && whole.id == head.id
  {
    hide Assemble, Lookup, HandleFragmented, Handable;
    var run := before + [head] + mids;
    UnderWay(before, head, mids);
    AssembleStep(run, last, head.id);
    AssembledOk(run, head.id);
    HandableOk(last);
    var l := Extended(Lookup(Assemble(run).frags, head.id), last);
    ExtendedOk(Lookup(Assemble(run).frags, head.id), last);
    assert l[1..] == mids + [last];
    whole := Rebuilt(l);
  }

  lemma {:induction false} UnderWay(before: seq<Buf>, head: Buf, mids: seq<Buf>)
    requires HandableAll(before) && Handable(head) && HandableAll(mids) && AllOk(mids)
    requires Assemble(before).Running? && NoneEmpty(Assemble(before).frags) && Lookup(Assemble(before).frags, head.id) == []
    requires MoreFragments(head.bytes) && MessageType(head.bytes) in {REQUEST, REPLY, LOCATEREQUEST, LOCATEREPLY}
    requires forall i :: 0 <= i < |mids| ==> MoreFragments(mids[i].bytes) && MessageType(mids[i].bytes) == FRAGMENT && mids[i].id == head.id
    ensures HandableAll(before + [head] + mids)
    ensures
      var run := Assemble(before + [head] + mids);
      && run.Running? && NoneEmpty(run.frags) && run.done == Assemble(before).done
      && var l := Lookup(run.frags, head.id);
         l != [] && l[1..] == mids && l[0].bytes == head.bytes && l[0].cur == head.cur && l[0].id == head.id
    decreases |mids|
  {
    hide Assemble, Lookup, HandleFragmented, Handable;
    if mids == [] {
      assert before + [head] + mids == before + [head];
      AssembleStep(before, head, head.id);
      assert Assemble(before).done + [] == Assemble(before).done;
    } else {
      var init, b := mids[..|mids| - 1], mids[|mids| - 1];
      var run := before + [head] + init;
      assert before + [head] + mids == run + [b];
      UnderWay(before, head, init);
      AssembleStep(run, b, head.id);
      assert init + [b] == mids;
      assert Assemble(before).done + [] == Assemble(before).done;
      HandableOk(b);
      ExtendedTail(Lookup(Assemble(run).frags, head.id), b);
    }
  }

  lemma AssembledOk(bufs: seq<Buf>, id: U32)
    requires HandableAll(bufs) && Assemble(bufs).Running? && NoneEmpty(Assemble(bufs).frags)
    requires Lookup(Assemble(bufs).frags, id) != []
    ensures ListOk(Lookup(Assemble(bufs).frags, id))
  {
  }

  lemma HandableOk(b: Buf)
    requires Handable(b)
    ensures BufOk(b)
  {
  }

  lemma ExtendedTail(l: seq<Buf>, b: Buf)
    requires l != [] && b.cur <= |b.bytes|
    ensures Extended(l, b) != [] && Extended(l, b)[1..] == l[1..] + [b]
    ensures Extended(l, b)[0] == l[0].(size := Extended(l, b)[0].size)
  {
  }

  // ----- dispatching -----

  /** What demarshalling the header of a request or reply gives: the bytes it takes, and the request id. */
  datatype Demarshalled = BadHeader | Header(skip: nat, id: U32)

  datatype Outcome = Delivered(buf: Buf) | Dropped(buf: Buf) | Closing | Rejected

  /** What a connection has received: the fragments under way, what happened so far, and whether the
      connection has been shut down. */
  datatype Inbox = Inbox(frags: Frags, log: seq<Outcome>, closed: bool)

  /** The rest of the ORB: how headers are demarshalled, and which replies the pending table
      refuses after what has happened so far. */
  datatype Orb = Orb(decode: seq<Byte> -> Demarshalled, refuses: (seq<Outcome>, Buf) -> bool)

  function Reject(box: Inbox): Inbox {
    box.(log := box.log + [Rejected], closed := true)
  }

  /** The end of giop_connection_handle_input. */
  function Dispatch(orb: Orb, box: Inbox, buf: Buf): (r: Inbox)
    requires |buf.bytes| >= 12
    ensures r.frags == box.frags
  {
    var t := MessageType(buf.bytes);
    if t in {REPLY, LOCATEREPLY} then box.(log := box.log + [Delivered(buf)], closed := orb.refuses(box.log, buf))
    else if t in {REQUEST, LOCATEREQUEST} then box.(log := box.log + [Delivered(buf)])
    else if t in {CANCELREQUEST, MESSAGEERROR} then box.(log := box.log + [Dropped(buf)])
    else if t == CLOSECONNECTION then box.(log := box.log + [Closing], closed := true)
    else Reject(box)
  }

  datatype Opened = NotOpened | Opened(buf: Buf)

  /** giop_recv_buffer_demarshal. */
  function OpenMessage(orb: Orb, f: seq<Byte>): (r: Opened)
    requires |f| >= 12
    ensures r.Opened? ==> BufOk(r.buf) && r.buf.bytes == f && r.buf.size == |f| - 12
    ensures r.Opened? && MessageType(f) == FRAGMENT ==> r.buf == Buf(f, 12, |f| - 12, 0)
  {
    if MessageType(f) <= LOCATEREPLY then
      match orb.decode(f)
      case BadHeader => NotOpened
      case Header(skip, id) => Opened(Buf(f, 12 + skip, |f| - 12, id))
    else Opened(Buf(f, 12, |f| - 12, 0))
  }

  /** The request id at the start of a fragment; GIOP 1.1 fragments have none. */
  function OpenFragment(buf: Buf): (r: Opened)
    requires BufOk(buf)
    ensures r.Opened? ==> BufOk(r.buf) && r.buf.bytes == buf.bytes && r.buf.size == buf.size
  {
    if MessageType(buf.bytes) != FRAGMENT || buf.bytes[5] == 1 then Opened(buf)
    else
      var at := Align(buf.cur, 4);
      if at + 4 > |buf.bytes| then NotOpened
      else
        Load4(MessageOrder(buf.bytes), buf.bytes[at..at + 4]);
        Opened(buf.(cur := at + 4, id := Load(MessageOrder(buf.bytes), buf.bytes[at..at + 4])))
  }

  lemma Load4(o: Order, s: seq<Byte>)
    requires |s| == 4
    ensures Load(o, s) < 0x1_0000_0000
  {
    Pow256Values();
    FromLowBound(s);
    FromLowBound(Reverse(s));
  }

  /** One complete message. A message without a body is dispatched as it is. */
  ghost function Feed(orb: Orb, box: Inbox, f: seq<Byte>): (r: Inbox)
    requires |f| >= 12 && FragsOk(box.frags)
    ensures FragsOk(r.frags)
  {
    if box.closed then box
    else if BodySize(f) == 0 then Dispatch(orb, box, Buf(f, 12, |f| - 12, 0))
    else
      match OpenMessage(orb, f)
      case NotOpened => Reject(box)
      case Opened(buf) =>
        if MoreFragments(f) || MessageType(f) == FRAGMENT then
          match OpenFragment(buf)
          case NotOpened => Reject(box)
          case Opened(part) =>
            match HandleFragmented(box.frags, part)
            case Refused => Reject(box)
            case Kept(frags) => box.(frags := frags)
            case Whole(frags, whole) => Dispatch(orb, box.(frags := frags), whole)
        else Dispatch(orb, box, buf)
  }

  ghost function FeedAll(orb: Orb, fs: seq<seq<Byte>>): (r: Inbox)
    requires forall i :: 0 <= i < |fs| ==> |fs[i]| >= 12
    ensures FragsOk(r.frags)
  {
    if fs == [] then Inbox([], [], false) else Feed(orb, FeedAll(orb, fs[..|fs| - 1]), fs[|fs| - 1])
  }

  lemma FeedAppend(orb: Orb, fs: seq<seq<Byte>>, f: seq<Byte>)
    requires (forall i :: 0 <= i < |fs| ==> |fs[i]| >= 12) && |f| >= 12
    ensures FragsOk(FeedAll(orb, fs).frags) && FeedAll(orb, fs + [f]) == Feed(orb, FeedAll(orb, fs), f)
  {
    assert (fs + [f])[..|fs|] == fs;
  }

  // ----- what a message calls for, by its bytes -----

  /** The flags at offset 6: bit 0 tells the byte order, bit 1 that fragments follow. */
  lemma FlagBits(f: seq<Byte>)
    requires |f| >= 12 && f[6] < 4
    ensures MoreFragments(f) <==> f[6] == 2 || f[6] == 3
    ensures MessageOrder(f) == LittleEndian <==> f[6] == 1 || f[6] == 3
  {
  }

  /** A message that is complete by itself: without a body, or without fragments. */
  predicate Plain(f: seq<Byte>)
    requires |f| >= 12
  {
    |f| == 12 || (f[7] != 7 && f[6] / 2 % 2 == 0)
  }

  /** Its own header, if it has one behind the 12 bytes, is good. */
  predicate HeaderGood(orb: Orb, f: seq<Byte>)
    requires |f| >= 12
  {
    |f| == 12 || f[7] > 4 || orb.decode(f).Header?
  }

  /** One plain message: types 0, 1, 3 and 4 are delivered with their own bytes, and only a refused reply closes the
      connection; types 2 and 6 are dropped and leave it open; type 5 closes it; a bad header, and any other type,
      is rejected and closes it. */
  lemma PlainStep(orb: Orb, box: Inbox, f: seq<Byte>, limit: nat)
    requires |f| >= 12 && IsFrame(f, limit) && Plain(f) && FragsOk(box.frags) && !box.closed
    ensures
      var r := Feed(orb, box, f);
      && r.frags == box.frags && |r.log| == |box.log| + 1 && r.log[..|box.log|] == box.log
      && var what := r.log[|box.log|];
      && (HeaderGood(orb, f) && f[7] in {0, 1, 3, 4} ==>
            && what.Delivered? && what.buf.bytes == f
            && (r.closed <==> f[7] in {1, 4} && orb.refuses(box.log, what.buf)))
      && (HeaderGood(orb, f) && f[7] in {2, 6} ==> what.Dropped? && what.buf.bytes == f && !r.closed)
      && (f[7] == 5 ==> what == Closing && r.closed)
      && (!HeaderGood(orb, f) || f[7] >= 7 ==> what == Rejected && r.closed)
  {
  }

  /** One other message: a head, or a fragment. It is kept, or completes a message of type 0, 1, 3 or 4, which is
      delivered, or is rejected. */
  lemma FragmentStep(orb: Orb, box: Inbox, f: seq<Byte>, limit: nat)
    requires |f| >= 12 && IsFrame(f, limit) && !Plain(f) && FragsOk(box.frags) && !box.closed
    ensures
      var r := Feed(orb, box, f);
      || (r.log == box.log && !r.closed)
      || (r.log == box.log + [Rejected] && r.closed)
      || (|r.log| == |box.log| + 1 && r.log[..|box.log|] == box.log && r.log[|box.log|].Delivered?
          && r.log[|box.log|].buf.bytes[7] in {0, 1, 3, 4}
          && (r.closed <==> r.log[|box.log|].buf.bytes[7] in {1, 4} && orb.refuses(box.log, r.log[|box.log|].buf)))
  {
  }

  /** The messages handed on, by their bytes. */
  ghost function Handed(log: seq<Outcome>): seq<seq<Byte>> {
    if log == [] then []
    else Handed(log[..|log| - 1]) + if log[|log| - 1].Delivered? then [log[|log| - 1].buf.bytes] else []
  }

  /** The messages that must be handed on: those of type 0, 1, 3 or 4 with a good header that arrive before the
      connection closes. */
  ghost function Wanted(orb: Orb, fs: seq<seq<Byte>>): seq<seq<Byte>>
    requires forall i :: 0 <= i < |fs| ==> |fs[i]| >= 12
  {
    if fs == [] then []
    else
      var init, f := fs[..|fs| - 1], fs[|fs| - 1];
      Wanted(orb, init) + if !FeedAll(orb, init).closed && f[7] in {0, 1, 3, 4} && HeaderGood(orb, f) then [f] else []
  }

  /** For every run of plain messages exactly those are handed on, once each and in order. */
  lemma {:induction false} HandedExactly(orb: Orb, fs: seq<seq<Byte>>, limit: nat)
    requires FramesOk(fs, limit) && forall i :: 0 <= i < |fs| ==> Plain(fs[i])
    ensures Handed(FeedAll(orb, fs).log) == Wanted(orb, fs)
    decreases |fs|
  {
    if fs != [] {
      var init, f := fs[..|fs| - 1], fs[|fs| - 1];
      HandedExactly(orb, init, limit);
      var box := FeedAll(orb, init);
      if !box.closed {
        assert IsFrame(f, limit);
        PlainStep(orb, box, f, limit);
      }
    }
  }

  /** The connection closes at the first plain message that is of type 5, or has a bad header, or is a refused
      reply, or has a type from 7 on. */
  lemma ClosesAt(orb: Orb, fs: seq<seq<Byte>>, f: seq<Byte>, limit: nat)
    requires FramesOk(fs + [f], limit) && |f| >= 12 && Plain(f)
    requires forall i :: 0 <= i < |fs| ==> |fs[i]| >= 12
    ensures FeedAll(orb, fs).closed ==> FeedAll(orb, fs + [f]) == FeedAll(orb, fs)
    ensures !FeedAll(orb, fs).closed ==> (FeedAll(orb, fs + [f]).closed <==>
      || f[7] == 5 || f[7] >= 7 || !HeaderGood(orb, f)
      || (f[7] in {1, 4} && orb.refuses(FeedAll(orb, fs).log, FeedAll(orb, fs + [f]).log[|FeedAll(orb, fs).log|].buf)))
  {
    FeedAppend(orb, fs, f);
    assert (fs + [f])[|fs|] == f && IsFrame(f, limit);
    if !FeedAll(orb, fs).closed {
      PlainStep(orb, FeedAll(orb, fs), f, limit);
    }
  }

  lemma FeedEmpty(orb: Orb, box: Inbox, f: seq<Byte>)
    requires |f| >= 12 && FragsOk(box.frags) && !box.closed
    ensures BodySize(f) == 0 ==> Feed(orb, box, f) == Dispatch(orb, box, Buf(f, 12, |f| - 12, 0))
  {
  }

  lemma {:induction false} SplitFrames(s: seq<Byte>, limit: nat)
    ensures forall i :: 0 <= i < |SplitStream(s, limit).frames| ==> |SplitStream(s, limit).frames[i]| >= 12
  {
    if |s| >= 12 && HeaderOk(s, limit) && |s| >= 12 + BodySize(s) {
      SplitFrames(s[12 + BodySize(s)..], limit);
    }
  }

  /** What a connection makes of a stream: its messages one after the other, and a bad header last. */
  ghost function Receive(orb: Orb, s: seq<Byte>, limit: nat): Inbox {
    SplitFrames(s, limit);
    var split := SplitStream(s, limit);
    var box := FeedAll(orb, split.frames);
    if split.bad && !box.closed then Reject(box) else box
  }

  lemma {:induction false} SplitIsFrames(s: seq<Byte>, limit: nat)
    ensures FramesOk(SplitStream(s, limit).frames, limit)
  {
    hide HeaderOk, BodySize;
    if |s| >= 12 && HeaderOk(s, limit) && |s| >= 12 + BodySize(s) {
      var n := 12 + BodySize(s);
      SplitIsFrames(s[n..], limit);
      assert s[..n][..12] == s[..12];
      HeaderOnly(s[..n], s, limit);
      var fs := SplitStream(s, limit).frames;
      forall i | 0 <= i < |fs| ensures |fs[i]| >= 12 && IsFrame(fs[i], limit) {
        assert i > 0 ==> fs[i] == SplitStream(s[n..], limit).frames[i - 1];
      }
    }
  }

  /** What a stream of plain messages hands on. */
  lemma StreamHanded(orb: Orb, s: seq<Byte>, limit: nat)
    requires forall i :: 0 <= i < |SplitStream(s, limit).frames| ==>
      |SplitStream(s, limit).frames[i]| >= 12 && Plain(SplitStream(s, limit).frames[i])
    ensures Handed(Receive(orb, s, limit).log) == Wanted(orb, SplitStream(s, limit).frames)
  {
    SplitIsFrames(s, limit);
    SplitFrames(s, limit);
    HandedExactly(orb, SplitStream(s, limit).frames, limit);
    var box := FeedAll(orb, SplitStream(s, limit).frames);
    assert (box.log + [Rejected])[..|box.log|] == box.log;
  }

  // ----- fragments, by their bytes -----

  /** A GIOP 1.2 fragment of the request: the id follows the header, and the payload the id. */
  predicate FragmentOf(f: seq<Byte>, id: U32) {
    |f| >= 16 && f[5] == 2 && f[7] == 7 && Load(if f[6] % 2 == 1 then LittleEndian else BigEndian, f[12..16]) == id
  }

  /** A message of type 0, 1, 3 or 4 whose header names the request, and that fragments follow. */
  predicate HeadOf(orb: Orb, f: seq<Byte>, id: U32) {
    |f| > 12 && f[5] == 2 && f[7] in {0, 1, 3, 4} && f[6] / 2 % 2 == 1 && orb.decode(f).Header? && orb.decode(f).id == id
  }

  ghost function Tails(fs: seq<seq<Byte>>): seq<Byte>
    requires forall i :: 0 <= i < |fs| ==> |fs[i]| >= 16
  {
    if fs == [] then [] else Tails(fs[..|fs| - 1]) + fs[|fs| - 1][16..]
  }

  lemma FragmentOpens(orb: Orb, f: seq<Byte>, id: U32)
    requires FragmentOf(f, id)
    ensures OpenMessage(orb, f) == Opened(Buf(f, 12, |f| - 12, 0))
    ensures var part := Buf(f, 16, |f| - 12, id);
      && OpenFragment(Buf(f, 12, |f| - 12, 0)) == Opened(part) && Handable(part) && PartOk(part) && Payload(part) == f[16..]
  {
    AlignAligned(12, 4);
  }

  lemma HeadOpens(orb: Orb, f: seq<Byte>, id: U32)
    requires HeadOf(orb, f, id)
    ensures var buf := Buf(f, 12 + orb.decode(f).skip, |f| - 12, id);
      && OpenMessage(orb, f) == Opened(buf) && OpenFragment(buf) == Opened(buf) && Handable(buf)
  {
  }

  /** The lists under way hold, for the request, the head and the payloads of some fragments. */
  ghost predicate Collecting(box: Inbox, id: U32, head: seq<Byte>, payloads: seq<Byte>)
    requires FragsOk(box.frags)
  {
    ListsNonempty(box.frags);
    var l := Lookup(box.frags, id);
    !box.closed && l != [] && ListOk(l) && l[0].bytes == head && l[0].id == id && Payloads(l[1..]) == payloads
  }

  lemma FeedHead(orb: Orb, box: Inbox, f: seq<Byte>, id: U32, limit: nat)
    requires FragsOk(box.frags) && !box.closed && IsFrame(f, limit) && HeadOf(orb, f, id)
    requires NoneEmpty(box.frags) && Lookup(box.frags, id) == []
    ensures Feed(orb, box, f).log == box.log && Collecting(Feed(orb, box, f), id, f, [])
  {
    HeadOpens(orb, f, id);
    var buf := Buf(f, 12 + orb.decode(f).skip, |f| - 12, id);
    hide HandleFragmented, Lookup, OpenMessage, OpenFragment, FragsOk;
    OwnListOnly(box.frags, buf, id);
    assert [buf][1..] == [];
  }

  lemma FeedMiddle(orb: Orb, box: Inbox, f: seq<Byte>, id: U32, head: seq<Byte>, payloads: seq<Byte>, limit: nat)
    requires FragsOk(box.frags) && IsFrame(f, limit) && FragmentOf(f, id) && f[6] / 2 % 2 == 1
    requires Collecting(box, id, head, payloads)
    ensures Feed(orb, box, f).log == box.log && Collecting(Feed(orb, box, f), id, head, payloads + f[16..])
  {
    FragmentOpens(orb, f, id);
    var part := Buf(f, 16, |f| - 12, id);
    hide HandleFragmented, Lookup, OpenMessage, OpenFragment, FragsOk, Handable;
    OwnListOnly(box.frags, part, id);
    var l := Lookup(box.frags, id);
    ExtendedOk(l, part);
    PayloadsAppend(l[1..], part);
  }

  lemma FeedLast(orb: Orb, box: Inbox, f: seq<Byte>, id: U32, head: seq<Byte>, payloads: seq<Byte>, limit: nat)
    requires FragsOk(box.frags) && IsFrame(f, limit) && FragmentOf(f, id) && f[6] / 2 % 2 == 0
    requires |head| >= 12 && Collecting(box, id, head, payloads)
    ensures
      var r := Feed(orb, box, f);
      && NoneEmpty(r.frags) && Lookup(r.frags, id) == []
      && |r.log| == |box.log| + 1 && r.log[..|box.log|] == box.log
      && r.log[|box.log|].Delivered? && r.log[|box.log|].buf.bytes == head + payloads + f[16..]
  {
    FragmentOpens(orb, f, id);
    var part := Buf(f, 16, |f| - 12, id);
    hide HandleFragmented, Lookup, OpenMessage, OpenFragment, FragsOk, Handable;
    OwnListOnly(box.frags, part, id);
    var l := Lookup(box.frags, id);
    ExtendedOk(l, part);
    PayloadsAppend(l[1..], part);
    assert head + (payloads + f[16..]) == head + payloads + f[16..];
  }

  /** A head, its middle fragments and the last one, received one after the other: one message is handed on, the
      head's bytes and then what follows the ids, in the order of arrival. */
  lemma {:induction false} FragmentsHanded(orb: Orb, before: seq<seq<Byte>>, head: seq<Byte>, mids: seq<seq<Byte>>, last: seq<Byte>,
                                           id: U32, limit: nat)
    requires FramesOk(before + [head] + mids + [last], limit)
    requires (forall i :: 0 <= i < |before| ==> |before[i]| >= 12) && !FeedAll(orb, before).closed
    requires NoneEmpty(FeedAll(orb, before).frags) && Lookup(FeedAll(orb, before).frags, id) == []
    requires HeadOf(orb, head, id) && FragmentOf(last, id) && last[6] / 2 % 2 == 0
    requires forall i :: 0 <= i < |mids| ==> FragmentOf(mids[i], id) && mids[i][6] / 2 % 2 == 1
    ensures |last| >= 16 && forall i :: 0 <= i < |mids| ==> |mids[i]| >= 16
    ensures Handed(FeedAll(orb, before + [head] + mids + [last]).log)
         == Handed(FeedAll(orb, before).log) + [head + Tails(mids) + last[16..]]
  {
    hide HeadOf, FragmentOf, IsFrame, Lookup, Feed, FeedAll;
    var all := before + [head] + mids + [last];
    var n := |before| + 1 + |mids|;
    assert all[n] == last && IsFrame(last, limit);
    assert all[..n] == before + [head] + mids;
    forall i | 0 <= i < n ensures |(before + [head] + mids)[i]| >= 12 && IsFrame((before + [head] + mids)[i], limit) {
      assert all[i] == (before + [head] + mids)[i];
    }
    LongEnough(mids, id);
    LongEnough([last], id);
    assert [last][0] == last;
    FragmentsKept(orb, before, head, mids, id, limit);
    FeedAppend(orb, before + [head] + mids, last);
    assert |head| >= 12 by { assert all[|before|] == head; }
    FeedLast(orb, FeedAll(orb, before + [head] + mids), last, id, head, Tails(mids), limit);
  }

  lemma LongEnough(fs: seq<seq<Byte>>, id: U32)
    requires forall i :: 0 <= i < |fs| ==> FragmentOf(fs[i], id)
    ensures forall i :: 0 <= i < |fs| ==> |fs[i]| >= 16
  {
  }

  lemma {:induction false} FragmentsKept(orb: Orb, before: seq<seq<Byte>>, head: seq<Byte>, mids: seq<seq<Byte>>, id: U32, limit: nat)
    requires FramesOk(before + [head] + mids, limit)
    requires (forall i :: 0 <= i < |before| ==> |before[i]| >= 12) && !FeedAll(orb, before).closed
    requires NoneEmpty(FeedAll(orb, before).frags) && Lookup(FeedAll(orb, before).frags, id) == []
    requires HeadOf(orb, head, id)
    requires forall i :: 0 <= i < |mids| ==> FragmentOf(mids[i], id) && mids[i][6] / 2 % 2 == 1
    ensures forall i :: 0 <= i < |mids| ==> |mids[i]| >= 16
    ensures FragsOk(FeedAll(orb, before + [head] + mids).frags)
    ensures FeedAll(orb, before + [head] + mids).log == FeedAll(orb, before).log
    ensures Collecting(FeedAll(orb, before + [head] + mids), id, head, Tails(mids))
    decreases |mids|
  {
    hide HeadOf, Lookup, Feed, FeedAll, IsFrame, Collecting;
    var all := before + [head] + mids;
    if mids == [] {
      assert all == before + [head] && all[|before|] == head && IsFrame(head, limit);
      FeedAppend(orb, before, head);
      FeedHead(orb, FeedAll(orb, before), head, id, limit);
    } else {
      var n := |mids| - 1;
      var init, f := mids[..n], mids[n];
      assert all[|before| + 1 + n] == f && IsFrame(f, limit);
      assert all == before + [head] + init + [f];
      forall i | 0 <= i < |before| + 1 + n
        ensures |(before + [head] + init)[i]| >= 12 && IsFrame((before + [head] + init)[i], limit)
      {
        assert all[i] == (before + [head] + init)[i];
      }
      FragmentsKept(orb, before, head, init, id, limit);
      FeedAppend(orb, before + [head] + init, f);
      FeedMiddle(orb, FeedAll(orb, before + [head] + init), f, id, head, Tails(init), limit);
    }
  }

  // ----- the connection -----

  /** The first bytes, at most `n`, and the others. */
  method Cut(s: seq<Byte>, n: nat) returns (some: seq<Byte>, rest: seq<Byte>)
    ensures s == some + rest && |some| <= n
  {
    var k := Min(n, |s|);
    some, rest := s[..k], s[k..];
  }

  datatype ReadState = Idle | ReadingHeader | ReadingBody

  class Channel {
    const orb: Orb
    const limit: nat
    var state: ReadState
    var header: seq<Byte>          // what has been read of the current message
    var body: seq<Byte>
    var leftToRead: nat
    var incomingFrags: Frags
    var log: seq<Outcome>
    var closed: bool
    var hungUp: bool
    var unread: seq<Byte>          // what the peer has sent or will send

    ghost var consumed: seq<Byte>
    ghost var done: seq<seq<Byte>> // the complete messages so far
    ghost var bad: bool            // the last header was refused
    ghost var results: seq<int>    // what each read returned
    ghost var asked: nat           // how much the last read asked for

    ghost function Box(): Inbox
      reads this`incomingFrags, this`log, this`closed
    {
      Inbox(incomingFrags, log, closed)
    }

    /** What happened is what the complete messages, and perhaps a refused header, determine. */
    ghost predicate HistoryOk()
      reads this`done, this`bad, this`incomingFrags, this`log, this`closed
    {
      && FramesOk(done, limit)
      && var box := FeedAll(orb, done);
         if bad then !box.closed && Box() == Reject(box) else Box() == box
    }

    ghost predicate ReadingOk()
      reads this`state, this`header, this`body, this`leftToRead, this`closed, this`bad
    {
      if bad then |header| == 12 && body == [] && closed && !HeaderOk(header, limit)
      else
        match state
        case Idle => header == [] && body == []
        case ReadingHeader => !closed && |header| + leftToRead == 12 && leftToRead > 0 && body == []
        case ReadingBody =>
          && !closed && |header| == 12 && HeaderOk(header, limit) && leftToRead > 0
          && |body| + leftToRead == BodySize(header)
    }

    ghost predicate Valid()
      reads this
    {
      HistoryOk() && ReadingOk() && consumed == Flatten(done) + (header + body)
    }

    constructor (orb: Orb, limit: nat, unread: seq<Byte>)
      ensures Valid() && !closed && !hungUp && consumed == [] && this.unread == unread && this.orb == orb && this.limit == limit
      ensures done == [] && results == []
    {
      this.orb, this.limit, this.unread := orb, limit, unread;
      state, header, body, leftToRead, incomingFrags := Idle, [], [], 0, [];
      log, closed, hungUp, consumed, done, bad, results, asked := [], false, false, [], [], false, [], 0;
    }

    /** link_connection_read: some of the bytes that may be read, none yet, or an error. */
    method Read(len: nat) returns (n: int, data: seq<Byte>)
      modifies this`unread, this`consumed, this`results, this`asked
      ensures results == old(results) + [n] && asked == len
      ensures n <= len && (n > 0 ==> |data| == n && old(unread) == data + unread && consumed == old(consumed) + data)
      ensures n <= 0 ==> unread == old(unread) && consumed == old(consumed)
    {
      hide *;
      n := *;
      data := [];
      if n > 0 {
        var some, rest := Cut(unread, if n <= len then n else len);
        n, data, unread := |some|, some, rest;
        consumed := consumed + some;
      }
      results, asked := results + [n], len;
    }

    /** The history in one piece, whatever cuts the reads made. */
    lemma ReceivedSoFar()
      requires Valid()
      ensures Box() == Receive(orb, consumed, limit)
    {
      if !bad && state == ReadingBody {
        HeaderOnly(header + body, header, limit);
      } else if bad {
        assert header + body == header;
      }
      SplitUnique(done, header + body, limit);
    }

    /** giop_recv_buffer_handle_fragmented. */
    method CollectFragment(buf: Buf) returns (error: bool, ret: Buf)
      requires FragsOk(incomingFrags) && BufOk(buf) && buf.size == |buf.bytes| - 12
      modifies this`incomingFrags
      ensures match OpenFragment(buf)
        case NotOpened => error && incomingFrags == old(incomingFrags)
        case Opened(part) =>
          match HandleFragmented(old(incomingFrags), part)
          case Refused => error && incomingFrags == old(incomingFrags)
          case Kept(frags) => !error && incomingFrags == frags
          case Whole(frags, whole) => !error && incomingFrags == frags && ret == whole
    {
      hide ListOk, Rebuilt;
      ret := buf;
      var opened0 := OpenFragment(buf);
      if opened0.NotOpened? || MessageType(buf.bytes) !in {REQUEST, REPLY, LOCATEREQUEST, LOCATEREPLY, FRAGMENT} {
        return true, ret;
      }
      var part := opened0.buf;
      ListsNonempty(incomingFrags);
      var k := GetFrag(incomingFrags, part.id, part.bytes[5] == 1);
      if k == |incomingFrags| {
        if !MoreFragments(part.bytes) || MessageType(part.bytes) == FRAGMENT {
          return true, ret;
        }
        incomingFrags := [[part]] + incomingFrags;
      } else if !PartOk(part) {
        return true, ret;
      } else {
        var l := Extended(incomingFrags[k], part);
        ExtendedOk(incomingFrags[k], part);
        if MoreFragments(part.bytes) {
          incomingFrags := incomingFrags[k := l];
        } else {
          ret := ConcatFrags(l);
          incomingFrags := incomingFrags[..k] + incomingFrags[k + 1..];
        }
      }
      error := false;
    }

    method MsgError()
      modifies this`log, this`closed
      ensures Box() == Reject(old(Box()))
    {
      log, closed := log + [Rejected], true;
    }

    /** The message is handed on by its type. */
    method HandOn(buf: Buf)
      requires |buf.bytes| >= 12
      modifies this`log, this`closed
      ensures Box() == Dispatch(orb, old(Box()), buf)
    {
      var t := MessageType(buf.bytes);
      if t == REPLY || t == LOCATEREPLY {
        log, closed := log + [Delivered(buf)], orb.refuses(log, buf);
      } else if t == REQUEST || t == LOCATEREQUEST {
        log := log + [Delivered(buf)];
      } else if t == CANCELREQUEST || t == MESSAGEERROR {
        log := log + [Dropped(buf)];
      } else if t == CLOSECONNECTION {
        log, closed := log + [Closing], true;
      } else {
        MsgError();
      }
    }

    /** What giop_connection_handle_input does once a body is complete. */
    method HandleBody(f: seq<Byte>)
      requires |f| >= 12 && BodySize(f) > 0 && FragsOk(incomingFrags) && !closed
      modifies this`incomingFrags, this`log, this`closed
      ensures Box() == Feed(orb, old(Box()), f)
    {
      hide HandleFragmented, FragsOk, Dispatch, OpenMessage, OpenFragment;
      var opened0 := OpenMessage(orb, f);
      if opened0.NotOpened? {
        MsgError();
        return;
      }
      var buf := opened0.buf;
      var error;
      if MoreFragments(f) {
        error, buf := CollectFragment(buf);
        if error {
          MsgError();
        }
        MoreIsKept(old(incomingFrags), opened0.buf);
        return;
      } else if MessageType(f) == FRAGMENT {
        LastIsWhole(old(incomingFrags), opened0.buf);
        error, buf := CollectFragment(buf);
        if error {
          MsgError();
          return;
        }
      }
      HandOn(buf);
    }

    /** giop_connection_handle_input: reads until one message is complete or no more can be read. */
    method HandleInput()
      requires Valid() && !closed && !hungUp
      modifies this
      ensures Valid() && consumed + unread == old(consumed + unread)
      ensures |results| > |old(results)| && old(results) <= results && forall i :: |old(results)| <= i < |results| - 1 ==> results[i] > 0
      ensures EndedWith(results[|results| - 1], old(done))
    {
      hide *;
      var again := true;
      while again
        invariant Valid() && consumed + unread == old(consumed + unread)
        invariant again ==> !closed && !hungUp && done == old(done)
        invariant old(results) <= results && (!again ==> |results| > |old(results)| && EndedWith(results[|results| - 1], old(done)))
        invariant forall i :: |old(results)| <= i < |results| && (again || i < |results| - 1) ==> results[i] > 0
        decreases |unread|, again
      {
        again := ReadOnce();
      }
    }

    /** The call ends when a read fails, when there is nothing to read for now, or when what was read completes a
        message or closes the connection. */
    ghost predicate EndedWith(n: int, done0: seq<seq<Byte>>)
      reads this`done, this`closed, this`hungUp
    {
      && (n < 0 ==> hungUp && done == done0) && (n == 0 ==> !hungUp && !closed && done == done0)
      && (n > 0 ==> !hungUp && (closed || |done| == |done0| + 1))
    }

    /** One read, and what follows when it completes a header or a body. */
    method ReadOnce() returns (again: bool)
      requires Valid() && !closed && !hungUp
      modifies this
      ensures Valid() && consumed + unread == old(consumed + unread)
      ensures again ==> !closed && !hungUp && |unread| < |old(unread)|
      ensures |unread| <= |old(unread)|
      ensures |results| == |old(results)| + 1 && old(results) <= results && asked > 0
      ensures (results[|results| - 1] > 0 ==> |consumed| == |old(consumed)| + results[|results| - 1])
      ensures if again then done == old(done) && results[|results| - 1] > 0 else EndedWith(results[|results| - 1], old(done))
    {
      hide HistoryOk, HeaderOk, Flatten, BodySize;
      if state == Idle {
        state, leftToRead := ReadingHeader, 12;
      }
      var n, data := Read(leftToRead);
      if n == 0 {
        return false;
      }
      if n < 0 {
        hungUp := true;
        return false;
      }
      assert consumed + unread == old(consumed) + (data + unread);
      leftToRead := leftToRead - n;
      if state == ReadingHeader {
        header := header + data;
      } else {
        body := body + data;
      }
      assert consumed == Flatten(done) + (header + body);
      again := leftToRead > 0;
      if leftToRead == 0 {
        if state == ReadingHeader {
          if !HeaderOk(header, limit) {
            BadHeaderRead();
            return;
          }
          state, leftToRead := ReadingBody, BodySize(header);
          again := leftToRead > 0;
        }
        if leftToRead == 0 {
          Complete();
        }
      }
    }

    method BadHeaderRead()
      requires HistoryOk() && !bad && !closed
      modifies this`bad, this`log, this`closed
      ensures HistoryOk() && bad && closed
    {
      hide FeedAll;
      bad := true;
      MsgError();
    }

    /** The current message is complete. */
    method Complete()
      requires !closed && !bad && |header| == 12 && HeaderOk(header, limit) && |body| == BodySize(header)
      requires HistoryOk() && consumed == Flatten(done) + (header + body)
      modifies this`state, this`header, this`body, this`incomingFrags, this`log, this`closed, this`done
      ensures Valid() && state == Idle && |done| == |old(done)| + 1
    {
      hide HeaderOk, FragsOk, Flatten, Feed, FeedAll, Dispatch, BodySize;
      var f := header + body;
      HeaderOnly(f, header, limit);
      FlattenSnoc(done, f);
      FeedAppend(orb, done, f);
      FeedEmpty(orb, Box(), f);
      if |body| == 0 {
        HandOn(Buf(f, 12, 0, 0));
      } else {
        HandleBody(f);
      }
      done := done + [f];
      header, body, state := [], [], Idle;
      assert consumed == Flatten(done) + ([] + []);
    }

    /** Any number of calls, with reads cut anywhere: what happened is what the stream determines. */
    method Run(calls: nat)
      requires Valid() && !closed && !hungUp && consumed == []
      modifies this
      ensures Valid() && consumed + unread == old(unread)
      ensures Box() == Receive(orb, consumed, limit)
      ensures closed ==> Box() == Receive(orb, old(unread), limit)
      ensures old(results) <= results
      ensures (forall i :: |old(results)| <= i < |results| ==> results[i] > 0) ==> closed || |done| == |old(done)| + calls
    {
      var i := 0;
      while i < calls && !closed && !hungUp
        invariant i <= calls && Valid() && consumed + unread == old(unread) && old(results) <= results
        invariant (forall i :: |old(results)| <= i < |results| ==> results[i] > 0) ==> closed || (!hungUp && |done| == |old(done)| + i)
      {
        ghost var before := results;
        HandleInput();
        assert forall i :: 0 <= i < |before| ==> before[i] == results[i];
        i := i + 1;
      }
      ReceivedSoFar();
      if closed {
        ClosedForGood(orb, consumed, unread, limit);
      }
    }
  }

  /** Once the connection is shut down, the rest of the stream does not matter. */
  lemma ClosedForGood(orb: Orb, s: seq<Byte>, more: seq<Byte>, limit: nat)
    requires Receive(orb, s, limit).closed
    ensures Receive(orb, s + more, limit) == Receive(orb, s, limit)
  {
    SplitFrames(s, limit);
    SplitFrames(s + more, limit);
    var extra := SplitMore(s, more, limit);
    FeedClosed(orb, SplitStream(s, limit).frames, extra);
    assert SplitStream(s, limit).frames + [] == SplitStream(s, limit).frames;
  }

  lemma {:induction false} SplitMore(s: seq<Byte>, more: seq<Byte>, limit: nat) returns (extra: seq<seq<Byte>>)
    ensures SplitStream(s + more, limit).frames == SplitStream(s, limit).frames + extra
    ensures SplitStream(s, limit).bad ==> extra == [] && SplitStream(s + more, limit).bad
    ensures forall i :: 0 <= i < |extra| ==> |extra[i]| >= 12
    decreases |s|
  {
    hide HeaderOk, BodySize;
    SplitFrames(s + more, limit);
    extra := SplitStream(s + more, limit).frames;
    if |s| >= 12 {
      assert (s + more)[..12] == s[..12];
      HeaderOnly(s, s + more, limit);
      if HeaderOk(s, limit) && |s| >= 12 + BodySize(s) {
        var n := 12 + BodySize(s);
        assert (s + more)[..n] == s[..n] && (s + more)[n..] == s[n..] + more;
        extra := SplitMore(s[n..], more, limit);
        assert [s[..n]] + (SplitStream(s[n..], limit).frames + extra) == ([s[..n]] + SplitStream(s[n..], limit).frames) + extra;
      }
    }
  }

  lemma {:induction false} FeedClosed(orb: Orb, fs: seq<seq<Byte>>, extra: seq<seq<Byte>>)
    requires forall i :: 0 <= i < |fs| ==> |fs[i]| >= 12
    requires forall i :: 0 <= i < |extra| ==> |extra[i]| >= 12
    requires FeedAll(orb, fs).closed || extra == []
    ensures FeedAll(orb, fs + extra) == FeedAll(orb, fs)
    decreases |extra|
  {
    if extra == [] {
      assert fs + extra == fs;
    } else {
      var init := extra[..|extra| - 1];
      assert (fs + extra)[..|fs + extra| - 1] == fs + init;
      FeedClosed(orb, fs, init);
    }
  }

  lemma MoreIsKept(frags: Frags, buf: Buf)
    requires FragsOk(frags) && BufOk(buf) && buf.size == |buf.bytes| - 12 && MoreFragments(buf.bytes)
    ensures OpenFragment(buf).Opened? ==> !HandleFragmented(frags, OpenFragment(buf).buf).Whole?
  {
  }

  lemma LastIsWhole(frags: Frags, buf: Buf)
    requires FragsOk(frags) && BufOk(buf) && buf.size == |buf.bytes| - 12 && !MoreFragments(buf.bytes)
    ensures OpenFragment(buf).Opened? ==>
      var r := HandleFragmented(frags, OpenFragment(buf).buf);
      !r.Kept? && (r.Whole? ==> |r.buf.bytes| >= 12)
  {
  }
}

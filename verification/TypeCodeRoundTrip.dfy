/** Decoding what the TypeCode encoder wrote gives the TypeCode back, with the sharing of its parts. */
module TypeCodeRoundTrip {
  import opened Cdr
  import opened TypeCodes

  // ----- a TypeCode as a graph of shared objects -----

  /** `h` is the memory: each part of `t` is the object its identity names. Two parts with one
      identity are therefore equal, and no object can be a part of itself. */
  ghost predicate InHeap(h: map<nat, TypeCode>, t: TypeCode) {
    t.Empty? ||
    (t.id in h && h[t.id] == t &&
     match t
     case Record(_, _, _, _, members) => MembersInHeap(h, members)
     case Union(_, _, _, disc, _, members) => InHeap(h, disc) && MembersInHeap(h, members)
     case Indexed(_, _, content, _) => InHeap(h, content)
     case Alias(_, _, _, content) => InHeap(h, content)
     case _ => true)
  }

  ghost predicate MembersInHeap(h: map<nat, TypeCode>, ms: seq<Member>) {
    ms == [] || (InHeap(h, ms[0].tc) && MembersInHeap(h, ms[1..]))
  }

  /** All objects of `t` have an image under `phi`. */
  ghost predicate Covered(phi: map<nat, nat>, t: TypeCode) {
    t.Empty? ||
    (t.id in phi &&
     match t
     case Record(_, _, _, _, members) => MembersCovered(phi, members)
     case Union(_, _, _, disc, _, members) => Covered(phi, disc) && MembersCovered(phi, members)
     case Indexed(_, _, content, _) => Covered(phi, content)
     case Alias(_, _, _, content) => Covered(phi, content)
     case _ => true)
  }

  ghost predicate MembersCovered(phi: map<nat, nat>, ms: seq<Member>) {
    ms == [] || (Covered(phi, ms[0].tc) && MembersCovered(phi, ms[1..]))
  }

  ghost function Image(phi: map<nat, nat>, id: nat): nat {
    if id in phi then phi[id] else 0
  }

  /** `t` with every object replaced by its image: the same parameters, names, labels and structure. */
  ghost function Rename(phi: map<nat, nat>, t: TypeCode): TypeCode {
    match t
    case Empty(kind) => t
    case Str(id, wide, length) => Str(Image(phi, id), wide, length)
    case Fixed(id, digits, scale) => Fixed(Image(phi, id), digits, scale)
    case ObjRef(id, repoId, name) => ObjRef(Image(phi, id), repoId, name)
    case Record(id, except, repoId, name, members) =>
      Record(Image(phi, id), except, repoId, name, RenameMembers(phi, members))
    case Union(id, repoId, name, disc, defaultIndex, members) =>
      Union(Image(phi, id), repoId, name, Rename(phi, disc), defaultIndex, RenameMembers(phi, members))
    case Enum(id, repoId, name, names) => Enum(Image(phi, id), repoId, name, names)
    case Indexed(id, fixedSize, content, length) => Indexed(Image(phi, id), fixedSize, Rename(phi, content), length)
    case Alias(id, repoId, name, content) => Alias(Image(phi, id), repoId, name, Rename(phi, content))
  }

  ghost function RenameMembers(phi: map<nat, nat>, ms: seq<Member>): (r: seq<Member>)
    ensures |r| == |ms|
  {
    if ms == [] then []
    else [Member(ms[0].tag, ms[0].name, Rename(phi, ms[0].tc))] + RenameMembers(phi, ms[1..])
  }

  ghost function Size(t: TypeCode): nat {
    match t
    case Record(_, _, _, _, members) => 1 + MembersSize(members)
    case Union(_, _, _, disc, _, members) => 1 + Size(disc) + MembersSize(members)
    case Indexed(_, _, content, _) => 1 + Size(content)
    case Alias(_, _, _, content) => 1 + Size(content)
    case _ => 0
  }

  ghost function MembersSize(ms: seq<Member>): nat {
    if ms == [] then 0 else 1 + Size(ms[0].tc) + MembersSize(ms[1..])
  }

  ghost predicate Extends(phi: map<nat, nat>, phi': map<nat, nat>) {
    forall id :: id in phi ==> id in phi' && phi'[id] == phi[id]
  }

  lemma {:induction false} RenameExtends(phi: map<nat, nat>, phi': map<nat, nat>, t: TypeCode)
    requires Extends(phi, phi') && Covered(phi, t)
    ensures Covered(phi', t) && Rename(phi', t) == Rename(phi, t)
    decreases t
  {
    match t {
      case Record(_, _, _, _, members) => RenameMembersExtends(phi, phi', members);
      case Union(_, _, _, disc, _, members) =>
        RenameExtends(phi, phi', disc);
        RenameMembersExtends(phi, phi', members);
      case Indexed(_, _, content, _) => RenameExtends(phi, phi', content);
      case Alias(_, _, _, content) => RenameExtends(phi, phi', content);
      case _ =>
    }
  }

  lemma {:induction false} RenameMembersExtends(phi: map<nat, nat>, phi': map<nat, nat>, ms: seq<Member>)
    requires Extends(phi, phi') && MembersCovered(phi, ms)
    ensures MembersCovered(phi', ms) && RenameMembers(phi', ms) == RenameMembers(phi, ms)
    decreases ms
  {
    if ms != [] {
      RenameExtends(phi, phi', ms[0].tc);
      RenameMembersExtends(phi, phi', ms[1..]);
    }
  }

  // ----- references that leave an encapsulation -----

  /** The objects in the register once `t` has been encoded, when `seen` are in it before. */
  function Seen(t: TypeCode, seen: set<nat>): (r: set<nat>)
    ensures seen <= r
    decreases t, 1
  {
    if t.Empty? || t.id in seen then seen else SeenParts(t, seen + {t.id})
  }

  /** The same after the parameters of `t`. */
  function SeenParts(t: TypeCode, seen: set<nat>): (r: set<nat>)
    ensures seen <= r
    decreases t, 0
  {
    match t
    case Record(_, _, _, _, members) => SeenMembers(members, seen)
    case Union(_, _, _, disc, _, members) => SeenMembers(members, Seen(disc, seen))
    case Indexed(_, _, content, _) => Seen(content, seen)
    case Alias(_, _, _, content) => Seen(content, seen)
    case _ => seen
  }

  function SeenMembers(ms: seq<Member>, seen: set<nat>): (r: set<nat>)
    ensures seen <= r
    decreases ms, 0
  {
    if ms == [] then seen else SeenMembers(ms[1..], Seen(ms[0].tc, seen))
  }

  /** Every object that occurs again was met first in the same encapsulation: `here` are those of `seen`
      that the current encapsulation has met first. */
  predicate LocalRefs(t: TypeCode, seen: set<nat>, here: set<nat>)
    decreases t, 1
  {
    t.Empty? || (if t.id in seen then t.id in here else LocalParts(t, seen + {t.id}, {}))
  }

  /** The same of the parameters of `t`, which are in an encapsulation of their own. */
  predicate LocalParts(t: TypeCode, seen: set<nat>, here: set<nat>)
    decreases t, 0
  {
    match t
    case Record(_, _, _, _, members) => LocalMembers(members, seen, here)
    case Union(_, _, _, disc, _, members) =>
      LocalRefs(disc, seen, here) && LocalMembers(members, Seen(disc, seen), here + (Seen(disc, seen) - seen))
    case Indexed(_, _, content, _) => LocalRefs(content, seen, here)
    case Alias(_, _, _, content) => LocalRefs(content, seen, here)
    case _ => true
  }

  predicate LocalMembers(ms: seq<Member>, seen: set<nat>, here: set<nat>)
    decreases ms, 0
  {
    ms == [] ||
    (LocalRefs(ms[0].tc, seen, here) &&
     LocalMembers(ms[1..], Seen(ms[0].tc, seen), here + (Seen(ms[0].tc, seen) - seen)))
  }

  /** A TypeCode that a machine with 64-bit pointers can decode. */
  predicate Local(t: TypeCode) {
    LocalRefs(t, {}, {})
  }

  /** The objects that started in the buffer at `body`. */
  ghost function Here(prior: map<nat, nat>, body: nat): set<nat> {
    set id | id in prior && prior[id] >= body
  }

  ghost predicate Fine(w: Window, t: TypeCode, prior: map<nat, nat>) {
    w.wide ==> LocalRefs(t, prior.Keys, Here(prior, w.body))
  }

  ghost predicate FineParts(w: Window, t: TypeCode, prior: map<nat, nat>) {
    w.wide ==> LocalParts(t, prior.Keys, Here(prior, w.body))
  }

  ghost predicate FineMembers(w: Window, ms: seq<Member>, prior: map<nat, nat>) {
    w.wide ==> LocalMembers(ms, prior.Keys, Here(prior, w.body))
  }

  /** A message that a machine with 64-bit pointers has read up to here; with offsets that fit 31 bits. */
  ghost predicate InRange(w: Window, e: Enc) {
    w.wide ==> w.body <= |e.out| && w.end <= 0x8000_0000
  }

  /** What the encoder adds to its register: the objects that `Seen` names, at positions from now on. */
  ghost predicate Adds(e: Enc, e': Enc, seen: set<nat>) {
    && e'.prior.Keys == seen
    && (forall id :: id in e.prior ==> id in e'.prior && e'.prior[id] == e.prior[id])
    && forall id :: id in e'.prior && id !in e.prior ==> e'.prior[id] >= |e.out|
  }

  lemma {:induction false} EncSeen(t: TypeCode, e: Enc, o: Order)
    ensures Adds(e, EncTC(t, e, o), Seen(t, e.prior.Keys))
    decreases t, 2
  {
    hide PutInt, EncParams;
    if !t.Empty? && t.id !in e.prior {
      EncTCNew(t, e, o);
      var e0 := AlignTo(e, 4);
      var e1 := PutInt(e0.(prior := e.prior[t.id := |e0.out|]), o, 4, KindOf(t));
      EncPartsSeen(t, e1, o);
      assert e1.prior.Keys == e.prior.Keys + {t.id};
    }
  }

  lemma {:induction false} EncPartsSeen(t: TypeCode, e: Enc, o: Order)
    requires !t.Empty?
    ensures Adds(e, EncParams(t, e, o), SeenParts(t, e.prior.Keys))
    decreases t, 1
  {
    hide *;
    ParamsPrior(t, e, o);
    if !t.Str? && !t.Fixed? {
      var e2 := OpenEncaps(e, o);
      if t.Indexed? {
        EncSeen(t.content, e2, o);
        SeenPartsIs(t, e.prior.Keys);
        AddsMore(e, e2, EncTC(t.content, e2, o), EncParams(t, e, o), Seen(t.content, e.prior.Keys));
      } else {
        var e3 := PutString(PutString(e2, o, t.repoId), o, t.name);
        EncRestSeen(t, e3, o);
        AddsMore(e, e3, EncRest(t, e3, o), EncParams(t, e, o), SeenParts(t, e.prior.Keys));
      }
    } else {
      SeenPartsIs(t, e.prior.Keys);
      AddsNothing(e, EncParams(t, e, o));
    }
  }

  lemma SeenPartsIs(t: TypeCode, seen: set<nat>)
    ensures t.Indexed? || t.Alias? ==> SeenParts(t, seen) == Seen(t.content, seen)
    ensures t.Record? ==> SeenParts(t, seen) == SeenMembers(t.members, seen)
    ensures t.Union? ==> SeenParts(t, seen) == SeenMembers(t.members, Seen(t.discriminator, seen))
    ensures t.ObjRef? || t.Enum? || t.Str? || t.Fixed? ==> SeenParts(t, seen) == seen
  {
    hide Seen, SeenMembers;
  }

  /** Output without TypeCodes before and after. */
  lemma AddsMore(e: Enc, e1: Enc, e2: Enc, e3: Enc, seen: set<nat>)
    requires Adds(e1, e2, seen) && e1.prior == e.prior && e3.prior == e2.prior && |e.out| <= |e1.out|
    ensures Adds(e, e3, seen)
  {
  }

  lemma ParamsPrior(t: TypeCode, e: Enc, o: Order)
    requires !t.Empty?
    ensures t.Str? || t.Fixed? ==> EncParams(t, e, o).prior == e.prior
    ensures t.Indexed? ==> EncParams(t, e, o).prior == EncTC(t.content, OpenEncaps(e, o), o).prior
    ensures !t.Str? && !t.Fixed? && !t.Indexed? ==>
      EncParams(t, e, o).prior == EncRest(t, PutString(PutString(OpenEncaps(e, o), o, t.repoId), o, t.name), o).prior
  {
    hide PutInt, PutString, EncTC, EncRest, OpenEncaps, Patch, Store, Align, KindOf;
  }

  lemma {:induction false} EncRestSeen(t: TypeCode, e: Enc, o: Order)
    requires !t.Empty? && !t.Str? && !t.Fixed? && !t.Indexed?
    ensures Adds(e, EncRest(t, e, o), SeenParts(t, e.prior.Keys))
    decreases t, 0
  {
    hide *;
    SeenPartsIs(t, e.prior.Keys);
    RestIs(t, e, o);
    match t {
      case Record(_, _, _, _, ms) =>
        var e1 := PutInt(e, o, 4, |ms|);
        EncMembersSeen(ms, e1, o, 0);
        AddsMore(e, e1, EncRest(t, e, o), EncRest(t, e, o), SeenMembers(ms, e.prior.Keys));
      case Union(_, _, _, disc, defaultIndex, ms) =>
        var e1 := EncTC(disc, e, o);
        var e2 := PutInt(PutInt(e1, o, 4, defaultIndex), o, 4, |ms|);
        EncSeen(disc, e, o);
        EncMembersSeen(ms, e2, o, KindOf(disc));
        AddsKeys(e, e1, Seen(disc, e.prior.Keys));
        AddsTwice(e, e1, e2, EncRest(t, e, o), Seen(disc, e.prior.Keys), SeenMembers(ms, e1.prior.Keys));
      case Alias(_, _, _, content) => EncSeen(content, e, o);
      case ObjRef(_, _, _) => AddsNothing(e, EncRest(t, e, o));
      case Enum(_, _, _, _) => AddsNothing(e, EncRest(t, e, o));
      case _ =>
    }
  }

  lemma RestIs(t: TypeCode, e: Enc, o: Order)
    requires !t.Empty? && !t.Str? && !t.Fixed? && !t.Indexed?
    ensures t.Record? ==> EncRest(t, e, o) == EncMembers(t.members, PutInt(e, o, 4, |t.members|), o, 0)
    ensures t.Union? ==> EncRest(t, e, o) == EncMembers(t.members,
      PutInt(PutInt(EncTC(t.discriminator, e, o), o, 4, t.defaultIndex), o, 4, |t.members|), o, KindOf(t.discriminator))
    ensures t.Alias? ==> EncRest(t, e, o) == EncTC(t.content, e, o)
    ensures t.ObjRef? || t.Enum? ==> EncRest(t, e, o).prior == e.prior
  {
    hide PutInt, PutNames, EncTC, EncMembers, KindOf;
  }

  lemma AddsKeys(e: Enc, e1: Enc, seen: set<nat>)
    requires Adds(e, e1, seen)
    ensures e1.prior.Keys == seen
  {
  }

  lemma AddsNothing(e: Enc, e1: Enc)
    requires e1.prior == e.prior
    ensures Adds(e, e1, e.prior.Keys)
  {
  }

  lemma AddsTwice(e: Enc, e1: Enc, e2: Enc, e3: Enc, seen: set<nat>, seen': set<nat>)
    requires Adds(e, e1, seen) && e2.prior == e1.prior && Adds(e2, e3, seen') && |e.out| <= |e2.out|
    ensures Adds(e, e3, seen')
  {
  }

  lemma {:induction false} EncMembersSeen(ms: seq<Member>, e: Enc, o: Order, labelKind: U32)
    ensures Adds(e, EncMembers(ms, e, o, labelKind), SeenMembers(ms, e.prior.Keys))
    decreases ms, 0
  {
    hide PutString, EncTC, EncLabel, Seen;
    if ms != [] {
      var e2 := PutString(EncLabel(e, o, labelKind, ms[0].tag), o, ms[0].name);
      EncSeen(ms[0].tc, e2, o);
      EncMembersSeen(ms[1..], EncTC(ms[0].tc, e2, o), o, labelKind);
    }
  }

  /** What has started in the buffer after one more TypeCode. */
  lemma HereAfter(w: Window, e: Enc, t: TypeCode)
    requires w.body <= |e.out|
    ensures var e' := EncTC(t, e, w.order);
      && e'.prior.Keys == Seen(t, e.prior.Keys)
      && Here(e'.prior, w.body) == Here(e.prior, w.body) + (e'.prior.Keys - e.prior.Keys)
  {
    EncSeen(t, e, w.order);
  }

  lemma FineHead(w: Window, ms: seq<Member>, e: Enc)
    requires ms != [] && InRange(w, e)
    ensures FineMembers(w, ms, e.prior)
      <==> Fine(w, ms[0].tc, e.prior) && FineMembers(w, ms[1..], EncTC(ms[0].tc, e, w.order).prior)
  {
    hide LocalRefs, Here, Seen;
    if w.wide {
      HereAfter(w, e, ms[0].tc);
    }
  }

  lemma FineUnion(w: Window, t: TypeCode, e: Enc)
    requires t.Union? && InRange(w, e)
    ensures FineParts(w, t, e.prior)
      <==> Fine(w, t.discriminator, e.prior) && FineMembers(w, t.members, EncTC(t.discriminator, e, w.order).prior)
  {
    hide LocalRefs, LocalMembers, Here, Seen;
    if w.wide {
      HereAfter(w, e, t.discriminator);
    }
  }

  /** A new encapsulation has met nothing yet. */
  lemma FineNew(w: Window, encaps: Window, t: TypeCode, prior: map<nat, nat>, index: nat)
    requires !t.Empty? && t.id !in prior && encaps.wide == w.wide && index < encaps.body
    requires forall id :: id in prior ==> prior[id] < encaps.body
    ensures Fine(w, t, prior) <==> FineParts(encaps, t, prior[t.id := index])
  {
    hide LocalParts;
    assert prior[t.id := index].Keys == prior.Keys + {t.id};
    assert Here(prior[t.id := index], encaps.body) == {};
  }

  // ----- reading back single items -----

  lemma GetPutInt(w: Window, e: Enc, n: nat, v: int, st: Dec)
    requires n in {1, 2, 4, 8}
    requires st.cur == |e.out| && |PutInt(e, w.order, n, v).out| <= w.end
    requires Fits(w.mem, PutInt(e, w.order, n, v).out)
    ensures GetInt(w, n, st) == Ok(v % Pow256(n), st.(cur := |PutInt(e, w.order, n, v).out|))
  {
    hide Align, Store, Load, Pow256, Fits;
    FitsBytes(w.mem, AlignTo(e, n).out, Store(w.order, n, v));
    LoadStore(w.order, n, v);
  }

  lemma GetPutU32(w: Window, e: Enc, v: U32, st: Dec)
    requires st.cur == |e.out| && |PutInt(e, w.order, 4, v).out| <= w.end
    requires Fits(w.mem, PutInt(e, w.order, 4, v).out)
    ensures GetInt(w, 4, st) == Ok(v, st.(cur := |PutInt(e, w.order, 4, v).out|))
  {
    GetPutInt(w, e, 4, v, st);
    Pow256Values();
  }

  lemma {:induction false} CStringOf(s: CStr)
    ensures CString(s + [0]) == s
  {
    if s != [] {
      assert (s + [0])[1..] == s[1..] + [0];
      CStringOf(s[1..]);
    }
  }

  lemma GetPutString(w: Window, e: Enc, s: CStr, st: Dec)
    requires st.cur == |e.out| && |PutString(e, w.order, s).out| <= w.end < 0x1_0000_0000
    requires Fits(w.mem, PutString(e, w.order, s).out)
    ensures GetString(w, st) == Ok(s, st.(cur := |PutString(e, w.order, s).out|))
  {
    var e1 := PutInt(e, w.order, 4, |s| + 1);
    FitsPrefix(w.mem, e1.out, Append(e1, s + [0]).out);
    GetPutU32(w, e, |s| + 1, st);
    FitsBytes(w.mem, e1.out, s + [0]);
    CStringOf(s);
  }

  lemma {:induction false} GetPutNames(w: Window, e: Enc, names: seq<CStr>, st: Dec)
    requires st.cur == |e.out| && |PutNames(e, w.order, names).out| <= w.end < 0x1_0000_0000
    requires Fits(w.mem, PutNames(e, w.order, names).out)
    ensures GetNames(w, st, |names|) == Ok(names, st.(cur := |PutNames(e, w.order, names).out|))
    decreases names
  {
    if names != [] {
      var e1 := PutString(e, w.order, names[0]);
      FitsPrefix(w.mem, e1.out, PutNames(e, w.order, names).out);
      GetPutString(w, e, names[0], st);
      GetPutNames(w, e1, names[1..], st.(cur := |e1.out|));
      assert names == [names[0]] + names[1..];
    }
  }

  lemma GetPutLabel(w: Window, e: Enc, k: U32, tag: I32, st: Dec)
    requires if k == 0 then tag == 0 else LabelKind(k) && LabelFits(k, tag)
    requires st.cur == |e.out| && |EncLabel(e, w.order, k, tag).out| <= w.end
    requires Fits(w.mem, EncLabel(e, w.order, k, tag).out)
    ensures DecLabel(w, st, k) == Ok(tag, st.(cur := |EncLabel(e, w.order, k, tag).out|))
  {
    if k != 0 {
      GetPutInt(w, e, LabelSize(k), tag, st);
      LabelSurvives(k, tag);
    }
  }

  lemma Signed32Of(x: I32)
    ensures Signed32(x % Pow256(4)) == x
  {
    Pow256Values();
    assert x % 0x1_0000_0000 == if x >= 0 then x else x + 0x1_0000_0000;
  }

  // ----- the relation between the two codecs' registers -----

  /** The encoder's register holds objects that are complete, which are those `phi` covers, and objects
      that are being encoded. The decoder's register holds the image of every complete object at the
      position where the encoder started it. */
  ghost predicate Linked(h: map<nat, TypeCode>, phi: map<nat, nat>, e: Enc, st: Dec) {
    && st.cur == |e.out|
    && (forall id :: id in phi ==> Imaged(h, phi, e.prior, st.prior, id))
    && (forall a, b :: a in phi && b in phi && phi[a] == phi[b] ==> a == b)
    && (forall a :: a in phi ==> phi[a] < st.next)
    && (forall ix :: ix in st.prior ==> ix < |e.out|)
    && (forall id :: id in e.prior ==> id in h && e.prior[id] < |e.out|)
  }

  ghost predicate Imaged(h: map<nat, TypeCode>, phi: map<nat, nat>, prior: map<nat, nat>, images: map<nat, TypeCode>, id: nat) {
    && id in h && Covered(phi, h[id])
    && id in prior && prior[id] in images && images[prior[id]] == Rename(phi, h[id])
  }

  /** The objects being encoded are all larger than what is encoded next: they are its owners. */
  ghost predicate OwnersLarger(h: map<nat, TypeCode>, phi: map<nat, nat>, e: Enc, size: nat) {
    forall id :: id in e.prior && id !in phi ==> id in h && Size(h[id]) > size
  }

  /** What one encoding step adds: only objects that were not in the register, all completed, at
      positions after the old end of the message, with new images. */
  ghost predicate Grows(phi: map<nat, nat>, e: Enc, next: nat, phi': map<nat, nat>, e': Enc, next': nat) {
    && Extends(phi, phi') && next <= next'
    && (forall id :: id in e.prior ==> (id in phi' <==> id in phi))
    && (forall id :: id in e.prior ==> id in e'.prior && e'.prior[id] == e.prior[id])
    && (forall id :: id in e'.prior && id !in e.prior ==> id in phi' && e'.prior[id] >= |e.out|)
    && (forall id :: id in phi' && id !in phi ==> phi'[id] >= next)
  }

  lemma GrowsTrans(phi: map<nat, nat>, e: Enc, n: nat, phi1: map<nat, nat>, e1: Enc, n1: nat,
                   phi2: map<nat, nat>, e2: Enc, n2: nat)
    requires Grows(phi, e, n, phi1, e1, n1) && Grows(phi1, e1, n1, phi2, e2, n2)
    requires |e.out| <= |e1.out|
    ensures Grows(phi, e, n, phi2, e2, n2)
  {
  }

  /** Output that registers nothing keeps the link. */
  lemma LinkedMove(h: map<nat, TypeCode>, phi: map<nat, nat>, e: Enc, st: Dec, e': Enc, st': Dec)
    requires Linked(h, phi, e, st)
    requires e'.prior == e.prior && |e.out| <= |e'.out|
    requires st' == st.(cur := |e'.out|)
    ensures Linked(h, phi, e', st') && Grows(phi, e, st.next, phi, e', st'.next)
  {
  }

  /** Completing object `t`, which was started at `index` and gets the image `next`. */
  lemma Complete(h: map<nat, TypeCode>, t: TypeCode, phi: map<nat, nat>, e: Enc, next: nat, index: nat,
                 phi1: map<nat, nat>, e1: Enc, st1: Dec, e2: Enc, t': TypeCode)
    requires !t.Empty? && t.id in h && h[t.id] == t && t.id !in e.prior
    requires forall id :: id in phi ==> id in e.prior && phi[id] < next
    requires |e.out| <= index
    requires Linked(h, phi1, e1, st1)
    requires Grows(phi, e.(prior := e.prior[t.id := index]), next + 1, phi1, e1, st1.next)
    requires forall id :: id in e1.prior && id != t.id ==> e1.prior[id] != index
    requires e2.prior == e1.prior && |e1.out| <= |e2.out| && index < |e2.out|
    requires Covered(phi1[t.id := next], t) && t' == Rename(phi1[t.id := next], t)
    ensures Linked(h, phi1[t.id := next], e2, Register(st1.(cur := |e2.out|), index, t'))
    ensures Grows(phi, e, next, phi1[t.id := next], e2, st1.next)
  {
    hide Rename, Covered, Size, Register;
    var phi2 := phi1[t.id := next];
    assert t.id !in phi1;
    assert e1.prior[t.id] == index;
    assert Imaged(h, phi2, e1.prior, st1.prior[index := t'], t.id);
    hide Imaged;
    forall id | id in phi2
      ensures Imaged(h, phi2, e1.prior, st1.prior[index := t'], id)
    {
      if id != t.id {
        assert id in phi1 && Imaged(h, phi1, e1.prior, st1.prior, id);
        CompleteImage(h, phi1, e1.prior, st1.prior, id, t.id, next, index, t');
      }
    }
    RegisterIs(st1.(cur := |e2.out|), index, t');
    CompleteInjective(phi, phi1, t.id, next);
    CompleteGrows(t.id, phi, e, next, index, phi1, e1, st1.next, e2);
  }

  lemma RegisterIs(st: Dec, index: nat, t: TypeCode)
    ensures Register(st, index, t) == st.(prior := st.prior[index := t])
  {
  }

  /** Completing another object leaves the image of `id` in place. */
  lemma CompleteImage(h: map<nat, TypeCode>, phi: map<nat, nat>, prior: map<nat, nat>, images: map<nat, TypeCode>, id: nat,
                      other: nat, next: nat, index: nat, t': TypeCode)
    requires id in phi && Imaged(h, phi, prior, images, id) && id != other && other !in phi
    requires id in prior ==> prior[id] != index
    ensures Imaged(h, phi[other := next], prior, images[index := t'], id)
  {
    hide Rename, Covered;
    assert Extends(phi, phi[other := next]);
    RenameExtends(phi, phi[other := next], h[id]);
  }

  lemma CompleteGrows(id: nat, phi: map<nat, nat>, e: Enc, next: nat, index: nat,
                      phi1: map<nat, nat>, e1: Enc, next1: nat, e2: Enc)
    requires id !in e.prior && id !in phi && |e.out| <= index
    requires Grows(phi, e.(prior := e.prior[id := index]), next + 1, phi1, e1, next1)
    requires e2.prior == e1.prior
    ensures Grows(phi, e, next, phi1[id := next], e2, next1)
  {
    var mid := e.(prior := e.prior[id := index]);
    var phi2 := phi1[id := next];
    assert id in mid.prior && mid.prior[id] == index;
    forall a | a in e2.prior && a !in e.prior ensures a in phi2 && e2.prior[a] >= |e.out| {
      if a != id {
        assert a !in mid.prior;
      }
    }
    forall a | a in e.prior ensures a in e2.prior && e2.prior[a] == e.prior[a] && (a in phi2 <==> a in phi) {
      assert a in mid.prior && mid.prior[a] == e.prior[a];
    }
  }

  lemma CompleteInjective(phi: map<nat, nat>, phi1: map<nat, nat>, id: nat, next: nat)
    requires id !in phi1 && Extends(phi, phi1)
    requires forall a :: a in phi ==> phi[a] < next
    requires forall a :: a in phi1 && a !in phi ==> phi1[a] >= next + 1
    requires forall a, b :: a in phi1 && b in phi1 && phi1[a] == phi1[b] ==> a == b
    ensures var phi2 := phi1[id := next];
      forall a, b :: a in phi2 && b in phi2 && phi2[a] == phi2[b] ==> a == b
  {
    assert forall a :: a in phi1 ==> phi1[a] != next;
  }

  lemma OwnersKept(h: map<nat, TypeCode>, phi: map<nat, nat>, e: Enc, next: nat, phi': map<nat, nat>, e': Enc, next': nat,
                   size: nat, size': nat)
    requires OwnersLarger(h, phi, e, size) && Grows(phi, e, next, phi', e', next') && size' <= size
    ensures OwnersLarger(h, phi', e', size')
  {
  }

  lemma ImagedStart(h: map<nat, TypeCode>, phi: map<nat, nat>, prior: map<nat, nat>, images: map<nat, TypeCode>, id: nat,
                    other: nat, index: nat)
    requires id in phi && other !in prior && Imaged(h, phi, prior, images, id)
    ensures Imaged(h, phi, prior[other := index], images, id)
  {
    hide Rename, Covered;
  }

  /** Starting object `t` at `index`: it joins the encoder's register as an owner of what follows. */
  lemma Start(h: map<nat, TypeCode>, t: TypeCode, phi: map<nat, nat>, e: Enc, st: Dec, index: nat, e1: Enc, st1: Dec)
    requires !t.Empty? && t.id in h && h[t.id] == t && t.id !in e.prior
    requires Linked(h, phi, e, st) && OwnersLarger(h, phi, e, Size(t))
    requires |e.out| <= index < |e1.out| && e1.prior == e.prior[t.id := index]
    requires st1 == st.(cur := |e1.out|, next := st.next + 1)
    ensures t.id !in phi
    ensures Linked(h, phi, e1, st1)
    ensures Grows(phi, e.(prior := e.prior[t.id := index]), st.next + 1, phi, e1, st1.next)
    ensures Size(t) > 0 ==> OwnersLarger(h, phi, e1, Size(t) - 1)
  {
    StartNew(h, t.id, phi, e, st);
    StartOwners(h, t, phi, e, index, e1);
    hide Imaged, Size, OwnersLarger;
    forall id | id in phi ensures Imaged(h, phi, e1.prior, st1.prior, id) {
      assert Imaged(h, phi, e.prior, st.prior, id);
      ImagedStart(h, phi, e.prior, st.prior, id, t.id, index);
    }
  }

  lemma StartNew(h: map<nat, TypeCode>, id: nat, phi: map<nat, nat>, e: Enc, st: Dec)
    requires Linked(h, phi, e, st) && id !in e.prior
    ensures id !in phi
  {
    hide Rename, Covered;
    assert id in phi ==> Imaged(h, phi, e.prior, st.prior, id);
  }

  lemma StartOwners(h: map<nat, TypeCode>, t: TypeCode, phi: map<nat, nat>, e: Enc, index: nat, e1: Enc)
    requires !t.Empty? && t.id in h && h[t.id] == t && e1.prior == e.prior[t.id := index]
    requires OwnersLarger(h, phi, e, Size(t))
    ensures Size(t) > 0 ==> OwnersLarger(h, phi, e1, Size(t) - 1)
  {
    hide Size;
  }

  /** The kind at the head of every TypeCode. */
  lemma GetKind(w: Window, e: Enc, prior: map<nat, nat>, kind: U32, st: Dec)
    requires st.cur == |e.out|
    requires |PutInt(AlignTo(e, 4).(prior := prior), w.order, 4, kind).out| <= w.end
    requires Fits(w.mem, PutInt(AlignTo(e, 4).(prior := prior), w.order, 4, kind).out)
    ensures |PutInt(AlignTo(e, 4).(prior := prior), w.order, 4, kind).out| == |AlignTo(e, 4).out| + 4
    ensures GetInt(w, 4, st) == Ok(kind, st.(cur := |AlignTo(e, 4).out| + 4))
  {
    AlignTwice(e, 4);
    hide GetInt, Store, Align, Fits;
    var e0 := AlignTo(e, 4).(prior := prior);
    assert AlignTo(e0, 4).out == e0.out;
    hide *;
    GetPutU32(w, e0, kind, st.(cur := |e0.out|));
    GetAligned(w, st, |e0.out|, Align(st.cur, 4));
  }

  /** Reading aligns first. */
  lemma GetAligned(w: Window, st: Dec, p: nat, q: nat)
    requires q == Align(st.cur, 4) == p && Align(p, 4) == p
    ensures GetInt(w, 4, st.(cur := p)) == GetInt(w, 4, st)
  {
    hide Load, Align;
  }

  lemma BackOffset(pos: nat, target: nat)
    requires target < pos < 0x1_0000_0000 - 4
    ensures (pos + 4 + (target - pos - 4) % 0x1_0000_0000) % 0x1_0000_0000 == target
  {
    var v := target - pos - 4;
    assert v % 0x1_0000_0000 == v + 0x1_0000_0000;
    assert pos + 4 + (v + 0x1_0000_0000) == 0x1_0000_0000 + target;
  }

  /** The offset of an indirection is counted from the end of the offset field. Section 15.3.5.1 of CORBA 2.6
      counts from its start, so the field never holds what the standard asks for. */
  lemma OffsetFromEnd(t: TypeCode, e: Enc, o: Order)
    requires !t.Empty? && t.id in e.prior
    ensures
      var end := |EncTC(t, e, o).out|;
      var field := EncTC(t, e, o).out[end - 4..];
      && field == Cells(Store(o, 4, e.prior[t.id] - end))
      && field != Cells(Store(o, 4, e.prior[t.id] - (end - 4)))
  {
    hide *;
    EncTCAgain(t, e, o);
    var e1 := PutInt(AlignTo(e, 4), o, 4, TK_RECURSIVE);
    AlignTwice(e, 4);
    assert |e1.out| == Align(|e.out|, 4) + 4;
    AlignedFourMore(|e.out|);
    var v := e.prior[t.id] - |e1.out| - 4;
    LastFour(e1, o, v);
    StoresDiffer(o, v);
  }

  lemma LastFour(e: Enc, o: Order, v: int)
    requires Align(|e.out|, 4) == |e.out|
    ensures var r := PutInt(e, o, 4, v).out; |r| == |e.out| + 4 && r[|r| - 4..] == Cells(Store(o, 4, v))
  {
    hide Align, Store;
  }

  lemma StoresDiffer(o: Order, v: int)
    ensures Cells(Store(o, 4, v)) != Cells(Store(o, 4, v + 4))
  {
    hide Cells, Store, Load, Pow256;
    if Cells(Store(o, 4, v)) == Cells(Store(o, 4, v + 4)) {
      CellsInjective(Store(o, 4, v), Store(o, 4, v + 4));
    }
    LoadStore(o, 4, v);
    LoadStore(o, 4, v + 4);
    Pow256Values();
    NeverFourApart(v);
  }

  lemma NeverFourApart(v: int)
    ensures v % 0x1_0000_0000 != (v + 4) % 0x1_0000_0000
  {
  }

  lemma CellsInjective(a: seq<Byte>, b: seq<Byte>)
    requires Cells(a) == Cells(b)
    ensures a == b
  {
    assert |a| == |b|;
    forall i | 0 <= i < |a| ensures a[i] == b[i] {
      assert Cells(a)[i] == Cells(b)[i];
    }
  }

  /** With 64-bit pointers, an offset is followed exactly when it stays in the buffer. */
  lemma BackReaches(w: Window, e: Enc, pos: nat, target: nat)
    requires target < |e.out| <= pos && pos + 4 <= w.end && InRange(w, e)
    ensures Reaches(w, pos + 4, (target - pos - 4) % 0x1_0000_0000) <==> (w.wide ==> target >= w.body)
  {
    if w.wide {
      var v := target - pos - 4;
      assert v % 0x1_0000_0000 == v + 0x1_0000_0000;
      assert Signed32(v + 0x1_0000_0000) == v;
    }
  }

  lemma AlignedFourMore(n: nat)
    ensures Align(Align(n, 4) + 4, 4) == Align(n, 4) + 4
  {
    assert Align(n, 4) % 4 == 0;
    AlignedFour(Align(n, 4) + 4);
  }

  /** The back reference written for a completed object names the position where it started. */
  lemma Indirection(w: Window, e: Enc, target: nat, st: Dec, e1: Enc, e2: Enc)
    requires st.cur == |e.out| && target < |e.out|
    requires e1 == PutInt(AlignTo(e, 4), w.order, 4, TK_RECURSIVE)
    requires e2 == PutInt(e1, w.order, 4, target - |e1.out| - 4)
    requires |e2.out| <= w.end < 0x1_0000_0000 && Fits(w.mem, e2.out) && InRange(w, e)
    requires target in st.prior
    ensures DecTC(w, st) == if w.wide ==> target >= w.body then Ok(st.prior[target], st.(cur := |e2.out|)) else Fail
    ensures e2.prior == e.prior
  {
    hide *;
    var v := target - |e1.out| - 4;
    FitsPrefix(w.mem, e1.out, e2.out);
    assert AlignTo(e, 4).(prior := e.prior) == AlignTo(e, 4);
    GetKind(w, e, e.prior, TK_RECURSIVE, st);
    var s1 := st.(cur := |e1.out|);
    GetPutInt(w, e1, 4, v, s1);
    var s2 := st.(cur := |e2.out|);
    AlignedFourMore(|e.out|);
    assert |e1.out| == Align(|e.out|, 4) + 4;
    assert |e2.out| == |e1.out| + 4;
    BackOffset(|e1.out|, target);
    BackReaches(w, e, |e1.out|, target);
    Pow256Values();
    DecTCBack(w, st, s1, v % 0x1_0000_0000, s2, target);
  }

  lemma DecTCBack(w: Window, st: Dec, s1: Dec, offset: nat, s2: Dec, target: nat)
    requires GetInt(w, 4, st) == Ok(TK_RECURSIVE, s1) && GetInt(w, 4, s1) == Ok(offset, s2)
    requires (s2.cur + offset) % 0x1_0000_0000 == target && target in s2.prior
    ensures DecTC(w, st) == if Reaches(w, s2.cur, offset) then Ok(s2.prior[target], s2) else Fail
  {
    hide GetInt, Reaches;
  }

  lemma GetStored(w: Window, n: nat, v: int, st: Dec)
    requires n in {1, 2, 4, 8} && Align(st.cur, n) == st.cur && st.cur + n <= w.end
    requires w.mem[st.cur..st.cur + n] == Store(w.order, n, v)
    ensures GetInt(w, n, st) == Ok(v % Pow256(n), st.(cur := st.cur + n))
  {
    hide Align, Store, Load, Pow256;
    LoadStore(w.order, n, v);
  }

  /** Filling in the marker only fixes bytes that were don't-care. */
  lemma PatchFits(mem: seq<Byte>, out: seq<Cell>, marker: nat, s: seq<Byte>)
    requires marker + |s| <= |out| && Fits(mem, Patch(out, marker, s))
    requires forall i :: marker <= i < marker + |s| ==> out[i] == Pad
    ensures Fits(mem, out)
    ensures mem[marker..marker + |s|] == s
  {
    var patched := Patch(out, marker, s);
    forall i | 0 <= i < |out| && out[i].Data? ensures mem[i] == out[i].b {
      assert patched[i] == out[i];
    }
    forall i | 0 <= i < |s| ensures mem[marker + i] == s[i] {
      assert patched[marker + i] == Data(s[i]);
    }
  }

  lemma OpenedAt(e: Enc, o: Order, out: seq<Cell>)
    requires |e.out| % 4 == 0 && OpenEncaps(e, o).out <= out
    ensures Align(|e.out|, 4) == |e.out| && |OpenEncaps(e, o).out| == |e.out| + 5
    ensures forall i :: |e.out| <= i < |e.out| + 4 ==> out[i] == Pad
    ensures out[|e.out| + 4] == Data(OrderFlag(o))
  {
    AlignedFour(|e.out|);
    OpenAligned(e, o);
    var head := OpenEncaps(e, o).out;
    hide *;
    forall i | 0 <= i < |head| ensures out[i] == head[i] {
      assert out[..|head|][i] == head[i];
    }
  }

  lemma AlignedFour(n: nat)
    requires n % 4 == 0
    ensures Align(n, 4) == n
  {
  }

  lemma OpenAligned(e: Enc, o: Order)
    requires Align(|e.out|, 4) == |e.out|
    ensures OpenEncaps(e, o).out == e.out + Pads(4) + Cells([OrderFlag(o)])
    ensures forall i :: |e.out| <= i < |e.out| + 4 ==> OpenEncaps(e, o).out[i] == Pad
    ensures OpenEncaps(e, o).out[|e.out| + 4] == Data(OrderFlag(o))
  {
    hide Align;
    assert e.out + Pads(0) == e.out;
  }

  /** Reading the patched length and the flag of an encapsulation. */
  lemma GetEncaps(w: Window, e: Enc, e3: Enc, st: Dec)
    requires st.cur == |e.out| && |e.out| % 4 == 0
    requires OpenEncaps(e, w.order).out <= e3.out && |e3.out| <= w.end < 0x1_0000_0000
    requires Fits(w.mem, Patch(e3.out, |e.out|, Store(w.order, 4, |e3.out| - (|e.out| + 4))))
    ensures GetInt(w, 4, st) == Ok(|e3.out| - (|e.out| + 4), st.(cur := |e.out| + 4))
    ensures |e3.out| > |e.out| + 4 && FlagOrder(w.mem[|e.out| + 4]) == w.order
    ensures Fits(w.mem, e3.out)
  {
    hide *;
    var len := |e3.out| - (|e.out| + 4);
    OpenedAt(e, w.order, e3.out);
    PatchFits(w.mem, e3.out, |e.out|, Store(w.order, 4, len));
    GetStored(w, 4, len, st);
    Pow256Values();
    FlagRead(w.mem, e3.out, |e.out| + 4, w.order);
  }

  lemma FlagRead(mem: seq<Byte>, out: seq<Cell>, at: nat, o: Order)
    requires Fits(mem, out) && at < |out| && out[at] == Data(OrderFlag(o))
    ensures FlagOrder(mem[at]) == o
  {
  }

  // ----- the round trip -----

  /** What decoding establishes about one TypeCode written at the end of `e`. */
  ghost predicate Decoded(h: map<nat, TypeCode>, phi: map<nat, nat>, e: Enc, st: Dec,
                          phi': map<nat, nat>, e': Enc, st': Dec)
  {
    Linked(h, phi', e', st') && Grows(phi, e, st.next, phi', e', st'.next)
  }

  lemma {:induction false} DecEncTC(h: map<nat, TypeCode>, w: Window, t: TypeCode, phi: map<nat, nat>, e: Enc, st: Dec)
    returns (phi': map<nat, nat>, st': Dec)
    requires InHeap(h, t) && WellFormed(t) && InRange(w, e)
    requires Linked(h, phi, e, st) && OwnersLarger(h, phi, e, Size(t))
    requires |EncTC(t, e, w.order).out| <= w.end < 0x1_0000_0000
    requires Fits(w.mem, EncTC(t, e, w.order).out)
    ensures Fine(w, t, e.prior) ==>
      && DecTC(w, st) == Ok(Rename(phi', t), st') && Covered(phi', t)
      && Decoded(h, phi, e, st, phi', EncTC(t, e, w.order), st')
    ensures !Fine(w, t, e.prior) ==> DecTC(w, st).Fail?
    decreases t, 2, 0
  {
    hide *;
    LinkedCur(h, phi, e, st);
    var e0 := AlignTo(e, 4);
    var e' := EncTC(t, e, w.order);
    if t.Empty? {
      EncTCEmpty(t, e, w.order);
      assert e0.(prior := e.prior) == e0;
      GetKind(w, e, e.prior, t.kind, st);
      var s1 := st.(cur := |e0.out| + 4);
      DecTCEmpty(w, st, t.kind, s1);
      phi', st' := phi, Register(s1, |e0.out|, t);
      EmptyLinked(h, t, phi, e, st, e', s1, |e0.out|);
      FineEmpty(w, t, e.prior);
    } else if t.id in e.prior {
      EncTCAgain(t, e, w.order);
      NotOwner(h, t, phi, e, st);
      FineAgain(w, t, e.prior);
      Indirection(w, e, e.prior[t.id], st, PutInt(e0, w.order, 4, TK_RECURSIVE), e');
      phi', st' := phi, st.(cur := |e'.out|);
      LinkedMove(h, phi, e, st, e', st');
      AsDecoded(h, phi, e, st, phi', e', st');
    } else {
      EncTCNew(t, e, w.order);
      phi', st' := DecEncNew(h, w, t, phi, e, st);
    }
  }

  lemma FineEmpty(w: Window, t: TypeCode, prior: map<nat, nat>)
    requires t.Empty?
    ensures Fine(w, t, prior)
  {
  }

  lemma FineAgain(w: Window, t: TypeCode, prior: map<nat, nat>)
    requires !t.Empty? && t.id in prior
    ensures Fine(w, t, prior) <==> (w.wide ==> prior[t.id] >= w.body)
  {
  }

  lemma AsDecoded(h: map<nat, TypeCode>, phi: map<nat, nat>, e: Enc, st: Dec, phi': map<nat, nat>, e': Enc, st': Dec)
    requires Linked(h, phi', e', st') && Grows(phi, e, st.next, phi', e', st'.next)
    ensures Decoded(h, phi, e, st, phi', e', st')
  {
  }

  /** A basic type registers at a position that no object has. */
  lemma EmptyLinked(h: map<nat, TypeCode>, t: TypeCode, phi: map<nat, nat>, e: Enc, st: Dec, e': Enc, s1: Dec, index: nat)
    requires t.Empty? && Linked(h, phi, e, st)
    requires e'.prior == e.prior && s1 == st.(cur := |e'.out|) && |e.out| <= index < |e'.out|
    ensures Decoded(h, phi, e, st, phi, e', Register(s1, index, t)) && Rename(phi, t) == t && Covered(phi, t)
  {
    forall id | id in phi ensures Imaged(h, phi, e.prior, st.prior[index := t], id) {
      assert Imaged(h, phi, e.prior, st.prior, id);
      hide Rename, Covered;
    }
  }

  /** An object met again is complete: it is no larger than its owners, so it is none of them. */
  lemma NotOwner(h: map<nat, TypeCode>, t: TypeCode, phi: map<nat, nat>, e: Enc, st: Dec)
    requires InHeap(h, t) && !t.Empty? && t.id in e.prior
    requires Linked(h, phi, e, st) && OwnersLarger(h, phi, e, Size(t))
    ensures t.id in phi && e.prior[t.id] < |e.out| && e.prior[t.id] in st.prior
    ensures Covered(phi, t) && st.prior[e.prior[t.id]] == Rename(phi, t)
  {
    assert t.id in phi;
    assert Imaged(h, phi, e.prior, st.prior, t.id);
  }

  lemma DecTCEmpty(w: Window, st: Dec, kind: U32, s1: Dec)
    requires GetInt(w, 4, st) == Ok(kind, s1) && EmptyKind(kind)
    ensures DecTC(w, st) == Ok(Empty(kind), Register(s1, s1.cur - 4, Empty(kind)))
  {
    hide GetInt;
  }

  lemma DecTCStr(w: Window, st: Dec, wide: bool, s1: Dec, length: U32, s2: Dec)
    requires GetInt(w, 4, st) == Ok(if wide then TK_WSTRING else TK_STRING, s1)
    requires GetInt(w, 4, s1) == Ok(length, s2)
    ensures DecTC(w, st) == Ok(Str(s1.next, wide, length),
                               Register(s2.(next := s1.next + 1), s1.cur - 4, Str(s1.next, wide, length)))
  {
    hide GetInt;
  }

  lemma DecTCFixed(w: Window, st: Dec, s1: Dec, digits: U16, s2: Dec, scale: I16, s3: Dec)
    requires GetInt(w, 4, st) == Ok(TK_FIXED, s1)
    requires GetInt(w, 2, s1) == Ok(digits, s2)
    requires GetInt(w, 2, s2) == Ok(if scale >= 0 then scale else scale + 0x1_0000, s3)
    ensures DecTC(w, st) == Ok(Fixed(s1.next, digits, scale),
                               Register(s3.(next := s1.next + 1), s1.cur - 4, Fixed(s1.next, digits, scale)))
  {
    hide GetInt;
  }

  lemma DecTCComplex(w: Window, st: Dec, kind: U32, s1: Dec, len: nat, s2: Dec, t: TypeCode, s3: Dec)
    requires ComplexKind(kind)
    requires GetInt(w, 4, st) == Ok(kind, s1) && GetInt(w, 4, s1) == Ok(len, s2)
    requires len > 0 && s2.cur + len <= w.end
    requires DecBody(Win(w.mem, s2.cur + len, FlagOrder(w.mem[s2.cur]), s2.cur, w.wide), kind, s1.next,
                     s2.(cur := s2.cur + 1, next := s1.next + 1)) == Ok(t, s3)
    ensures DecTC(w, st) == Ok(t, Register(s3.(cur := s2.cur + len), s1.cur - 4, t))
  {
    hide GetInt, DecBody;
  }

  lemma DecTCStuck(w: Window, st: Dec, kind: U32, s1: Dec, len: nat, s2: Dec)
    requires ComplexKind(kind)
    requires GetInt(w, 4, st) == Ok(kind, s1) && GetInt(w, 4, s1) == Ok(len, s2)
    requires len > 0 && s2.cur + len <= w.end
    requires DecBody(Win(w.mem, s2.cur + len, FlagOrder(w.mem[s2.cur]), s2.cur, w.wide), kind, s1.next,
                     s2.(cur := s2.cur + 1, next := s1.next + 1)).Fail?
    ensures DecTC(w, st).Fail?
  {
    hide GetInt, DecBody;
  }

  /** An object met for the first time. */
  lemma {:induction false} DecEncNew(h: map<nat, TypeCode>, w: Window, t: TypeCode, phi: map<nat, nat>, e: Enc, st: Dec)
    returns (phi': map<nat, nat>, st': Dec)
    requires !t.Empty? && t.id !in e.prior
    requires InHeap(h, t) && WellFormed(t) && InRange(w, e)
    requires Linked(h, phi, e, st) && OwnersLarger(h, phi, e, Size(t))
    requires |EncTC(t, e, w.order).out| <= w.end < 0x1_0000_0000
    requires Fits(w.mem, EncTC(t, e, w.order).out)
    ensures Fine(w, t, e.prior) ==>
      && DecTC(w, st) == Ok(Rename(phi', t), st') && Covered(phi', t)
      && Decoded(h, phi, e, st, phi', EncTC(t, e, w.order), st')
    ensures !Fine(w, t, e.prior) ==> DecTC(w, st).Fail?
    decreases t, 1, 1
  {
    hide *;
    LinkedCur(h, phi, e, st);
    EncTCNew(t, e, w.order);
    var e0 := AlignTo(e, 4);
    var prior := e.prior[t.id := |e0.out|];
    var e1 := PutInt(e0.(prior := prior), w.order, 4, KindOf(t));
    FitsPrefix(w.mem, e1.out, EncTC(t, e, w.order).out);
    GetKind(w, e, prior, KindOf(t), st);
    AlignedFourMore(|e.out|);
    assert |e1.out| == Align(|e.out|, 4) + 4;
    phi', st' := DecEncParams(h, w, t, phi, e, st, e1);
  }

  /** The parameters of a new object. */
  lemma {:induction false} DecEncParams(h: map<nat, TypeCode>, w: Window, t: TypeCode, phi: map<nat, nat>, e: Enc, st: Dec, e1: Enc)
    returns (phi': map<nat, nat>, st': Dec)
    requires !t.Empty? && t.id !in e.prior
    requires InHeap(h, t) && WellFormed(t) && InRange(w, e)
    requires Linked(h, phi, e, st) && OwnersLarger(h, phi, e, Size(t))
    requires |e1.out| % 4 == 0 && |e.out| + 4 <= |e1.out| && e1.prior == e.prior[t.id := |e1.out| - 4]
    requires GetInt(w, 4, st) == Ok(KindOf(t), st.(cur := |e1.out|))
    requires |EncParams(t, e1, w.order).out| <= w.end < 0x1_0000_0000
    requires Fits(w.mem, EncParams(t, e1, w.order).out)
    ensures Fine(w, t, e.prior) ==>
      && DecTC(w, st) == Ok(Rename(phi', t), st') && Covered(phi', t)
      && Decoded(h, phi, e, st, phi', EncParams(t, e1, w.order), st')
    ensures !Fine(w, t, e.prior) ==> DecTC(w, st).Fail?
    decreases t, 1, 0
  {
    hide *;
    ParamsOf(h, t, e1, w.order);
    var index := |e1.out| - 4;
    var s1 := st.(cur := |e1.out|);
    var e4 := EncParams(t, e1, w.order);
    if t.Str? {
      GetPutU32(w, e1, t.length, s1);
      DecTCStr(w, st, t.wide, s1, t.length, s1.(cur := |e4.out|));
      phi', st' := CompleteLeaf(h, t, phi, e, st, index, e4);
      FineLeaf(w, t, e.prior);
    } else if t.Fixed? {
      GetFixed(w, st, e1, t, s1, e4);
      phi', st' := CompleteLeaf(h, t, phi, e, st, index, e4);
      FineLeaf(w, t, e.prior);
    } else {
      var e2 := OpenEncaps(e1, w.order);
      var e3 := EncBody(t, e2, w.order);
      OpenedAt(e1, w.order, e3.out);
      GetEncaps(w, e1, e3, s1);
      var s2 := st.(cur := |e2.out|, next := st.next + 1);
      Start(h, t, phi, e, st, index, e2, s2);
      var encaps := Win(w.mem, |e3.out|, w.order, |e1.out| + 4, w.wide);
      StartsInside(h, w, encaps, t, phi, e, st, index, e2);
      var phi1, s3 := DecEncBody(h, encaps, t, st.next, phi, e2, s2);
      if !FineParts(encaps, t, e2.prior) {
        DecTCStuck(w, st, KindOf(t), s1, |e3.out| - (|e1.out| + 4), s1.(cur := |e1.out| + 4));
        return phi, st;
      }
      DecodedParts(h, phi, e2, s2, phi1, e3, s3);
      var t' := Rename(phi1[t.id := st.next], t);
      DecTCComplex(w, st, KindOf(t), s1, |e3.out| - (|e1.out| + 4), s1.(cur := |e1.out| + 4), t', s3);
      phi', st' := CompleteBody(h, t, phi, e, st, index, e2, s2, phi1, e3, s3, e4);
    }
  }

  lemma FineLeaf(w: Window, t: TypeCode, prior: map<nat, nat>)
    requires (t.Str? || t.Fixed?) && t.id !in prior
    ensures Fine(w, t, prior)
  {
  }

  /** The encapsulation of `t` starts after everything in the register. */
  lemma StartsInside(h: map<nat, TypeCode>, w: Window, encaps: Window, t: TypeCode, phi: map<nat, nat>, e: Enc, st: Dec,
                     index: nat, e2: Enc)
    requires !t.Empty? && t.id !in e.prior && Linked(h, phi, e, st) && InRange(w, e)
    requires encaps.wide == w.wide && encaps.end <= w.end && |e.out| <= index < encaps.body <= |e2.out|
    requires e2.prior == e.prior[t.id := index]
    ensures InRange(encaps, e2) && (Fine(w, t, e.prior) <==> FineParts(encaps, t, e2.prior))
  {
    hide Imaged, Fine, FineParts;
    FineNew(w, encaps, t, e.prior, index);
  }

  /** One level of the encoder, and of what the heap and the images say about an object. */
  lemma ParamsOf(h: map<nat, TypeCode>, t: TypeCode, e: Enc, o: Order)
    requires !t.Empty? && InHeap(h, t)
    ensures t.id in h && h[t.id] == t
    ensures t.Str? ==> EncParams(t, e, o) == PutInt(e, o, 4, t.length) && KindOf(t) == if t.wide then TK_WSTRING else TK_STRING
    ensures t.Fixed? ==> EncParams(t, e, o) == PutInt(PutInt(e, o, 2, t.digits), o, 2, t.scale) && KindOf(t) == TK_FIXED
    ensures !t.Str? && !t.Fixed? ==>
      var e3 := EncBody(t, OpenEncaps(e, o), o);
      && ComplexKind(KindOf(t))
      && EncParams(t, e, o) == e3.(out := Patch(e3.out, Align(|e.out|, 4), Store(o, 4, |e3.out| - (Align(|e.out|, 4) + 4))))
  {
    hide EncBody, OpenEncaps, Patch, Store, PutInt;
  }

  /** An object without parts is complete as soon as its parameters are written. */
  lemma CompleteLeaf(h: map<nat, TypeCode>, t: TypeCode, phi: map<nat, nat>, e: Enc, st: Dec, index: nat, e4: Enc)
    returns (phi': map<nat, nat>, st': Dec)
    requires (t.Str? || t.Fixed?) && t.id !in e.prior && InHeap(h, t)
    requires Linked(h, phi, e, st) && OwnersLarger(h, phi, e, Size(t))
    requires |e.out| <= index < |e4.out| && e4.prior == e.prior[t.id := index]
    ensures Covered(phi', t)
    ensures t.Str? ==> Rename(phi', t) == Str(st.next, t.wide, t.length)
    ensures t.Fixed? ==> Rename(phi', t) == Fixed(st.next, t.digits, t.scale)
    ensures st' == Register(st.(cur := |e4.out|, next := st.next + 1), index, Rename(phi', t))
    ensures Decoded(h, phi, e, st, phi', e4, st')
  {
    hide Grows, OwnersLarger;
    var s2 := st.(cur := |e4.out|, next := st.next + 1);
    Start(h, t, phi, e, st, index, e4, s2);
    phi' := phi[t.id := st.next];
    st' := Register(s2, index, Rename(phi', t));
    Complete(h, t, phi, e, st.next, index, phi, e4, s2, e4, Rename(phi', t));
  }

  lemma CompleteBody(h: map<nat, TypeCode>, t: TypeCode, phi: map<nat, nat>, e: Enc, st: Dec, index: nat,
                     e2: Enc, s2: Dec, phi1: map<nat, nat>, e3: Enc, s3: Dec, e4: Enc)
    returns (phi': map<nat, nat>, st': Dec)
    requires !t.Empty? && t.id !in e.prior && t.id in h && h[t.id] == t
    requires Linked(h, phi, e, st)
    requires |e.out| <= index < |e2.out| && e2.prior == e.prior[t.id := index]
    requires s2 == st.(cur := |e2.out|, next := st.next + 1)
    requires Decoded(h, phi, e2, s2, phi1, e3, s3)
    requires e4.prior == e3.prior && |e4.out| == |e3.out| && |e2.out| <= |e3.out|
    requires Covered(phi1[t.id := st.next], t)
    ensures phi' == phi1[t.id := st.next] && Covered(phi', t)
    ensures st' == Register(s3, index, Rename(phi', t))
    ensures Decoded(h, phi, e, st, phi', e4, st')
  {
    hide Rename, Covered, Grows;
    phi' := phi1[t.id := st.next];
    st' := Register(s3, index, Rename(phi', t));
    NewIndexes(phi, e, index, e2, st.next + 1, phi1, e3, s3.next, t.id);
    GrowsStart(phi, e, index, e2, st.next + 1, phi1, e3, s3.next, t.id);
    Complete(h, t, phi, e, st.next, index, phi1, e3, s3, e4, Rename(phi', t));
  }

  lemma GrowsStart(phi: map<nat, nat>, e: Enc, index: nat, e2: Enc, next: nat, phi1: map<nat, nat>, e3: Enc, next3: nat, id: nat)
    requires |e.out| <= index < |e2.out| && e2.prior == e.prior[id := index]
    requires Grows(phi, e2, next, phi1, e3, next3)
    ensures Grows(phi, e.(prior := e.prior[id := index]), next, phi1, e3, next3)
  {
  }

  /** Nothing inside an object is registered at the position of the object itself. */
  lemma NewIndexes(phi: map<nat, nat>, e: Enc, index: nat, e2: Enc, next: nat, phi1: map<nat, nat>, e3: Enc, next3: nat, id: nat)
    requires forall a :: a in e.prior ==> e.prior[a] < |e.out|
    requires |e.out| <= index < |e2.out| && e2.prior == e.prior[id := index]
    requires Grows(phi, e2, next, phi1, e3, next3)
    ensures Grows(phi, e.(prior := e.prior[id := index]), next, phi1, e3, next3)
    ensures forall a :: a in e3.prior && a != id ==> e3.prior[a] != index
  {
    forall a | a in e3.prior && a != id ensures e3.prior[a] != index {
      if a in e2.prior {
        assert a in e.prior;
      }
    }
  }

  lemma GetFixed(w: Window, st: Dec, e: Enc, t: TypeCode, s1: Dec, e2: Enc)
    requires t.Fixed? && s1 == st.(cur := |e.out|) && |e2.out| <= w.end
    requires e2 == PutInt(PutInt(e, w.order, 2, t.digits), w.order, 2, t.scale)
    requires Fits(w.mem, e2.out)
    requires GetInt(w, 4, st) == Ok(TK_FIXED, s1) && |e.out| >= 4
    ensures var t' := Fixed(st.next, t.digits, t.scale);
      DecTC(w, st) == Ok(t', Register(st.(cur := |e2.out|, next := st.next + 1), |e.out| - 4, t'))
  {
    hide *;
    var e1 := PutInt(e, w.order, 2, t.digits);
    FitsPrefix(w.mem, e1.out, e2.out);
    GetPutInt(w, e, 2, t.digits, s1);
    GetPutInt(w, e1, 2, t.scale, s1.(cur := |e1.out|));
    Pow256Values();
    assert t.scale % 0x1_0000 == if t.scale >= 0 then t.scale else t.scale + 0x1_0000;
    DecTCFixed(w, st, s1, t.digits, s1.(cur := |e1.out|), t.scale, s1.(cur := |e2.out|));
  }

  /** The parameter list of an object that is being encoded, read inside its encapsulation. */
  lemma {:induction false} DecEncBody(h: map<nat, TypeCode>, w: Window, t: TypeCode, id: nat,
                                      phi: map<nat, nat>, e: Enc, st: Dec)
    returns (phi': map<nat, nat>, st': Dec)
    requires ComplexKind(KindOf(t)) && !t.Empty? && !t.Str? && !t.Fixed?
    requires InHeap(h, t) && WellFormed(t) && InRange(w, e)
    requires Linked(h, phi, e, st) && t.id in e.prior && t.id !in phi
    requires Size(t) > 0 ==> OwnersLarger(h, phi, e, Size(t) - 1)
    requires |EncBody(t, e, w.order).out| <= w.end < 0x1_0000_0000
    requires Fits(w.mem, EncBody(t, e, w.order).out)
    ensures FineParts(w, t, e.prior) ==>
      && t.id !in phi' && DecBody(w, KindOf(t), id, st) == Ok(Rename(phi'[t.id := id], t), st')
      && Covered(phi'[t.id := id], t)
      && Decoded(h, phi, e, st, phi', EncBody(t, e, w.order), st')
    ensures !FineParts(w, t, e.prior) ==> DecBody(w, KindOf(t), id, st).Fail?
    decreases t, 0, 2
  {
    hide *;
    PartsOf(h, t);
    var e' := EncBody(t, e, w.order);
    if t.Indexed? {
      BodyOfIndexed(t, e, w.order);
      var e1 := EncTC(t.content, e, w.order);
      FitsPrefix(w.mem, e1.out, e'.out);
      OwnersKept0(h, phi, e, Size(t) - 1, Size(t.content));
      var s1;
      phi', s1 := DecEncTC(h, w, t.content, phi, e, st);
      FineContent(w, t, e.prior);
      if !Fine(w, t.content, e.prior) {
        DecBodyStuck(w, KindOf(t), id, st);
        return phi, st;
      }
      DecodedParts(h, phi, e, st, phi', e1, s1);
      GetPutU32(w, e1, t.length, s1);
      st' := s1.(cur := |e'.out|);
      DecodedMove(h, phi, e, st, phi', e1, s1, e', st');
      NotImaged(phi, e, st.next, phi', e1, s1.next, t.id, id);
      RenameExtends(phi', phi'[t.id := id], t.content);
      DecBodyIndexed(w, t, id, st, s1, st', phi'[t.id := id]);
    } else {
      var e1 := PutString(e, w.order, t.repoId);
      var e2 := PutString(e1, w.order, t.name);
      BodyStartsWithNames(t, e, w.order);
      FitsPrefix(w.mem, e2.out, e'.out);
      FitsPrefix(w.mem, e1.out, e2.out);
      LinkedCur(h, phi, e, st);
      GetPutString(w, e, t.repoId, st);
      var s1 := st.(cur := |e1.out|);
      GetPutString(w, e1, t.name, s1);
      var s2 := st.(cur := |e2.out|);
      LinkedMove(h, phi, e, st, e2, s2);
      if Size(t) > 0 {
        OwnersKept(h, phi, e, st.next, phi, e2, s2.next, Size(t) - 1, Size(t) - 1);
      }
      InRangeMore(w, e, e2);
      phi', st' := DecEncNamed(h, w, t, id, phi, e2, s2, e');
      DecBodyNamed(w, t, id, st, s1, s2);
      if FineParts(w, t, e.prior) {
        DecodedTrans(h, phi, e, st, phi, e2, s2, phi, e2, s2, phi', e', st');
      }
    }
  }

  lemma FineContent(w: Window, t: TypeCode, prior: map<nat, nat>)
    requires t.Indexed? || t.Alias?
    ensures FineParts(w, t, prior) <==> Fine(w, t.content, prior)
  {
    hide LocalRefs, Here;
  }

  lemma DecBodyStuck(w: Window, kind: U32, id: nat, st: Dec)
    requires (kind == TK_SEQUENCE || kind == TK_ARRAY) && DecTC(w, st).Fail?
    ensures ComplexKind(kind) && DecBody(w, kind, id, st).Fail?
  {
    hide DecTC;
  }

  lemma OwnersKept0(h: map<nat, TypeCode>, phi: map<nat, nat>, e: Enc, size: nat, size': nat)
    requires OwnersLarger(h, phi, e, size) && size' <= size
    ensures OwnersLarger(h, phi, e, size')
  {
  }

  lemma DecodedMove(h: map<nat, TypeCode>, phi: map<nat, nat>, e: Enc, st: Dec, phi1: map<nat, nat>, e1: Enc, s1: Dec, e2: Enc, s2: Dec)
    requires Decoded(h, phi, e, st, phi1, e1, s1)
    requires e2.prior == e1.prior && |e.out| <= |e1.out| <= |e2.out| && s2 == s1.(cur := |e2.out|)
    ensures Decoded(h, phi, e, st, phi1, e2, s2)
  {
    LinkedMove(h, phi1, e1, s1, e2, s2);
    GrowsTrans(phi, e, st.next, phi1, e1, s1.next, phi1, e2, s2.next);
  }

  lemma NotImaged(phi: map<nat, nat>, e: Enc, next: nat, phi': map<nat, nat>, e': Enc, next': nat, a: nat, id: nat)
    requires Grows(phi, e, next, phi', e', next') && a in e.prior && a !in phi
    ensures a !in phi' && Extends(phi', phi'[a := id])
  {
  }

  lemma PartsOf(h: map<nat, TypeCode>, t: TypeCode)
    requires InHeap(h, t) && WellFormed(t) && !t.Empty?
    ensures t.Indexed? || t.Alias? ==> InHeap(h, t.content) && WellFormed(t.content) && Size(t) == 1 + Size(t.content)
    ensures t.Record? ==> MembersInHeap(h, t.members) && WellFormedMembers(t.members) && Size(t) == 1 + MembersSize(t.members)
    ensures t.Record? ==> forall m | m in t.members :: m.tag == 0
    ensures t.Union? ==>
      && InHeap(h, t.discriminator) && WellFormed(t.discriminator) && MembersInHeap(h, t.members) && WellFormedMembers(t.members)
      && Size(t) == 1 + Size(t.discriminator) + MembersSize(t.members)
      && LabelKind(KindOf(t.discriminator)) && KindOf(t.discriminator) != 0
      && forall m | m in t.members :: LabelFits(KindOf(t.discriminator), m.tag)
    ensures t.Indexed? ==> KindOf(t) == if t.fixedSize then TK_ARRAY else TK_SEQUENCE
  {
  }

  lemma BodyOfIndexed(t: TypeCode, e: Enc, o: Order)
    requires t.Indexed?
    ensures EncBody(t, e, o) == PutInt(EncTC(t.content, e, o), o, 4, t.length)
  {
    hide EncTC, PutInt;
  }

  lemma DecBodyIndexed(w: Window, t: TypeCode, id: nat, st: Dec, s1: Dec, s2: Dec, phi: map<nat, nat>)
    requires t.Indexed? && t.id in phi && phi[t.id] == id && Covered(phi, t.content)
    requires DecTC(w, st) == Ok(Rename(phi, t.content), s1) && GetInt(w, 4, s1) == Ok(t.length, s2)
    ensures ComplexKind(KindOf(t)) && DecBody(w, KindOf(t), id, st) == Ok(Rename(phi, t), s2)
    ensures Covered(phi, t)
  {
    hide DecTC, GetInt;
  }

  lemma BodyStartsWithNames(t: TypeCode, e: Enc, o: Order)
    requires !t.Empty? && ComplexKind(KindOf(t)) && !t.Indexed?
    ensures !t.Str? && !t.Fixed?
    ensures EncBody(t, e, o) == EncRest(t, PutString(PutString(e, o, t.repoId), o, t.name), o)
    ensures PutString(PutString(e, o, t.repoId), o, t.name).out <= EncBody(t, e, o).out
  {
    hide PutString, PutNames, PutInt, EncTC, EncMembers;
  }

  lemma DecBodyNamed(w: Window, t: TypeCode, id: nat, st: Dec, s1: Dec, s2: Dec)
    requires !t.Empty? && ComplexKind(KindOf(t)) && !t.Indexed?
    requires !t.Str? && !t.Fixed?
    requires GetString(w, st) == Ok(t.repoId, s1) && GetString(w, s1) == Ok(t.name, s2)
    ensures DecBody(w, KindOf(t), id, st) == DecRest(w, KindOf(t), id, t.repoId, t.name, s2)
  {
    hide DecTC, GetString, DecRest;
  }

  lemma {:induction false} DecEncNamed(h: map<nat, TypeCode>, w: Window, t: TypeCode, id: nat,
                                       phi: map<nat, nat>, e: Enc, st: Dec, e': Enc)
    returns (phi': map<nat, nat>, st': Dec)
    requires !t.Empty? && ComplexKind(KindOf(t)) && !t.Indexed? && !t.Str? && !t.Fixed?
    requires InHeap(h, t) && WellFormed(t) && InRange(w, e)
    requires Linked(h, phi, e, st) && t.id in e.prior && t.id !in phi
    requires Size(t) > 0 ==> OwnersLarger(h, phi, e, Size(t) - 1)
    requires e' == EncRest(t, e, w.order) && e.out <= e'.out && |e'.out| <= w.end < 0x1_0000_0000
    requires Fits(w.mem, e'.out)
    ensures FineParts(w, t, e.prior) ==>
      && t.id !in phi' && DecRest(w, KindOf(t), id, t.repoId, t.name, st) == Ok(Rename(phi'[t.id := id], t), st')
      && Covered(phi'[t.id := id], t)
      && Decoded(h, phi, e, st, phi', e', st')
    ensures !FineParts(w, t, e.prior) ==> DecRest(w, KindOf(t), id, t.repoId, t.name, st).Fail?
    decreases t, 0, 1
  {
    hide DecTC, EncTC, GetInt, GetNames, DecMembers, EncMembers, PutInt, PutNames, Linked, OwnersLarger, Grows, Fits,
         Fine, LocalRefs, LocalMembers, InRange, Here;
    LinkedCur(h, phi, e, st);
    PartsOf(h, t);
    match t {
      case ObjRef(_, _, _) =>
        phi', st' := phi, st;
        LinkedMove(h, phi, e, st, e, st);
      case Alias(_, _, _, content) =>
        OwnersKept0(h, phi, e, Size(t) - 1, Size(content));
        phi', st' := DecEncTC(h, w, content, phi, e, st);
        FineContent(w, t, e.prior);
        if !Fine(w, content, e.prior) {
          return phi, st;
        }
        DecodedParts(h, phi, e, st, phi', e', st');
        NotImaged(phi, e, st.next, phi', e', st'.next, t.id, id);
        RenameExtends(phi', phi'[t.id := id], content);
      case Enum(_, _, _, names) =>
        var e3 := PutInt(e, w.order, 4, |names|);
        FitsPrefix(w.mem, e3.out, e'.out);
        GetPutU32(w, e, |names|, st);
        GetPutNames(w, e3, names, st.(cur := |e3.out|));
        phi', st' := phi, st.(cur := |e'.out|);
        LinkedMove(h, phi, e, st, e', st');
      case Record(_, _, _, _, _) => phi', st' := DecEncRecord(h, w, t, id, phi, e, st);
      case Union(_, _, _, _, _, _) => phi', st' := DecEncUnion(h, w, t, id, phi, e, st);
    }
  }

  lemma {:induction false} DecEncRecord(h: map<nat, TypeCode>, w: Window, t: TypeCode, id: nat,
                                        phi: map<nat, nat>, e: Enc, st: Dec)
    returns (phi': map<nat, nat>, st': Dec)
    requires t.Record? && InHeap(h, t) && WellFormed(t) && InRange(w, e)
    requires Linked(h, phi, e, st) && t.id in e.prior && t.id !in phi
    requires OwnersLarger(h, phi, e, Size(t) - 1)
    requires var e' := EncMembers(t.members, PutInt(e, w.order, 4, |t.members|), w.order, 0);
      |e'.out| <= w.end < 0x1_0000_0000 && Fits(w.mem, e'.out)
    ensures GetInt(w, 4, st).Ok? && GetInt(w, 4, st).value == |t.members|
    ensures FineMembers(w, t.members, e.prior) ==>
      && DecMembers(w, GetInt(w, 4, st).st, |t.members|, 0) == Ok(RenameMembers(phi'[t.id := id], t.members), st')
      && t.id !in phi' && MembersCovered(phi'[t.id := id], t.members)
      && Decoded(h, phi, e, st, phi', EncMembers(t.members, PutInt(e, w.order, 4, |t.members|), w.order, 0), st')
    ensures !FineMembers(w, t.members, e.prior) ==> DecMembers(w, GetInt(w, 4, st).st, |t.members|, 0).Fail?
    decreases t, 0, 0
  {
    hide *;
    PartsOf(h, t);
    LinkedCur(h, phi, e, st);
    var e1 := PutInt(e, w.order, 4, |t.members|);
    var e2 := EncMembers(t.members, e1, w.order, 0);
    FitsPrefix(w.mem, e1.out, e2.out);
    GetPutU32(w, e, |t.members|, st);
    var s1 := st.(cur := |e1.out|);
    LinkedMove(h, phi, e, st, e1, s1);
    OwnersKept(h, phi, e, st.next, phi, e1, s1.next, Size(t) - 1, MembersSize(t.members));
    InRangeMore(w, e, e1);
    phi', st' := DecEncMembers(h, w, t.members, 0, phi, e1, s1);
    if !FineMembers(w, t.members, e.prior) {
      return phi, st;
    }
    DecodedTrans(h, phi, e, st, phi, e1, s1, phi, e1, s1, phi', e2, st');
    DecodedParts(h, phi, e, st, phi', e2, st');
    NotImaged(phi, e, st.next, phi', e2, st'.next, t.id, id);
    RenameMembersExtends(phi', phi'[t.id := id], t.members);
  }

  lemma {:induction false} DecEncUnion(h: map<nat, TypeCode>, w: Window, t: TypeCode, id: nat,
                                       phi: map<nat, nat>, e: Enc, st: Dec)
    returns (phi': map<nat, nat>, st': Dec)
    requires t.Union? && InHeap(h, t) && WellFormed(t) && InRange(w, e)
    requires Linked(h, phi, e, st) && t.id in e.prior && t.id !in phi
    requires OwnersLarger(h, phi, e, Size(t) - 1)
    requires |EncRest(t, e, w.order).out| <= w.end < 0x1_0000_0000 && Fits(w.mem, EncRest(t, e, w.order).out)
    ensures FineParts(w, t, e.prior) ==>
      && t.id !in phi' && DecRest(w, TK_UNION, id, t.repoId, t.name, st) == Ok(Rename(phi'[t.id := id], t), st')
      && Covered(phi'[t.id := id], t) && Decoded(h, phi, e, st, phi', EncRest(t, e, w.order), st')
    ensures !FineParts(w, t, e.prior) ==> DecRest(w, TK_UNION, id, t.repoId, t.name, st).Fail?
    decreases t, 0, 0
  {
    hide *;
    PartsOf(h, t);
    LinkedCur(h, phi, e, st);
    RestIs(t, e, w.order);
    var e1 := EncTC(t.discriminator, e, w.order);
    var e2 := PutInt(e1, w.order, 4, t.defaultIndex);
    var e3 := PutInt(e2, w.order, 4, |t.members|);
    var e4 := EncMembers(t.members, e3, w.order, KindOf(t.discriminator));
    FitsPrefix(w.mem, e3.out, e4.out);
    FitsPrefix(w.mem, e2.out, e4.out);
    FitsPrefix(w.mem, e1.out, e4.out);
    OwnersKept0(h, phi, e, Size(t) - 1, Size(t.discriminator));
    FineUnion(w, t, e);
    var phi1, s1 := DecEncTC(h, w, t.discriminator, phi, e, st);
    if !Fine(w, t.discriminator, e.prior) {
      UnionStuck(w, id, t.repoId, t.name, st);
      return phi, st;
    }
    DecodedParts(h, phi, e, st, phi1, e1, s1);
    GetPutInt(w, e1, 4, t.defaultIndex, s1);
    Signed32Of(t.defaultIndex);
    var s2 := s1.(cur := |e2.out|);
    GetPutU32(w, e2, |t.members|, s2);
    var s3 := s1.(cur := |e3.out|);
    LinkedMove(h, phi1, e1, s1, e3, s3);
    OwnersKept(h, phi, e, st.next, phi1, e1, s1.next, Size(t) - 1, MembersSize(t.members));
    OwnersKept(h, phi1, e1, s1.next, phi1, e3, s3.next, MembersSize(t.members), MembersSize(t.members));
    InRangeMore(w, e, e3);
    phi', st' := DecEncMembers(h, w, t.members, KindOf(t.discriminator), phi1, e3, s3);
    UnionMembers(w, t, phi1, id, st, s1, t.defaultIndex % Pow256(4), s2, s3);
    if !FineMembers(w, t.members, e1.prior) {
      return phi, st;
    }
    DecodedParts(h, phi1, e3, s3, phi', e4, st');
    DecodedTrans(h, phi, e, st, phi1, e1, s1, phi1, e3, s3, phi', e4, st');
    DecodedParts(h, phi, e, st, phi', e4, st');
    NotImaged(phi, e, st.next, phi', e4, st'.next, t.id, id);
    RenameExtends(phi1, phi', t.discriminator);
    RenameExtends(phi', phi'[t.id := id], t.discriminator);
    RenameMembersExtends(phi', phi'[t.id := id], t.members);
    UnionRenamed(t, phi', id);
  }

  lemma InRangeMore(w: Window, e: Enc, e': Enc)
    requires InRange(w, e) && |e.out| <= |e'.out|
    ensures InRange(w, e')
  {
  }

  lemma UnionStuck(w: Window, id: nat, repoId: CStr, name: CStr, st: Dec)
    requires DecTC(w, st).Fail?
    ensures DecRest(w, TK_UNION, id, repoId, name, st).Fail?
  {
    hide DecTC;
  }

  /** A union whose discriminator and counts have been read: the members decide. */
  lemma UnionMembers(w: Window, t: TypeCode, phi: map<nat, nat>, id: nat, st: Dec, s1: Dec, raw: nat, s2: Dec, s3: Dec)
    requires t.Union? && LabelKind(KindOf(t.discriminator))
    requires DecTC(w, st) == Ok(Rename(phi, t.discriminator), s1)
    requires GetInt(w, 4, s1) == Ok(raw, s2) && Signed32(raw) == t.defaultIndex
    requires GetInt(w, 4, s2) == Ok(|t.members|, s3)
    ensures DecRest(w, TK_UNION, id, t.repoId, t.name, st) ==
      var r := DecMembers(w, s3, |t.members|, KindOf(t.discriminator));
      if r.Fail? then Fail
      else Ok(Union(id, t.repoId, t.name, Rename(phi, t.discriminator), t.defaultIndex, r.value), r.st)
  {
    hide DecTC, GetInt, DecMembers;
  }

  lemma UnionRenamed(t: TypeCode, phi: map<nat, nat>, id: nat)
    requires t.Union?
    ensures Rename(phi[t.id := id], t)
         == Union(id, t.repoId, t.name, Rename(phi[t.id := id], t.discriminator), t.defaultIndex, RenameMembers(phi[t.id := id], t.members))
    ensures Covered(phi[t.id := id], t.discriminator) && MembersCovered(phi[t.id := id], t.members) ==> Covered(phi[t.id := id], t)
  {
  }

  lemma {:induction false} DecEncMembers(h: map<nat, TypeCode>, w: Window, ms: seq<Member>, labelKind: U32,
                                         phi: map<nat, nat>, e: Enc, st: Dec)
    returns (phi': map<nat, nat>, st': Dec)
    requires MembersInHeap(h, ms) && WellFormedMembers(ms) && InRange(w, e)
    requires forall m | m in ms :: if labelKind == 0 then m.tag == 0 else LabelKind(labelKind) && LabelFits(labelKind, m.tag)
    requires Linked(h, phi, e, st) && OwnersLarger(h, phi, e, MembersSize(ms))
    requires |EncMembers(ms, e, w.order, labelKind).out| <= w.end < 0x1_0000_0000
    requires Fits(w.mem, EncMembers(ms, e, w.order, labelKind).out)
    ensures FineMembers(w, ms, e.prior) ==>
      && DecMembers(w, st, |ms|, labelKind) == Ok(RenameMembers(phi', ms), st') && MembersCovered(phi', ms)
      && Decoded(h, phi, e, st, phi', EncMembers(ms, e, w.order, labelKind), st')
    ensures !FineMembers(w, ms, e.prior) ==> DecMembers(w, st, |ms|, labelKind).Fail?
    decreases ms, 0, 0
  {
    hide *;
    if ms == [] {
      phi', st' := phi, st;
      MembersNil(h, w, labelKind, phi, e, st);
      FineNil(w, e.prior);
    } else {
      MembersOf(h, ms, e, w.order, labelKind);
      var e1 := EncLabel(e, w.order, labelKind, ms[0].tag);
      var e2 := PutString(e1, w.order, ms[0].name);
      var e3 := EncTC(ms[0].tc, e2, w.order);
      var e4 := EncMembers(ms[1..], e3, w.order, labelKind);
      FitsPrefix(w.mem, e3.out, e4.out);
      FitsPrefix(w.mem, e2.out, e4.out);
      FitsPrefix(w.mem, e1.out, e4.out);
      assert st.cur == |e.out| by { LinkedCur(h, phi, e, st); }
      GetPutLabel(w, e, labelKind, ms[0].tag, st);
      var s1 := st.(cur := |e1.out|);
      GetPutString(w, e1, ms[0].name, s1);
      var s2 := st.(cur := |e2.out|);
      LinkedMove(h, phi, e, st, e2, s2);
      OwnersKept(h, phi, e, st.next, phi, e2, s2.next, MembersSize(ms), Size(ms[0].tc));
      InRangeMore(w, e, e2);
      InRangeMore(w, e2, e3);
      FineHead(w, ms, e2);
      var phi3, s3 := DecEncTC(h, w, ms[0].tc, phi, e2, s2);
      DecMembersStep(w, st, |ms|, labelKind, ms[0].tag, ms[0].name, s1, s2);
      if !Fine(w, ms[0].tc, e2.prior) {
        return phi, st;
      }
      DecodedParts(h, phi, e2, s2, phi3, e3, s3);
      OwnersKept(h, phi, e, st.next, phi, e2, s2.next, MembersSize(ms), MembersSize(ms[1..]));
      OwnersKept(h, phi, e2, s2.next, phi3, e3, s3.next, MembersSize(ms[1..]), MembersSize(ms[1..]));
      phi', st' := DecEncMembers(h, w, ms[1..], labelKind, phi3, e3, s3);
      if !FineMembers(w, ms[1..], e3.prior) {
        return phi, st;
      }
      DecodedParts(h, phi3, e3, s3, phi', e4, st');
      DecodedTrans(h, phi, e, st, phi, e2, s2, phi3, e3, s3, phi', e4, st');
      RenameExtends(phi3, phi', ms[0].tc);
      RenameMembersStep(phi', ms);
    }
  }

  lemma FineNil(w: Window, prior: map<nat, nat>)
    ensures FineMembers(w, [], prior)
  {
  }

  lemma LinkedCur(h: map<nat, TypeCode>, phi: map<nat, nat>, e: Enc, st: Dec)
    requires Linked(h, phi, e, st)
    ensures st.cur == |e.out|
  {
  }

  lemma DecodedParts(h: map<nat, TypeCode>, phi: map<nat, nat>, e: Enc, st: Dec,
                     phi': map<nat, nat>, e': Enc, st': Dec)
    requires Decoded(h, phi, e, st, phi', e', st')
    ensures Linked(h, phi', e', st') && Grows(phi, e, st.next, phi', e', st'.next)
    ensures Extends(phi, phi') && st'.cur == |e'.out|
  {
  }

  lemma DecodedTrans(h: map<nat, TypeCode>, phi: map<nat, nat>, e: Enc, st: Dec,
                     phi1: map<nat, nat>, e1: Enc, st1: Dec, phi2: map<nat, nat>, e2: Enc, st2: Dec,
                     phi3: map<nat, nat>, e3: Enc, st3: Dec)
    requires Grows(phi, e, st.next, phi1, e1, st1.next) && |e.out| <= |e1.out| <= |e2.out|
    requires Grows(phi1, e1, st1.next, phi2, e2, st2.next)
    requires Decoded(h, phi2, e2, st2, phi3, e3, st3)
    ensures Decoded(h, phi, e, st, phi3, e3, st3)
  {
    GrowsTrans(phi, e, st.next, phi1, e1, st1.next, phi2, e2, st2.next);
    GrowsTrans(phi, e, st.next, phi2, e2, st2.next, phi3, e3, st3.next);
  }

  lemma MembersNil(h: map<nat, TypeCode>, w: Window, labelKind: U32, phi: map<nat, nat>, e: Enc, st: Dec)
    requires Linked(h, phi, e, st)
    ensures DecMembers(w, st, 0, labelKind) == Ok(RenameMembers(phi, []), st) && MembersCovered(phi, [])
    ensures EncMembers([], e, w.order, labelKind) == e
    ensures Decoded(h, phi, e, st, phi, e, st)
  {
    LinkedMove(h, phi, e, st, e, st);
  }

  lemma MembersOf(h: map<nat, TypeCode>, ms: seq<Member>, e: Enc, o: Order, labelKind: U32)
    requires ms != [] && MembersInHeap(h, ms) && WellFormedMembers(ms)
    ensures InHeap(h, ms[0].tc) && MembersInHeap(h, ms[1..])
    ensures WellFormed(ms[0].tc) && WellFormedMembers(ms[1..])
    ensures MembersSize(ms) > Size(ms[0].tc) && MembersSize(ms) > MembersSize(ms[1..])
    ensures var e1 := EncLabel(e, o, labelKind, ms[0].tag);
      && EncMembers(ms, e, o, labelKind)
         == EncMembers(ms[1..], EncTC(ms[0].tc, PutString(e1, o, ms[0].name), o), o, labelKind)
    ensures ms[0] in ms && forall m :: m in ms[1..] ==> m in ms
  {
    hide PutInt, PutString, EncTC;
  }

  lemma DecMembersStep(w: Window, st: Dec, count: nat, labelKind: U32, tag: I32, name: CStr, s1: Dec, s2: Dec)
    requires count > 0
    requires DecLabel(w, st, labelKind) == Ok(tag, s1) && GetString(w, s1) == Ok(name, s2)
    ensures DecMembers(w, st, count, labelKind) ==
      var tc := DecTC(w, s2);
      if tc.Fail? then Fail
      else
        var rest := DecMembers(w, tc.st, count - 1, labelKind);
        if rest.Fail? then Fail else Ok([Member(tag, name, tc.value)] + rest.value, rest.st)
  {
    hide DecTC, DecLabel, GetString;
  }

  lemma RenameMembersStep(phi: map<nat, nat>, ms: seq<Member>)
    requires ms != []
    ensures RenameMembers(phi, ms) == [Member(ms[0].tag, ms[0].name, Rename(phi, ms[0].tc))] + RenameMembers(phi, ms[1..])
    ensures Covered(phi, ms[0].tc) && MembersCovered(phi, ms[1..]) ==> MembersCovered(phi, ms)
  {
  }
}

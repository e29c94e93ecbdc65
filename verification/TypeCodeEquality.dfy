/** CORBA_TypeCode_equal and CORBA_TypeCode_equivalent, and what a decoded TypeCode is equal to. */
module TypeCodeEquality {
  import opened Cdr
  import opened TypeCodes
  import opened TypeCodeRoundTrip

  /** SKIP_ALIAS. */
  function Unalias(t: TypeCode): (r: TypeCode)
    ensures !r.Alias? && (r == t || r < t)
    ensures !t.Alias? ==> r == t
    ensures Unalias(r) == r
  {
    if t.Alias? then Unalias(t.content) else t
  }

  /** typecode_equiv_internal. Member names do not count, enumerator names do. */
  predicate Equiv(a: TypeCode, b: TypeCode, strict: bool)
    decreases a
  {
    var x := if strict then a else Unalias(a);
    var y := if strict then b else Unalias(b);
    KindOf(x) == KindOf(y) &&
    match x
    case Str(_, _, length) => y.Str? && length == y.length
    case ObjRef(_, repoId, _) => y.ObjRef? && repoId == y.repoId
    case Record(_, _, repoId, _, members) =>
      y.Record? && repoId == y.repoId && |members| == |y.members| && EquivMembers(members, y.members, strict, false)
    case Union(_, repoId, _, disc, defaultIndex, members) =>
      && y.Union? && repoId == y.repoId && |members| == |y.members|
      && Equiv(disc, y.discriminator, strict) && defaultIndex == y.defaultIndex
      && EquivMembers(members, y.members, strict, true)
    case Enum(_, repoId, _, names) => y.Enum? && repoId == y.repoId && names == y.names
    case Indexed(_, _, content, length) => y.Indexed? && length == y.length && Equiv(content, y.content, strict)
    case Alias(_, repoId, _, content) => y.Alias? && repoId == y.repoId && Equiv(content, y.content, strict)
    case Fixed(_, digits, scale) => y.Fixed? && digits == y.digits && scale == y.scale
    case Empty(_) => true
  }

  predicate EquivMembers(ms: seq<Member>, ns: seq<Member>, strict: bool, labels: bool)
    requires |ms| == |ns|
    decreases ms
  {
    ms == [] ||
    (Equiv(ms[0].tc, ns[0].tc, strict) && (labels ==> ms[0].tag == ns[0].tag) && EquivMembers(ms[1..], ns[1..], strict, labels))
  }

  lemma {:induction false} EquivRefl(t: TypeCode, strict: bool)
    ensures Equiv(t, t, strict)
    decreases t
  {
    match if strict then t else Unalias(t) {
      case Record(_, _, _, _, members) => EquivMembersRefl(members, strict, false);
      case Union(_, _, _, disc, _, members) =>
        EquivRefl(disc, strict);
        EquivMembersRefl(members, strict, true);
      case Indexed(_, _, content, _) => EquivRefl(content, strict);
      case Alias(_, _, _, content) => EquivRefl(content, strict);
      case _ =>
    }
  }

  lemma {:induction false} EquivMembersRefl(ms: seq<Member>, strict: bool, labels: bool)
    ensures EquivMembers(ms, ms, strict, labels)
    decreases ms
  {
    if ms != [] {
      EquivRefl(ms[0].tc, strict);
      EquivMembersRefl(ms[1..], strict, labels);
    }
  }

  lemma {:induction false} EquivSym(a: TypeCode, b: TypeCode, strict: bool)
    requires Equiv(a, b, strict)
    ensures Equiv(b, a, strict)
    decreases a
  {
    var y := if strict then b else Unalias(b);
    match if strict then a else Unalias(a) {
      case Record(_, _, _, _, members) => EquivMembersSym(members, y.members, strict, false);
      case Union(_, _, _, disc, _, members) =>
        EquivSym(disc, y.discriminator, strict);
        EquivMembersSym(members, y.members, strict, true);
      case Indexed(_, _, content, _) => EquivSym(content, y.content, strict);
      case Alias(_, _, _, content) => EquivSym(content, y.content, strict);
      case _ =>
    }
  }

  lemma {:induction false} EquivMembersSym(ms: seq<Member>, ns: seq<Member>, strict: bool, labels: bool)
    requires |ms| == |ns| && EquivMembers(ms, ns, strict, labels)
    ensures EquivMembers(ns, ms, strict, labels)
    decreases ms
  {
    if ms != [] {
      EquivSym(ms[0].tc, ns[0].tc, strict);
      EquivMembersSym(ms[1..], ns[1..], strict, labels);
    }
  }

  lemma {:induction false} EquivTrans(a: TypeCode, b: TypeCode, c: TypeCode, strict: bool)
    requires Equiv(a, b, strict) && Equiv(b, c, strict)
    ensures Equiv(a, c, strict)
    decreases a
  {
    var y := if strict then b else Unalias(b);
    var z := if strict then c else Unalias(c);
    match if strict then a else Unalias(a) {
      case Record(_, _, _, _, members) => EquivMembersTrans(members, y.members, z.members, strict, false);
      case Union(_, _, _, disc, _, members) =>
        EquivTrans(disc, y.discriminator, z.discriminator, strict);
        EquivMembersTrans(members, y.members, z.members, strict, true);
      case Indexed(_, _, content, _) => EquivTrans(content, y.content, z.content, strict);
      case Alias(_, _, _, content) => EquivTrans(content, y.content, z.content, strict);
      case _ =>
    }
  }

  lemma {:induction false} EquivMembersTrans(ms: seq<Member>, ns: seq<Member>, os: seq<Member>, strict: bool, labels: bool)
    requires |ms| == |ns| == |os| && EquivMembers(ms, ns, strict, labels) && EquivMembers(ns, os, strict, labels)
    ensures EquivMembers(ms, os, strict, labels)
    decreases ms
  {
    if ms != [] {
      EquivTrans(ms[0].tc, ns[0].tc, os[0].tc, strict);
      EquivMembersTrans(ms[1..], ns[1..], os[1..], strict, labels);
    }
  }

  /** CORBA_TypeCode_equal implies CORBA_TypeCode_equivalent. */
  lemma {:induction false} EqualIsEquivalent(a: TypeCode, b: TypeCode)
    requires Equiv(a, b, true)
    ensures Equiv(a, b, false)
    decreases a
  {
    match a {
      case Record(_, _, _, _, members) => EqualMembersEquivalent(members, b.members, false);
      case Union(_, _, _, disc, _, members) =>
        EqualIsEquivalent(disc, b.discriminator);
        EqualMembersEquivalent(members, b.members, true);
      case Indexed(_, _, content, _) => EqualIsEquivalent(content, b.content);
      case Alias(_, _, _, content) =>
        EqualIsEquivalent(content, b.content);
        SameUnaliased(a, b, content, b.content);
      case _ =>
    }
  }

  lemma {:induction false} EqualMembersEquivalent(ms: seq<Member>, ns: seq<Member>, labels: bool)
    requires |ms| == |ns| && EquivMembers(ms, ns, true, labels)
    ensures EquivMembers(ms, ns, false, labels)
    decreases ms
  {
    if ms != [] {
      EqualIsEquivalent(ms[0].tc, ns[0].tc);
      EqualMembersEquivalent(ms[1..], ns[1..], labels);
    }
  }

  /** Equivalence looks only at what the aliases stand for. */
  lemma SameUnaliased(a: TypeCode, b: TypeCode, c: TypeCode, d: TypeCode)
    requires Unalias(a) == Unalias(c) && Unalias(b) == Unalias(d) && Equiv(c, d, false)
    ensures Equiv(a, b, false)
  {
  }

  // ----- what equality compares -----

  /** A TypeCode without what CORBA_TypeCode_equal ignores: identities, type names, member names, and the tags
      of members that have no labels. */
  function Canon(t: TypeCode): TypeCode {
    match t
    case Empty(_) => t
    case Str(_, wide, length) => Str(0, wide, length)
    case Fixed(_, digits, scale) => Fixed(0, digits, scale)
    case ObjRef(_, repoId, _) => ObjRef(0, repoId, [])
    case Record(_, except, repoId, _, members) => Record(0, except, repoId, [], CanonMembers(members, false))
    case Union(_, repoId, _, disc, defaultIndex, members) =>
      Union(0, repoId, [], Canon(disc), defaultIndex, CanonMembers(members, true))
    case Enum(_, repoId, _, names) => Enum(0, repoId, [], names)
    case Indexed(_, fixedSize, content, length) => Indexed(0, fixedSize, Canon(content), length)
    case Alias(_, repoId, _, content) => Alias(0, repoId, [], Canon(content))
  }

  function CanonMembers(ms: seq<Member>, labels: bool): (r: seq<Member>)
    ensures |r| == |ms|
  {
    if ms == [] then []
    else [Member(if labels then ms[0].tag else 0, [], Canon(ms[0].tc))] + CanonMembers(ms[1..], labels)
  }

  /** A TypeCode without its aliases. */
  function Strip(t: TypeCode): (r: TypeCode)
    ensures !r.Alias?
  {
    match t
    case Record(id, except, repoId, name, members) => Record(id, except, repoId, name, StripMembers(members))
    case Union(id, repoId, name, disc, defaultIndex, members) =>
      Union(id, repoId, name, Strip(disc), defaultIndex, StripMembers(members))
    case Indexed(id, fixedSize, content, length) => Indexed(id, fixedSize, Strip(content), length)
    case Alias(_, _, _, content) => Strip(content)
    case _ => t
  }

  function StripMembers(ms: seq<Member>): (r: seq<Member>)
    ensures |r| == |ms|
  {
    if ms == [] then [] else [Member(ms[0].tag, ms[0].name, Strip(ms[0].tc))] + StripMembers(ms[1..])
  }

  /** Two TypeCodes are equal exactly if they are the same apart from what is ignored. */
  lemma {:induction false} EqualIsCanon(a: TypeCode, b: TypeCode)
    ensures Equiv(a, b, true) <==> Canon(a) == Canon(b)
    decreases a
  {
    match a {
      case Record(_, _, _, _, members) =>
        if b.Record? && |members| == |b.members| {
          EqualMembersCanon(members, b.members, false);
        }
      case Union(_, _, _, disc, _, members) =>
        if b.Union? && |members| == |b.members| {
          EqualIsCanon(disc, b.discriminator);
          EqualMembersCanon(members, b.members, true);
        }
      case Indexed(_, _, content, _) => if b.Indexed? { EqualIsCanon(content, b.content); }
      case Alias(_, _, _, content) => if b.Alias? { EqualIsCanon(content, b.content); }
      case _ =>
    }
  }

  lemma {:induction false} EqualMembersCanon(ms: seq<Member>, ns: seq<Member>, labels: bool)
    requires |ms| == |ns|
    ensures EquivMembers(ms, ns, true, labels) <==> CanonMembers(ms, labels) == CanonMembers(ns, labels)
    decreases ms
  {
    if ms != [] {
      EqualIsCanon(ms[0].tc, ns[0].tc);
      EqualMembersCanon(ms[1..], ns[1..], labels);
      ConsEqual(Member(if labels then ms[0].tag else 0, [], Canon(ms[0].tc)), CanonMembers(ms[1..], labels),
                Member(if labels then ns[0].tag else 0, [], Canon(ns[0].tc)), CanonMembers(ns[1..], labels));
    }
  }

  lemma ConsEqual(x: Member, xs: seq<Member>, y: Member, ys: seq<Member>)
    ensures [x] + xs == [y] + ys <==> x == y && xs == ys
  {
    if [x] + xs == [y] + ys {
      assert ([x] + xs)[0] == x && ([x] + xs)[1..] == xs;
      assert ([y] + ys)[0] == y && ([y] + ys)[1..] == ys;
    }
  }

  /** Two TypeCodes are equivalent exactly if they are equal once all aliases are looked through. */
  lemma {:induction false} EquivalentIsCanon(a: TypeCode, b: TypeCode)
    ensures Equiv(a, b, false) <==> Canon(Strip(a)) == Canon(Strip(b))
    decreases a
  {
    hide EquivMembers, CanonMembers, StripMembers;
    var x, y := Unalias(a), Unalias(b);
    StripUnalias(a);
    StripUnalias(b);
    match x {
      case Record(_, _, _, _, members) =>
        if y.Record? && |members| == |y.members| {
          EquivalentMembersCanon(members, y.members, false);
        }
      case Union(_, _, _, disc, _, members) =>
        if y.Union? && |members| == |y.members| {
          EquivalentIsCanon(disc, y.discriminator);
          EquivalentMembersCanon(members, y.members, true);
        }
      case Indexed(_, _, content, _) => if y.Indexed? { EquivalentIsCanon(content, y.content); }
      case _ =>
    }
  }

  lemma {:induction false} StripUnalias(t: TypeCode)
    ensures Strip(t) == Strip(Unalias(t))
  {
    if t.Alias? {
      StripUnalias(t.content);
    }
  }

  lemma {:induction false} EquivalentMembersCanon(ms: seq<Member>, ns: seq<Member>, labels: bool)
    requires |ms| == |ns|
    ensures EquivMembers(ms, ns, false, labels)
      <==> CanonMembers(StripMembers(ms), labels) == CanonMembers(StripMembers(ns), labels)
    decreases ms
  {
    if ms != [] {
      EquivalentIsCanon(ms[0].tc, ns[0].tc);
      EquivalentMembersCanon(ms[1..], ns[1..], labels);
      StripMembersStep(ms, labels);
      StripMembersStep(ns, labels);
      ConsEqual(Member(if labels then ms[0].tag else 0, [], Canon(Strip(ms[0].tc))), CanonMembers(StripMembers(ms[1..]), labels),
                Member(if labels then ns[0].tag else 0, [], Canon(Strip(ns[0].tc))), CanonMembers(StripMembers(ns[1..]), labels));
    }
  }

  lemma StripMembersStep(ms: seq<Member>, labels: bool)
    requires ms != []
    ensures CanonMembers(StripMembers(ms), labels)
         == [Member(if labels then ms[0].tag else 0, [], Canon(Strip(ms[0].tc)))] + CanonMembers(StripMembers(ms[1..]), labels)
  {
    assert StripMembers(ms)[1..] == StripMembers(ms[1..]);
  }

  /** A TypeCode and its copy under new identities are equal. */
  lemma {:induction false} EqualRenamed(phi: map<nat, nat>, t: TypeCode)
    ensures Equiv(t, Rename(phi, t), true)
    decreases t
  {
    match t {
      case Record(_, _, _, _, members) => EqualMembersRenamed(phi, members, false);
      case Union(_, _, _, disc, _, members) =>
        EqualRenamed(phi, disc);
        EqualMembersRenamed(phi, members, true);
      case Indexed(_, _, content, _) => EqualRenamed(phi, content);
      case Alias(_, _, _, content) => EqualRenamed(phi, content);
      case _ =>
    }
  }

  lemma {:induction false} EqualMembersRenamed(phi: map<nat, nat>, ms: seq<Member>, labels: bool)
    ensures EquivMembers(ms, RenameMembers(phi, ms), true, labels)
    decreases ms
  {
    if ms != [] {
      EqualRenamed(phi, ms[0].tc);
      EqualMembersRenamed(phi, ms[1..], labels);
    }
  }

  /** MateCORBA_decode_CORBA_TypeCode after MateCORBA_encode_CORBA_TypeCode, at any position of any
      message in either byte order and whatever the padding bytes are. With 32-bit pointers, and with
      64-bit ones exactly if every object that occurs again was met first in the same encapsulation, the
      result is the TypeCode under new identities, one for each object, so sharing is kept and
      CORBA_TypeCode_equal accepts it; and exactly the bytes written are consumed. Otherwise the decoder
      stops at an indirection that it cannot follow. */
  lemma EncodeDecode(h: map<nat, TypeCode>, t: TypeCode, out: seq<Cell>, w: Window, next: nat)
    returns (phi: map<nat, nat>, st: Dec)
    requires InHeap(h, t) && WellFormed(t) && InRange(w, Enc(out, map[]))
    requires var e := EncTC(t, Enc(out, map[]), w.order); |e.out| <= w.end < 0x1_0000_0000 && Fits(w.mem, e.out)
    ensures DecTC(w, Dec(|out|, map[], next)) == if w.wide ==> Local(t) then Ok(Rename(phi, t), st) else Fail
    ensures (w.wide ==> Local(t)) ==>
      && st.cur == |EncTC(t, Enc(out, map[]), w.order).out|
      && Covered(phi, t) && (forall a, b :: a in phi && b in phi && phi[a] == phi[b] ==> a == b)
      && (forall a :: a in phi ==> next <= phi[a] < st.next)
    ensures Equiv(t, Rename(phi, t), true)
  {
    var e := Enc(out, map[]);
    FineTop(w, t);
    phi, st := DecEncTC(h, w, t, map[], e, Dec(|out|, map[], next));
    EqualRenamed(phi, t);
  }

  lemma FineTop(w: Window, t: TypeCode)
    ensures Fine(w, t, map[]) <==> (w.wide ==> Local(t))
  {
    var none: map<nat, nat> := map[];
    assert none.Keys == {} && Here(none, w.body) == {};
  }

  /** A structure with a member of some structure type and a sequence of the same type: a machine with 64-bit
      pointers cannot decode it, whatever the message around it. */
  lemma SharedElement(h: map<nat, TypeCode>, s: TypeCode, x: TypeCode, out: seq<Cell>, w: Window, next: nat)
    requires x == Record(1, false, [88], [88], [Member(0, [105], Empty(3))])
    requires s == Record(0, false, [83], [83], [Member(0, [97], x), Member(0, [98], Indexed(2, false, x, 0))])
    requires h == map[0 := s, 1 := x, 2 := s.members[1].tc]
    requires w.wide && InRange(w, Enc(out, map[]))
    requires var e := EncTC(s, Enc(out, map[]), w.order); |e.out| <= w.end && Fits(w.mem, e.out)
    ensures DecTC(w, Dec(|out|, map[], next)).Fail?
    ensures DecTC(w.(wide := false), Dec(|out|, map[], next)).Ok?
  {
    SharedIn(h, s, x);
    hide *;
    var _, _ := EncodeDecode(h, s, out, w, next);
    var _, _ := EncodeDecode(h, s, out, w.(wide := false), next);
  }

  lemma SharedIn(h: map<nat, TypeCode>, s: TypeCode, x: TypeCode)
    requires x == Record(1, false, [88], [88], [Member(0, [105], Empty(3))])
    requires s == Record(0, false, [83], [83], [Member(0, [97], x), Member(0, [98], Indexed(2, false, x, 0))])
    requires h == map[0 := s, 1 := x, 2 := s.members[1].tc]
    ensures InHeap(h, s) && WellFormed(s) && !Local(s)
  {
    assert x.members[1..] == [] && s.members[1..][1..] == [];
    assert MembersInHeap(h, []) && InHeap(h, Empty(3));
    assert MembersInHeap(h, x.members);
    assert InHeap(h, x);
    assert InHeap(h, s.members[1].tc);
    assert MembersInHeap(h, s.members[1..]) && MembersInHeap(h, s.members);
    assert WellFormedMembers(x.members) && WellFormed(x) && WellFormedMembers(s.members[1..]);
    assert Seen(Empty(3), {0, 1}) == {0, 1} && SeenMembers(x.members, {0, 1}) == {0, 1};
    assert {0} + {1} == {0, 1} && Seen(x, {0}) == {0, 1};
    assert !LocalRefs(s.members[1].tc, {0, 1}, {1}) by {
      assert !LocalRefs(x, {0, 1, 2}, {});
      assert {0, 1} + {2} == {0, 1, 2};
    }
    assert !LocalMembers(s.members[1..], {0, 1}, {1});
    assert {0, 1} - {0} == {1};
    assert {} + ({0, 1} - {0}) == {1};
    assert s.members[0].tc == x && !LocalMembers(s.members, {0}, {});
    assert {} + {0} == {0} && !LocalParts(s, {0}, {});
  }
}

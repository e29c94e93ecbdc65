/** Where the parts of a value lie in memory: the size the allocator computes, the steps of the functions
    that walk over values, and the layout of the C compiler. */
module Layout {
  import opened Common
  import opened Cdr
  import opened TypeCodes
  import opened TypeCodeEquality
  import opened Values

  /** ALIGN_VALUE, and being a multiple of an alignment. */
  function Up(x: nat, a: nat): (q: nat)
    requires a > 0
    ensures x <= q < x + a
  {
    Align(x, a)
  }

  predicate On(x: nat, a: nat)
    requires a > 0
  {
    x % a == 0
  }

  lemma UpOn(x: nat, a: nat)
    requires a > 0
    ensures On(Up(x, a), a)
  {
  }

  function Times(x: nat, n: nat): nat {
    if n == 0 then 0 else x + Times(x, n - 1)
  }

  lemma TimesStep(x: nat, n: nat)
    ensures Times(x, n) == if n == 0 then 0 else x + Times(x, n - 1)
  {
  }

  const PTR_SIZE: nat := 8
  const ANY_SIZE: nat := 24
  const SEQUENCE_SIZE: nat := 24

  /** The types whose memory the walkers handle: no null, void, Principal or fixed, and no
      empty arrays. */
  predicate Inline(t: TypeCode) {
    match t
    case Empty(kind) => PrimSize(t) > 0 || kind in {11, 12}
    case Fixed(_, _, _) => false
    case Record(_, _, _, _, members) => InlineAll(members)
    case Union(_, _, _, disc, _, members) => SwitchType(Unalias(disc)) && InlineAll(members)
    case Indexed(_, fixedSize, content, length) => Inline(content) && (fixedSize ==> length > 0)
    case Alias(_, _, _, content) => Inline(content)
    case _ => true
  }

  predicate InlineAll(ms: seq<Member>) {
    ms == [] || (Inline(ms[0].tc) && InlineAll(ms[1..]))
  }

  /** MateCORBA_TC_find_c_alignment, on a machine with 64-bit pointers; every c_align is its result. */
  function CAlign(t: TypeCode): (a: nat)
    ensures a in {1, 2, 4, 8}
  {
    match t
    case Alias(_, _, _, content) => CAlign(content)
    case Record(_, _, _, _, members) => MaxAlign(members)
    case Union(_, _, _, disc, _, members) => Max(CAlign(disc), MaxAlign(members))
    case Indexed(_, fixedSize, content, _) => if fixedSize then CAlign(content) else PTR_SIZE
    case Empty(kind) => if PrimSize(t) > 0 then PrimSize(t) else if kind in {11, 12} then PTR_SIZE else 1
    case Enum(_, _, _, _) => 4
    case Fixed(_, _, _) => 2
    case _ => PTR_SIZE
  }

  function MaxAlign(ms: seq<Member>): (a: nat)
    ensures a in {1, 2, 4, 8}
  {
    if ms == [] then 1 else Max(CAlign(ms[0].tc), MaxAlign(ms[1..]))
  }

  /** MateCORBA_gather_alloc_info. */
  function Size(t: TypeCode): nat {
    match t
    case Alias(_, _, _, content) => Size(content)
    case Record(_, _, _, _, members) => Up(FieldsEnd(members, 0), CAlign(t))
    case Union(_, _, _, disc, _, members) =>
      Up(Up(Size(disc), RisingAlign(members, 1, 1)) + MaxSize(members), CAlign(t))
    case Indexed(_, fixedSize, content, length) => if fixedSize then Times(Size(content), length) else SEQUENCE_SIZE
    case Empty(kind) => if kind == 11 then ANY_SIZE else if kind == 12 then PTR_SIZE else PrimSize(t)
    case Enum(_, _, _, _) => 4
    case Fixed(_, _, _) => 0
    case _ => PTR_SIZE
  }

  /** The end of the last field, for fields that start at `off`. */
  function FieldsEnd(ms: seq<Member>, off: nat): nat
    decreases ms
  {
    if ms == [] then off else FieldsEnd(ms[1..], Up(off, CAlign(ms[0].tc)) + Size(ms[0].tc))
  }

  function MaxSize(ms: seq<Member>): nat {
    if ms == [] then 0 else Max(Size(ms[0].tc), MaxSize(ms[1..]))
  }

  /** The alignment of the last member that is more aligned than the one before it. */
  function RisingAlign(ms: seq<Member>, prev: nat, found: nat): (a: nat)
    requires found in {1, 2, 4, 8}
    ensures a in {1, 2, 4, 8}
  {
    if ms == [] then found
    else
      var a := CAlign(ms[0].tc);
      RisingAlign(ms[1..], a, if a > prev then a else found)
  }

  // ----- the C types behind the numbers -----

  /** Size and alignment of the C types without parts: two bytes for the short kinds and wide characters, four for
      the long kinds, float and enumerators, eight for the long long kinds, the doubles and pointers, one for
      characters, booleans and octets. */
  lemma ScalarLayout(t: TypeCode)
    ensures t in {Empty(2), Empty(4), Empty(26)} ==> Size(t) == CAlign(t) == 2
    ensures t in {Empty(3), Empty(5), Empty(6)} || t.Enum? ==> Size(t) == CAlign(t) == 4
    ensures t in {Empty(7), Empty(23), Empty(24), Empty(25), Empty(12)} || t.Str? || t.ObjRef? ==> Size(t) == CAlign(t) == 8
    ensures t in {Empty(8), Empty(9), Empty(10)} ==> Size(t) == CAlign(t) == 1
    ensures t == Empty(11) || (t.Indexed? && !t.fixedSize) ==> Size(t) == 24 && CAlign(t) == 8
  {
  }

  /** The C structures of sequences and anys have the sizes that are reserved for them: the maximum, the length, the
      buffer and the release flag; the type, the value and the release flag. A pointer has the layout of a
      TypeCode reference. */
  lemma StructLayout(sequence: TypeCode, any: TypeCode)
    requires sequence == Record(0, false, [], [],
      [Member(0, [], Empty(5)), Member(0, [], Empty(5)), Member(0, [], Empty(12)), Member(0, [], Empty(8))])
    requires any == Record(0, false, [], [], [Member(0, [], Empty(12)), Member(0, [], Empty(12)), Member(0, [], Empty(8))])
    ensures Size(sequence) == SEQUENCE_SIZE && CAlign(sequence) == 8
    ensures Size(any) == ANY_SIZE && CAlign(any) == 8
  {
    hide Up;
    SequenceFields(sequence.members);
    AnyFields(any.members);
    WholeEight();
    hide *;
    RecordSize(sequence);
    RecordSize(any);
  }

  lemma RecordSize(t: TypeCode)
    requires t.Record?
    ensures Size(t) == Up(FieldsEnd(t.members, 0), CAlign(t)) && CAlign(t) == MaxAlign(t.members)
  {
    hide Up, FieldsEnd, MaxAlign;
  }

  lemma SequenceFields(ms: seq<Member>)
    requires ms == [Member(0, [], Empty(5)), Member(0, [], Empty(5)), Member(0, [], Empty(12)), Member(0, [], Empty(8))]
    ensures FieldsEnd(ms, 0) == 17 && MaxAlign(ms) == 8
  {
    hide *;
    LastFlag(ms[3]);
    var tail := [ms[2], ms[3]];
    assert tail == [ms[2]] + [ms[3]];
    OneMore(ms[2], [ms[3]], 8, 8, 8, 8);
    assert [ms[1]] + tail == [ms[1], ms[2], ms[3]];
    OneMore(ms[1], tail, 4, 4, 4, 4);
    assert [ms[0]] + [ms[1], ms[2], ms[3]] == ms;
    OneMore(ms[0], [ms[1], ms[2], ms[3]], 0, 4, 0, 4);
  }

  lemma AnyFields(ns: seq<Member>)
    requires ns == [Member(0, [], Empty(12)), Member(0, [], Empty(12)), Member(0, [], Empty(8))]
    ensures FieldsEnd(ns, 0) == 17 && MaxAlign(ns) == 8
  {
    hide *;
    LastFlag(ns[2]);
    assert [ns[1]] + [ns[2]] == [ns[1], ns[2]];
    OneMore(ns[1], [ns[2]], 8, 8, 8, 8);
    assert [ns[0]] + [ns[1], ns[2]] == ns;
    OneMore(ns[0], [ns[1], ns[2]], 0, 8, 0, 8);
  }

  lemma LastFlag(m: Member)
    requires m.tc == Empty(8)
    ensures FieldsEnd([m], 16) == 17 && MaxAlign([m]) == 1
  {
    assert [m][1..] == [];
  }

  /** A field of the given layout, in front of others. */
  lemma OneMore(m: Member, rest: seq<Member>, off: nat, a: nat, at: nat, size: nat)
    requires m.tc == Empty(if a == 4 then 5 else 12) && a in {4, 8} && size == a
    requires at % a == 0 && off <= at < off + a
    ensures FieldsEnd([m] + rest, off) == FieldsEnd(rest, at + size) && MaxAlign([m] + rest) == Max(a, MaxAlign(rest))
    ensures Max(a, 1) == a && Max(4, 8) == 8 && Max(8, 8) == 8
  {
    AlignIs(off, a, at);
    hide Up;
    assert ([m] + rest)[1..] == rest;
  }

  lemma WholeEight()
    ensures Up(17, 8) == 24
  {
  }

  // ----- alignment arithmetic -----

  /** The least multiple of `a` that is not below `x`. */
  lemma AlignIs(x: nat, a: nat, q: nat)
    requires a in {1, 2, 4, 8} && On(q, a) && x <= q < x + a
    ensures Up(x, a) == q
  {
    hide Up;
    var r := Up(x, a);
    UpOn(x, a);
    if a == 1 {
    } else if a == 2 {
      SameMultiple2(q, r);
    } else if a == 4 {
      SameMultiple4(q, r);
    } else {
      SameMultiple8(q, r);
    }
  }

  lemma SameMultiple2(q: nat, r: nat)
    requires On(q, 2) && On(r, 2) && -2 < q - r < 2
    ensures q == r
  {
  }

  lemma SameMultiple4(q: nat, r: nat)
    requires On(q, 4) && On(r, 4) && -4 < q - r < 4
    ensures q == r
  {
  }

  lemma SameMultiple8(q: nat, r: nat)
    requires On(q, 8) && On(r, 8) && -8 < q - r < 8
    ensures q == r
  {
  }

  lemma HalfMultiple(x: nat)
    ensures x % 8 == 0 ==> x % 4 == 0
    ensures x % 4 == 0 ==> x % 2 == 0
  {
    if x % 8 == 0 {
      assert x == 4 * (2 * (x / 8));
      DivModUnique(x, 4, 2 * (x / 8), 0);
    }
    if x % 4 == 0 {
      assert x == 2 * (2 * (x / 4));
      DivModUnique(x, 2, 2 * (x / 4), 0);
    }
  }

  lemma MultipleDown(x: nat, a: nat, b: nat)
    requires a in {1, 2, 4, 8} && b in {1, 2, 4, 8} && a <= b && On(x, b)
    ensures On(x, a)
  {
    HalfMultiple(x);
    if a == 1 {
    } else if a == 2 {
      if b == 4 {
      } else if b == 8 {
      }
    } else if a == 4 {
      if b == 8 {
      }
    }
  }

  lemma MultipleSum(x: nat, y: nat, a: nat)
    requires a in {1, 2, 4, 8} && On(x, a) && On(y, a)
    ensures On(x + y, a)
  {
    if a == 2 {
      assert (x + y) % 2 == 0;
    } else if a == 4 {
      assert (x + y) % 4 == 0;
    } else if a == 8 {
      assert (x + y) % 8 == 0;
    }
  }

  lemma AlignLeast(x: nat, a: nat, q: nat)
    requires a in {1, 2, 4, 8} && On(q, a) && x <= q
    ensures Up(x, a) <= q
  {
    hide Up;
    var r := Up(x, a);
    if r > q {
      AlignIs(x, a, q);
    }
  }

  lemma AlignNested(x: nat, a: nat, b: nat)
    requires a in {1, 2, 4, 8} && b in {1, 2, 4, 8} && a <= b
    ensures Up(Up(x, a), b) == Up(x, b)
  {
    hide Up;
    var r := Up(x, b);
    UpOn(x, b);
    MultipleDown(r, a, b);
    AlignLeast(x, a, r);
    AlignIs(Up(x, a), b, r);
  }

  lemma AlignMultiple(x: nat, a: nat, b: nat)
    requires a in {1, 2, 4, 8} && b in {1, 2, 4, 8} && a <= b && On(x, b)
    ensures On(x, a) && Up(x, a) == x
  {
    hide Up;
    MultipleDown(x, a, b);
    AlignIs(x, a, x);
  }

  lemma AlignShift(m: nat, x: nat, a: nat)
    requires a in {1, 2, 4, 8} && On(m, a)
    ensures Up(m + x, a) == m + Up(x, a)
  {
    hide Up;
    UpOn(x, a);
    MultipleSum(m, Up(x, a), a);
    AlignIs(m + x, a, m + Up(x, a));
  }

  /** Two parts aligned one by one end where their sum aligns, unless both overhang and the overhangs fit
      into one unit. */
  lemma AlignParts(x: nat, y: nat, c: nat)
    requires c in {1, 2, 4, 8}
    ensures Up(x, c) + Up(y, c) == Up(x + y, c) <==> On(x, c) || On(y, c) || x % c + y % c > c
  {
    hide Up;
    var p, q := Up(x, c), Up(y, c);
    UpOn(x, c);
    UpOn(y, c);
    MultipleSum(p, q, c);
    Overhang(x, c);
    Overhang(y, c);
    if p + q < x + y + c {
      AlignIs(x + y, c, p + q);
    }
  }

  lemma Overhang(x: nat, c: nat)
    requires c in {1, 2, 4, 8}
    ensures Up(x, c) == if On(x, c) then x else x - x % c + c
  {
    hide Up;
    if On(x, c) {
      AlignIs(x, c, x);
    } else {
      assert On(x - x % c + c, c);
      AlignIs(x, c, x - x % c + c);
    }
  }

  // ----- sizes -----

  /** The size of the C type: the layout rules of the C compiler for the structures the IDL compiler emits. */
  function CSizeof(t: TypeCode): nat {
    match t
    case Alias(_, _, _, content) => CSizeof(content)
    case Record(_, _, _, _, members) => Up(CFieldsEnd(members, 0), CAlign(t))
    case Union(_, _, _, disc, _, members) =>
      Up(Up(CSizeof(disc), MaxAlign(members)) + Up(MaxCSizeof(members), MaxAlign(members)), CAlign(t))
    case Indexed(_, fixedSize, content, length) => if fixedSize then Times(CSizeof(content), length) else SEQUENCE_SIZE
    case _ => Size(t)
  }

  function CFieldsEnd(ms: seq<Member>, off: nat): nat
    decreases ms
  {
    if ms == [] then off else CFieldsEnd(ms[1..], Up(off, CAlign(ms[0].tc)) + CSizeof(ms[0].tc))
  }

  function MaxCSizeof(ms: seq<Member>): nat {
    if ms == [] then 0 else Max(CSizeof(ms[0].tc), MaxCSizeof(ms[1..]))
  }

  /** The exact condition on a union, in terms of the overhangs of the discriminator's and the members'
      parts over the union's alignment. */
  predicate Good(u: TypeCode)
    requires u.Union?
  {
    var c := CAlign(u);
    var x := Up(Size(u.discriminator), RisingAlign(u.members, 1, 1)) % c;
    var y := MaxSize(u.members) % c;
    x == 0 || y == 0 || x + y > c
  }

  /** All unions within the memory of the type meet it. */
  predicate AllGood(t: TypeCode) {
    match t
    case Alias(_, _, _, content) => AllGood(content)
    case Record(_, _, _, _, members) => AllGoodMembers(members)
    case Union(_, _, _, disc, _, members) => Good(t) && AllGoodMembers(members)
    case Indexed(_, fixedSize, content, _) => fixedSize ==> AllGood(content)
    case _ => true
  }

  predicate AllGoodMembers(ms: seq<Member>) {
    ms == [] || (AllGood(ms[0].tc) && AllGoodMembers(ms[1..]))
  }

  lemma {:induction false} SwitchSize(disc: TypeCode)
    requires SwitchType(Unalias(disc))
    ensures Size(disc) == CSizeof(disc) == CAlign(disc) == PrimSize(Unalias(disc)) > 0
    decreases disc
  {
    if disc.Alias? {
      SwitchSize(disc.content);
    }
  }

  lemma {:induction false} RisingAtMost(ms: seq<Member>, prev: nat, found: nat)
    requires found in {1, 2, 4, 8}
    ensures RisingAlign(ms, prev, found) <= Max(found, MaxAlign(ms))
    decreases ms
  {
    if ms != [] {
      var a := CAlign(ms[0].tc);
      RisingAtMost(ms[1..], a, if a > prev then a else found);
    }
  }

  /** The discriminator aligned to the union, and the members aligned to the union. */
  function UnionParts(u: TypeCode): nat
    requires u.Union?
  {
    Up(Size(u.discriminator), CAlign(u)) + Up(MaxSize(u.members), CAlign(u))
  }

  lemma UnionSize(u: TypeCode)
    requires u.Union? && SwitchType(Unalias(u.discriminator))
    ensures Size(u) == UnionParts(u) <==> Good(u)
  {
    hide Up;
    var c, a := CAlign(u), RisingAlign(u.members, 1, 1);
    RisingAtMost(u.members, 1, 1);
    var d := Size(u.discriminator);
    AlignNested(d, a, c);
    AlignParts(Up(d, a), MaxSize(u.members), c);
  }

  /** What the compiler lays out is what the walkers step over. */
  lemma UnionLayout(u: TypeCode)
    requires u.Union? && SwitchType(Unalias(u.discriminator)) && MaxCSizeof(u.members) == MaxSize(u.members)
    ensures CSizeof(u) == UnionParts(u)
  {
    hide Up;
    SwitchSize(u.discriminator);
    var c, a := CAlign(u), MaxAlign(u.members);
    var d, sz := Size(u.discriminator), MaxSize(u.members);
    if c == a {
      UpOn(d, a);
      UpOn(sz, a);
      MultipleSum(Up(d, a), Up(sz, a), a);
      AlignIs(Up(d, a) + Up(sz, a), c, Up(d, a) + Up(sz, a));
    } else {
      AlignMultiple(d, a, c);
      AlignIs(d, c, d);
      AlignShift(d, Up(sz, a), c);
      AlignNested(sz, a, c);
    }
  }

  /** The allocator's size of a union is the compiler's exactly when the condition holds. */
  lemma UnionSizeof(u: TypeCode)
    requires u.Union? && SwitchType(Unalias(u.discriminator)) && MaxCSizeof(u.members) == MaxSize(u.members)
    ensures Size(u) == CSizeof(u) <==> Good(u)
  {
    UnionSize(u);
    UnionLayout(u);
  }

  lemma {:induction false} SizeIsSizeof(t: TypeCode)
    requires Inline(t) && AllGood(t)
    ensures Size(t) == CSizeof(t)
    decreases t
  {
    hide Up, Good;
    match t {
      case Record(_, _, _, _, members) => FieldsAreSizeof(members, 0);
      case Union(_, _, _, _, _, members) =>
        MaxIsSizeof(members);
        UnionSizeof(t);
      case Indexed(_, _, content, _) => if t.fixedSize { SizeIsSizeof(content); }
      case Alias(_, _, _, content) => SizeIsSizeof(content);
      case _ =>
    }
  }

  lemma {:induction false} FieldsAreSizeof(ms: seq<Member>, off: nat)
    requires InlineAll(ms) && AllGoodMembers(ms)
    ensures FieldsEnd(ms, off) == CFieldsEnd(ms, off)
    decreases ms
  {
    hide Up, Size, CSizeof, CAlign, Inline, AllGood;
    if ms != [] {
      SizeIsSizeof(ms[0].tc);
      FieldsAreSizeof(ms[1..], Up(off, CAlign(ms[0].tc)) + Size(ms[0].tc));
    }
  }

  lemma {:induction false} MaxIsSizeof(ms: seq<Member>)
    requires InlineAll(ms) && AllGoodMembers(ms)
    ensures MaxSize(ms) == MaxCSizeof(ms)
    decreases ms
  {
    hide Size, CSizeof, Inline, AllGood;
    if ms != [] {
      SizeIsSizeof(ms[0].tc);
      MaxIsSizeof(ms[1..]);
    }
  }

  /** Alignments that never decrease from member to member. */
  predicate Rising(ms: seq<Member>, prev: nat)
    decreases ms
  {
    ms == [] || (CAlign(ms[0].tc) >= prev && Rising(ms[1..], CAlign(ms[0].tc)))
  }

  lemma {:induction false} RisingIsMax(ms: seq<Member>, prev: nat)
    requires prev in {1, 2, 4, 8} && Rising(ms, prev)
    ensures RisingAlign(ms, prev, prev) == Max(prev, MaxAlign(ms))
    decreases ms
  {
    if ms != [] {
      RisingIsMax(ms[1..], CAlign(ms[0].tc));
    }
  }

  /** Unions with rising members meet the condition. */
  lemma RisingIsGood(u: TypeCode)
    requires u.Union? && SwitchType(Unalias(u.discriminator)) && Rising(u.members, 1)
    ensures Good(u)
  {
    hide Up;
    SwitchSize(u.discriminator);
    RisingIsMax(u.members, 1);
    var c, a := CAlign(u), MaxAlign(u.members);
    UpOn(Size(u.discriminator), a);
    if c != a {
      AlignMultiple(Size(u.discriminator), a, c);
    }
  }

  /** A union for which the allocator reserves less than the compiler: a double, twelve characters and a short.
      The last alignment that rises is the short's, so the body is taken to start at 4 and not at 8. */
  lemma ShortUnion(u: TypeCode)
    requires u == Union(0, [], [], Empty(3), -1,
      [Member(0, [], Empty(7)), Member(1, [], Indexed(1, true, Empty(9), 12)), Member(2, [], Empty(2))])
    ensures Inline(u) && !Good(u) && Size(u) == 16 && CSizeof(u) == 24
  {
    hide *;
    ShortMembers(u.members);
    OneUnion(u);
    ShortSizeEnds();
    ShortSizeofEnds();
  }

  lemma ShortSizeEnds()
    ensures Up(4, 2) == 4 && Up(16, 8) == 16 && 4 % 8 == 4 && 12 % 8 == 4
  {
  }

  lemma ShortSizeofEnds()
    ensures Up(4, 8) == 8 && Up(12, 8) == 16 && Up(24, 8) == 24
  {
  }

  /** One level of the functions on a union with a long discriminator and a double. */
  lemma OneUnion(u: TypeCode)
    requires u.Union? && u.discriminator == Empty(3) && MaxAlign(u.members) == 8 && InlineAll(u.members)
    ensures Inline(u) && CAlign(u) == 8
    ensures Size(u) == Up(Up(4, RisingAlign(u.members, 1, 1)) + MaxSize(u.members), 8)
    ensures CSizeof(u) == Up(Up(4, 8) + Up(MaxCSizeof(u.members), 8), 8)
    ensures var x, y := Up(4, RisingAlign(u.members, 1, 1)), MaxSize(u.members);
      Good(u) <==> x % 8 == 0 || y % 8 == 0 || x % 8 + y % 8 > 8
  {
    hide Up, MaxAlign, InlineAll, RisingAlign, MaxSize, MaxCSizeof;
  }

  lemma ShortMembers(ms: seq<Member>)
    requires ms == [Member(0, [], Empty(7)), Member(1, [], Indexed(1, true, Empty(9), 12)), Member(2, [], Empty(2))]
    ensures InlineAll(ms) && MaxAlign(ms) == 8 && MaxSize(ms) == MaxCSizeof(ms) == 12 && RisingAlign(ms, 1, 1) == 2
  {
    hide Up;
    var a, b, c := ms[0].tc, ms[1].tc, ms[2].tc;
    assert ms[1..] == [ms[1], ms[2]] && ms[1..][1..] == [ms[2]] && [ms[2]][1..] == [];
    TwelveChars();
    assert CAlign(a) == Size(a) == CSizeof(a) == 8 && CAlign(c) == Size(c) == CSizeof(c) == 2;
    assert CAlign(b) == 1 && Size(b) == CSizeof(b) == 12;
    assert Inline(a) && Inline(b) && Inline(c);
    hide CAlign, Size, CSizeof, Inline, Times;
    assert InlineAll([]) && InlineAll([ms[2]]) && InlineAll(ms[1..]);
    assert MaxAlign([ms[2]]) == 2 && MaxSize([ms[2]]) == 2 && MaxCSizeof([ms[2]]) == 2;
    assert MaxAlign(ms[1..]) == 2 && MaxSize(ms[1..]) == 12 && MaxCSizeof(ms[1..]) == 12;
    assert RisingAlign([ms[2]], 1, 8) == 2 && RisingAlign(ms[1..], 8, 8) == 2;
  }

  lemma TwelveChars()
    ensures Times(1, 12) == 12
  {
    assert Times(1, 4) == 4 && Times(1, 8) == 4 + Times(1, 4) && Times(1, 12) == 4 + Times(1, 8);
  }

  // ----- marshal, demarshal, copy -----

  /** MateCORBA_copy_value_core, on either of its two cursors: it moves by the size the allocator computed, and
      meets every part where the layout puts it. As in the other walks a union is followed by each of its
      members in turn. */
  method CopyWalk(t: TypeCode, val0: nat) returns (val: nat, visits: seq<Part>)
    requires Inline(t)
    ensures val == val0 + Size(t) && visits == Parts(t, val0)
    decreases t, 0
  {
    hide Up, CAlign, SwitchType, PrimSize, InlineAll, FieldParts, BodyParts, RepeatedParts, FieldsEnd, Times, MaxSize, RisingAlign;
    var vs;
    if t.Alias? {
      val, visits := CopyWalk(t.content, val0);
    } else if t.Record? {
      var offset;
      offset, vs := CopyFields(t.members, val0);
      val, visits := val0 + Up(offset, CAlign(t)), [Part(val0, t)] + vs;
    } else if t.Union? {
      vs := CopyBodies(t.members, val0 + Up(Size(t.discriminator), CAlign(t)));
      val, visits := val0 + Size(t), [Part(val0, t)] + vs;
    } else if t.Indexed? && t.fixedSize {
      val, visits := CopyElements(t.content, t.length, val0);
    } else {
      val, visits := val0 + if t.Indexed? then SEQUENCE_SIZE else Size(t), [Part(val0, t)];
    }
  }

  method CopyFields(members: seq<Member>, val0: nat) returns (offset: nat, visits: seq<Part>)
    requires InlineAll(members)
    ensures offset == FieldsEnd(members, 0) && visits == FieldParts(members, val0, 0)
    decreases members, 0
  {
    hide Up, CAlign, Size, Parts, Inline;
    visits, offset := [], 0;
    for i := 0 to |members|
      invariant InlineAll(members[i..]) && 0 <= offset && FieldsEnd(members, 0) == FieldsEnd(members[i..], offset)
      invariant FieldParts(members, val0, 0) == visits + FieldParts(members[i..], val0, offset)
    {
      assert members[i..][0] == members[i] && members[i..][1..] == members[i + 1..];
      var at := Up(offset, CAlign(members[i].tc));
      var _, vs := CopyWalk(members[i].tc, val0 + at);
      visits := visits + vs;
      offset := at + Size(members[i].tc);
    }
    assert members[|members|..] == [] && visits + [] == visits;
  }

  method CopyBodies(members: seq<Member>, body: nat) returns (visits: seq<Part>)
    requires InlineAll(members)
    ensures visits == BodyParts(members, body)
    decreases members, 0
  {
    hide Parts, Inline;
    visits := [];
    for i := 0 to |members|
      invariant InlineAll(members[i..])
      invariant BodyParts(members, body) == visits + BodyParts(members[i..], body)
    {
      assert members[i..][0] == members[i] && members[i..][1..] == members[i + 1..];
      var _, vs := CopyWalk(members[i].tc, body);
      visits := visits + vs;
    }
    assert members[|members|..] == [] && visits + [] == visits;
  }

  method CopyElements(t: TypeCode, n: nat, val0: nat) returns (val: nat, visits: seq<Part>)
    requires Inline(t)
    ensures val == val0 + Times(Size(t), n) && visits == RepeatedParts(t, n, val0)
    decreases t, 1
  {
    hide Parts, Inline, Size;
    val, visits := val0, [];
    for i := 0 to n
      invariant val + Times(Size(t), n - i) == val0 + Times(Size(t), n)
      invariant RepeatedParts(t, n, val0) == visits + RepeatedParts(t, n - i, val)
    {
      var vs;
      val, vs := CopyWalk(t, val);
      visits := visits + vs;
    }
    assert visits + [] == visits;
  }

  /** How far marshal and demarshal move over a value in memory. */
  function Walk(t: TypeCode): nat {
    match t
    case Alias(_, _, _, content) => Walk(content)
    case Union(_, _, _, _, _, _) => UnionParts(t)
    case Indexed(_, fixedSize, content, length) => if fixedSize then Times(Walk(content), length) else SEQUENCE_SIZE
    case _ => Size(t)
  }

  predicate WalkOk(t: TypeCode) {
    match t
    case Alias(_, _, _, content) => WalkOk(content)
    case Union(_, _, _, _, _, _) => Good(t)
    case Indexed(_, fixedSize, content, length) => !fixedSize || WalkOk(content)
    case _ => true
  }

  /** They move by the size the allocator computed exactly when an outermost union, or one in an outermost
      array, meets the condition; inside structures the offsets come from the allocator's sizes anyway. */
  lemma {:induction false} WalkIsSize(t: TypeCode)
    requires Inline(t)
    ensures Walk(t) == Size(t) <==> WalkOk(t)
    decreases t
  {
    hide Up, Good;
    match t {
      case Alias(_, _, _, content) => WalkIsSize(content);
      case Union(_, _, _, _, _, _) => UnionSize(t);
      case Indexed(_, fixedSize, content, length) =>
        if fixedSize {
          WalkIsSize(content);
          TimesOrdered(Walk(content), Size(content), length);
          TimesOrdered(Size(content), Walk(content), length);
        }
      case _ =>
    }
  }

  lemma {:induction false} TimesOrdered(a: nat, b: nat, n: nat)
    ensures a < b && n > 0 ==> Times(a, n) < Times(b, n)
  {
    if n > 1 {
      TimesOrdered(a, b, n - 1);
    }
  }

  // ----- freeing -----

  /** A part of a value, and where it is taken to be. */
  datatype Part = Part(addr: nat, tc: TypeCode)

  /** MateCORBA_freekids_via_TypeCode_T: where it stops. */
  function FreeWalk(t: TypeCode, mem: nat): nat
    decreases t, 0
  {
    match t
    case Alias(_, _, _, content) => FreeWalk(content, mem)
    case Record(_, _, _, _, members) => Up(FreeFields(members, Up(mem, CAlign(t))), CAlign(t))
    case Union(_, _, _, disc, _, members) =>
      Up(Up(mem, CAlign(t)) + Size(disc), MaxAlign(members)) + MaxSize(members)
    case Indexed(_, fixedSize, content, length) =>
      if fixedSize then FreeRepeated(content, length, mem) else mem + SEQUENCE_SIZE
    case Empty(kind) =>
      if kind == 11 then mem + ANY_SIZE else if kind == 12 then mem + PTR_SIZE else Up(mem, CAlign(t)) + Size(t)
    case Enum(_, _, _, _) => Up(mem, 4) + 4
    case _ => mem + PTR_SIZE
  }

  function FreeFields(ms: seq<Member>, mem: nat): nat
    decreases ms, 0
  {
    if ms == [] then mem else FreeFields(ms[1..], FreeWalk(ms[0].tc, Up(mem, CAlign(ms[0].tc))))
  }

  function FreeRepeated(t: TypeCode, n: nat, mem: nat): nat
    decreases t, 1, n
  {
    if n == 0 then mem else FreeRepeated(t, n - 1, FreeWalk(t, mem))
  }

  /** The parts it visits, and where it takes them to be. A union is followed by each of its members in
      turn, because any of them may be the one in use. */
  function FreeVisits(t: TypeCode, mem: nat): seq<Part>
    decreases t, 0
  {
    match t
    case Alias(_, _, _, content) => FreeVisits(content, mem)
    case Record(_, _, _, _, members) => [Part(Up(mem, CAlign(t)), t)] + FieldVisits(members, Up(mem, CAlign(t)))
    case Union(_, _, _, disc, _, members) =>
      [Part(Up(mem, CAlign(t)), t)]
      + BodyVisits(members, Up(Up(mem, CAlign(t)) + Size(disc), MaxAlign(members)))
    case Indexed(_, fixedSize, content, length) =>
      if fixedSize then RepeatedVisits(content, length, mem) else [Part(mem, t)]
    case Empty(kind) => [Part(if kind in {11, 12} then mem else Up(mem, CAlign(t)), t)]
    case Enum(_, _, _, _) => [Part(Up(mem, 4), t)]
    case _ => [Part(mem, t)]
  }

  function FieldVisits(ms: seq<Member>, mem: nat): seq<Part>
    decreases ms, 0
  {
    if ms == [] then []
    else
      var at := Up(mem, CAlign(ms[0].tc));
      FreeVisits(ms[0].tc, at) + FieldVisits(ms[1..], FreeWalk(ms[0].tc, at))
  }

  function BodyVisits(ms: seq<Member>, mem: nat): seq<Part>
    decreases ms, 0
  {
    if ms == [] then [] else FreeVisits(ms[0].tc, mem) + BodyVisits(ms[1..], mem)
  }

  function RepeatedVisits(t: TypeCode, n: nat, mem: nat): seq<Part>
    decreases t, 1, n
  {
    if n == 0 then [] else FreeVisits(t, mem) + RepeatedVisits(t, n - 1, FreeWalk(t, mem))
  }

  /** The same parts where marshal, demarshal and copy put them. */
  function Parts(t: TypeCode, mem: nat): seq<Part>
    decreases t, 0
  {
    match t
    case Alias(_, _, _, content) => Parts(content, mem)
    case Record(_, _, _, _, members) => [Part(mem, t)] + FieldParts(members, mem, 0)
    case Union(_, _, _, disc, _, members) => [Part(mem, t)] + BodyParts(members, mem + Up(Size(disc), CAlign(t)))
    case Indexed(_, fixedSize, content, length) => if fixedSize then RepeatedParts(content, length, mem) else [Part(mem, t)]
    case _ => [Part(mem, t)]
  }

  function FieldParts(ms: seq<Member>, start: nat, off: nat): seq<Part>
    decreases ms, 0
  {
    if ms == [] then []
    else
      var at := Up(off, CAlign(ms[0].tc));
      Parts(ms[0].tc, start + at) + FieldParts(ms[1..], start, at + Size(ms[0].tc))
  }

  function BodyParts(ms: seq<Member>, mem: nat): seq<Part>
    decreases ms, 0
  {
    if ms == [] then [] else Parts(ms[0].tc, mem) + BodyParts(ms[1..], mem)
  }

  function RepeatedParts(t: TypeCode, n: nat, mem: nat): seq<Part>
    decreases t, 1, n
  {
    if n == 0 then [] else Parts(t, mem) + RepeatedParts(t, n - 1, mem + Size(t))
  }

  /** How much the end of a freed value falls short of the end of the value: a union stops behind its
      largest member, wherever the union ends. */
  function Shortfall(t: TypeCode): nat {
    match t
    case Alias(_, _, _, content) => Shortfall(content)
    case Union(_, _, _, _, _, members) => Up(MaxSize(members), CAlign(t)) - MaxSize(members)
    case Indexed(_, fixedSize, content, length) => if fixedSize then Shortfall(content) else 0
    case _ => 0
  }

  /** No field starts in the gap that a union before it leaves. */
  predicate FreeOk(t: TypeCode) {
    match t
    case Alias(_, _, _, content) => FreeOk(content)
    case Record(_, _, _, _, members) => FieldsFreeOk(members, 0)
    case Union(_, _, _, _, _, members) => BodiesFreeOk(members)
    case Indexed(_, fixedSize, content, length) => !fixedSize || FreeOk(content)
    case _ => true
  }

  predicate FieldsFreeOk(ms: seq<Member>, gap: nat)
    decreases ms
  {
    ms == [] || (gap < CAlign(ms[0].tc) && FreeOk(ms[0].tc) && FieldsFreeOk(ms[1..], Shortfall(ms[0].tc)))
  }

  predicate BodiesFreeOk(ms: seq<Member>) {
    ms == [] || (FreeOk(ms[0].tc) && BodiesFreeOk(ms[1..]))
  }

  lemma {:induction false} TimesOn(x: nat, n: nat, a: nat)
    requires a in {1, 2, 4, 8} && On(x, a)
    ensures On(Times(x, n), a)
  {
    if n > 0 {
      TimesOn(x, n - 1, a);
      MultipleSum(x, Times(x, n - 1), a);
    }
  }

  /** Elements that follow each other without gaps stay aligned. */
  lemma {:induction false} SizeAligned(t: TypeCode)
    requires Inline(t)
    ensures On(Size(t), CAlign(t))
    decreases t
  {
    hide Up;
    match t {
      case Alias(_, _, _, content) => SizeAligned(content);
      case Record(_, _, _, _, members) => UpOn(FieldsEnd(members, 0), CAlign(t));
      case Union(_, _, _, disc, _, members) => UpOn(Up(Size(disc), RisingAlign(members, 1, 1)) + MaxSize(members), CAlign(t));
      case Indexed(_, _, content, length) =>
        if t.fixedSize {
          SizeAligned(content);
          TimesOn(Size(content), length, CAlign(content));
        }
      case _ =>
    }
  }

  lemma {:induction false} GapSmall(t: TypeCode)
    ensures Shortfall(t) < CAlign(t)
    decreases t
  {
    hide Up;
    match t {
      case Alias(_, _, _, content) => GapSmall(content);
      case Indexed(_, _, content, _) => GapSmall(content);
      case _ =>
    }
  }

  /** A gap before an aligned end is closed by the alignment of what follows exactly if it is smaller. */
  lemma GapAlign(start: nat, off: nat, gap: nat, p: nat, a: nat)
    requires a in {1, 2, 4, 8} && p in {1, 2, 4, 8} && On(start, a) && On(off, p) && gap < p && gap <= off
    ensures Up(start + off - gap, a) == start + Up(off, a) <==> gap < a
  {
    hide Up;
    var mem, q := start + off - gap, start + Up(off, a);
    UpOn(off, a);
    MultipleSum(start, Up(off, a), a);
    if On(off, a) {
      AlignIs(off, a, off);
      if gap < a {
        AlignIs(mem, a, q);
      }
    } else {
      if a <= p {
        MultipleDown(off, a, p);
      }
      MultipleDown(Up(off, a), p, a);
      MultipleStep(off, Up(off, a), p, a);
      AlignIs(mem, a, q);
    }
  }

  lemma MultipleStep(x: nat, y: nat, p: nat, a: nat)
    requires p in {1, 2, 4, 8} && a in {1, 2, 4, 8} && p <= a && On(x, p) && On(y, p) && x <= y < x + a
    ensures y <= x + a - p
  {
    hide *;
    if p == 8 {
      var i := Multiple8(x);
      var j := Multiple8(y);
    } else if p == 4 {
      var i := Multiple4(x);
      var j := Multiple4(y);
    } else if p == 2 {
      var i := Multiple2(x);
      var j := Multiple2(y);
    }
  }

  lemma Multiple2(x: nat) returns (k: nat)
    requires On(x, 2)
    ensures x == 2 * k
  {
    k := x / 2;
  }

  lemma Multiple4(x: nat) returns (k: nat)
    requires On(x, 4)
    ensures x == 4 * k
  {
    k := x / 4;
  }

  lemma Multiple8(x: nat) returns (k: nat)
    requires On(x, 8)
    ensures x == 8 * k
  {
    k := x / 8;
  }

  lemma ZeroOn()
    ensures On(0, 1)
  {
  }

  lemma AlignedStays(x: nat, a: nat)
    requires a in {1, 2, 4, 8} && On(x, a)
    ensures Up(x, a) == x
  {
    AlignIs(x, a, x);
  }

  lemma {:induction false} SameLength(t: TypeCode, mem: nat, at: nat)
    ensures |FreeVisits(t, mem)| == |Parts(t, at)|
    decreases t, 0
  {
    hide Up, CAlign, Size, MaxAlign, FieldVisits, FieldParts, BodyVisits, BodyParts, RepeatedVisits, RepeatedParts;
    match t {
      case Alias(_, _, _, content) => SameLength(content, mem, at);
      case Record(_, _, _, _, members) => SameFieldsLength(members, Up(mem, CAlign(t)), at, 0);
      case Union(_, _, _, disc, _, members) =>
        SameBodyLength(members, Up(Up(mem, CAlign(t)) + Size(disc), MaxAlign(members)), at + Up(Size(disc), CAlign(t)));
      case Indexed(_, fixedSize, content, length) => if fixedSize { SameRepeatedLength(content, length, mem, at); }
      case _ =>
    }
  }

  lemma {:induction false} SameFieldsLength(ms: seq<Member>, mem: nat, start: nat, off: nat)
    ensures |FieldVisits(ms, mem)| == |FieldParts(ms, start, off)|
    decreases ms, 0
  {
    hide *;
    if ms == [] {
      NoFields(mem, start, off);
    } else {
      var a, at := Up(mem, CAlign(ms[0].tc)), Up(off, CAlign(ms[0].tc));
      FieldsStep(ms, mem, start, off);
      SameLength(ms[0].tc, a, start + at);
      SameFieldsLength(ms[1..], FreeWalk(ms[0].tc, a), start, at + Size(ms[0].tc));
    }
  }

  lemma NoFields(mem: nat, start: nat, off: nat)
    ensures FieldVisits([], mem) == [] && FieldParts([], start, off) == [] && FreeFields([], mem) == mem && FieldsEnd([], off) == off
    ensures forall gap :: FieldsFreeOk([], gap)
  {
  }

  /** The first field and the rest. */
  lemma FieldsStep(ms: seq<Member>, mem: nat, start: nat, off: nat)
    requires ms != []
    ensures
      var t := ms[0].tc;
      var a, at := Up(mem, CAlign(t)), Up(off, CAlign(t));
      && FieldVisits(ms, mem) == FreeVisits(t, a) + FieldVisits(ms[1..], FreeWalk(t, a))
      && FieldParts(ms, start, off) == Parts(t, start + at) + FieldParts(ms[1..], start, at + Size(t))
      && FreeFields(ms, mem) == FreeFields(ms[1..], FreeWalk(t, a))
      && FieldsEnd(ms, off) == FieldsEnd(ms[1..], at + Size(t))
  {
    hide Up, FreeVisits, FreeWalk, Parts, Size, CAlign;
  }

  lemma MembersStep(ms: seq<Member>, gap: nat)
    requires ms != []
    ensures var t := ms[0].tc;
      && (InlineAll(ms) ==> Inline(t) && InlineAll(ms[1..]))
      && (AllGoodMembers(ms) ==> AllGood(t) && AllGoodMembers(ms[1..]))
      && CAlign(t) <= MaxAlign(ms) && MaxAlign(ms[1..]) <= MaxAlign(ms)
      && (FieldsFreeOk(ms, gap) <==> gap < CAlign(t) && FreeOk(t) && FieldsFreeOk(ms[1..], Shortfall(t)))
  {
    hide Up, FreeOk, Inline, AllGood, Shortfall;
  }

  lemma {:induction false} SameBodyLength(ms: seq<Member>, mem: nat, at: nat)
    ensures |BodyVisits(ms, mem)| == |BodyParts(ms, at)|
    decreases ms, 0
  {
    hide FreeVisits, Parts;
    if ms != [] {
      SameLength(ms[0].tc, mem, at);
      SameBodyLength(ms[1..], mem, at);
    }
  }

  lemma {:induction false} SameRepeatedLength(t: TypeCode, n: nat, mem: nat, at: nat)
    ensures |RepeatedVisits(t, n, mem)| == |RepeatedParts(t, n, at)|
    decreases t, 1, n
  {
    hide FreeVisits, Parts, FreeWalk, Size;
    if n > 0 {
      SameLength(t, mem, at);
      SameRepeatedLength(t, n - 1, FreeWalk(t, mem), at + Size(t));
    }
  }

  lemma SplitEqual<T>(a: seq<T>, b: seq<T>, c: seq<T>, d: seq<T>)
    requires |a| == |c|
    ensures a + b == c + d <==> a == c && b == d
  {
    if a + b == c + d {
      assert a == (a + b)[..|a|] && c == (c + d)[..|c|];
      assert b == (a + b)[|a|..] && d == (c + d)[|c|..];
    }
  }

  /** The walker is at a value that starts at `e`: there, or in a gap before it that it closes itself. */
  predicate Before(t: TypeCode, mem: nat, e: nat) {
    On(e, CAlign(t)) && (mem == e || (Shortfall(t) > 0 && Up(mem, CAlign(t)) == e))
  }

  lemma BeforeSelf(t: TypeCode, e: nat)
    ensures On(e, CAlign(t)) ==> Before(t, e, e)
  {
  }

  lemma UnionBody(t: TypeCode, mem: nat, e: nat)
    requires t.Union? && Inline(t) && Before(t, mem, e)
    ensures
      var b := e + Up(Size(t.discriminator), CAlign(t));
      && Up(mem, CAlign(t)) == e && On(b, CAlign(t))
      && Up(Up(mem, CAlign(t)) + Size(t.discriminator), MaxAlign(t.members)) == b
  {
    hide Up;
    var c, a, d := CAlign(t), MaxAlign(t.members), Size(t.discriminator);
    AlignedStays(e, c);
    SwitchSize(t.discriminator);
    UpOn(d, c);
    MultipleSum(e, Up(d, c), c);
    MultipleDown(e, a, c);
    AlignShift(e, d, a);
    if c != a {
      AlignMultiple(d, a, c);
      AlignedStays(d, c);
    }
  }

  /** Where freeing a value stops. */
  lemma {:induction false} FreeEnds(t: TypeCode, mem: nat, e: nat)
    requires Inline(t) && AllGood(t) && FreeOk(t) && Before(t, mem, e)
    ensures Shortfall(t) <= Size(t) && FreeWalk(t, mem) == e + Size(t) - Shortfall(t)
    decreases t, 0
  {
    hide Up, Good;
    AlignedStays(e, CAlign(t));
    match t {
      case Alias(_, _, _, content) => FreeEnds(content, mem, e);
      case Record(_, _, _, _, members) =>
        ZeroOn();
        FieldsEndFree(members, e, e, 0, 0, 1, CAlign(t));
      case Union(_, _, _, _, _, members) => UnionEndFree(t, mem, e);
      case Indexed(_, fixedSize, content, length) => if fixedSize { RepeatedEndFree(content, length, mem, e); }
      case _ =>
    }
  }

  lemma UnionEndFree(t: TypeCode, mem: nat, e: nat)
    requires t.Union? && Inline(t) && Good(t) && Before(t, mem, e)
    ensures Shortfall(t) <= Size(t) && FreeWalk(t, mem) == e + Size(t) - Shortfall(t)
  {
    hide Up, Good, Size, CAlign, MaxSize, MaxAlign, Inline;
    UnionBody(t, mem, e);
    InlineSwitch(t);
    UnionSize(t);
  }

  lemma InlineSwitch(t: TypeCode)
    requires t.Union? && Inline(t)
    ensures SwitchType(Unalias(t.discriminator))
  {
  }

  lemma {:induction false} FieldsEndFree(ms: seq<Member>, mem: nat, start: nat, off: nat, gap: nat, p: nat, c: nat)
    requires InlineAll(ms) && AllGoodMembers(ms) && FieldsFreeOk(ms, gap)
    requires p in {1, 2, 4, 8} && c in {1, 2, 4, 8} && MaxAlign(ms) <= c && p <= c && On(start, c)
    requires gap <= off && gap < p && On(off, p) && mem == start + off - gap
    ensures Up(FreeFields(ms, mem), c) == start + Up(FieldsEnd(ms, off), c)
    decreases ms, 0
  {
    hide *;
    if ms == [] {
      NoFields(mem, start, off);
      GapAlign(start, off, gap, p, c);
    } else {
      var t := ms[0].tc;
      MembersStep(ms, gap);
      FieldsStep(ms, mem, start, off);
      BeforeSelf(t, start + Up(off, CAlign(t)));
      var a, at := CAlign(t), Up(off, CAlign(t));
      MultipleDown(start, a, c);
      GapAlign(start, off, gap, p, a);
      UpOn(off, a);
      MultipleSum(start, at, a);
      FreeEnds(t, start + at, start + at);
      SizeAligned(t);
      MultipleSum(at, Size(t), a);
      GapSmall(t);
      FieldsEndFree(ms[1..], start + at + Size(t) - Shortfall(t), start, at + Size(t), Shortfall(t), a, c);
    }
  }

  lemma NextElement(t: TypeCode, e: nat)
    requires Inline(t) && On(e, CAlign(t)) && Shortfall(t) <= Size(t)
    ensures Before(t, e + Size(t) - Shortfall(t), e + Size(t))
  {
    hide Up, Size, Shortfall, CAlign, Inline;
    SizeAligned(t);
    GapSmall(t);
    MultipleSum(e, Size(t), CAlign(t));
    AlignIs(e + Size(t) - Shortfall(t), CAlign(t), e + Size(t));
  }

  lemma BeforeOn(t: TypeCode, mem: nat, e: nat)
    requires Before(t, mem, e)
    ensures On(e, CAlign(t))
  {
  }

  lemma FreeRepeatedStep(t: TypeCode, n: nat, mem: nat)
    ensures FreeRepeated(t, n, mem) == if n == 0 then mem else FreeRepeated(t, n - 1, FreeWalk(t, mem))
  {
    hide FreeWalk;
  }

  lemma {:induction false} RepeatedEndFree(t: TypeCode, n: nat, mem: nat, e: nat)
    requires Inline(t) && AllGood(t) && FreeOk(t) && n > 0 && Before(t, mem, e)
    ensures Shortfall(t) <= Times(Size(t), n) && FreeRepeated(t, n, mem) == e + Times(Size(t), n) - Shortfall(t)
    decreases t, 1, n
  {
    hide *;
    FreeEnds(t, mem, e);
    BeforeOn(t, mem, e);
    FreeRepeatedStep(t, n, mem);
    FreeRepeatedStep(t, 0, e + Size(t) - Shortfall(t));
    TimesStep(Size(t), n);
    TimesStep(Size(t), 0);
    NextElement(t, e);
    if n > 1 {
      RepeatedEndFree(t, n - 1, e + Size(t) - Shortfall(t), e + Size(t));
    }
  }

  /** Every part of a value is freed where it is exactly when no field starts in a union's gap. */
  lemma {:induction false} VisitsExact(t: TypeCode, mem: nat, e: nat)
    requires Inline(t) && AllGood(t) && Before(t, mem, e)
    ensures FreeVisits(t, mem) == Parts(t, e) <==> FreeOk(t)
    decreases t, 0
  {
    hide Up, On, Good, FreeWalk, Size, MaxAlign, MaxSize, InlineAll, AllGoodMembers, FieldsFreeOk, BodiesFreeOk,
      FieldVisits, FieldParts, BodyVisits, BodyParts, RepeatedVisits, RepeatedParts;
    AlignedStays(e, CAlign(t));
    match t {
      case Alias(_, _, _, content) => VisitsExact(content, mem, e);
      case Record(_, _, _, _, members) =>
        ZeroOn();
        FieldsExact(members, e, e, 0, 0, 1, CAlign(t));
        SplitEqual([Part(e, t)], FieldVisits(members, e), [Part(e, t)], FieldParts(members, e, 0));
      case Union(_, _, _, disc, _, members) =>
        UnionBody(t, mem, e);
        var b := e + Up(Size(disc), CAlign(t));
        BodiesExact(members, b, CAlign(t));
        SplitEqual([Part(e, t)], BodyVisits(members, b), [Part(e, t)], BodyParts(members, b));
      case Indexed(_, fixedSize, content, length) => if fixedSize { RepeatedExact(content, length, mem, e); }
      case _ =>
    }
  }

  lemma {:induction false} FieldsExact(ms: seq<Member>, mem: nat, start: nat, off: nat, gap: nat, p: nat, c: nat)
    requires InlineAll(ms) && AllGoodMembers(ms)
    requires p in {1, 2, 4, 8} && c in {1, 2, 4, 8} && MaxAlign(ms) <= c && On(start, c)
    requires gap <= off && gap < p && On(off, p) && mem == start + off - gap
    ensures FieldVisits(ms, mem) == FieldParts(ms, start, off) <==> FieldsFreeOk(ms, gap)
    decreases ms, 0
  {
    hide *;
    if ms == [] {
      NoFields(mem, start, off);
    } else {
      var t := ms[0].tc;
      var a, at := CAlign(t), Up(off, CAlign(t));
      MembersStep(ms, gap);
      FieldsStep(ms, mem, start, off);
      MultipleDown(start, a, c);
      GapAlign(start, off, gap, p, a);
      UpOn(off, a);
      MultipleSum(start, at, a);
      BeforeSelf(t, start + at);
      SameLength(t, Up(mem, a), start + at);
      SplitEqual(FreeVisits(t, Up(mem, a)), FieldVisits(ms[1..], FreeWalk(t, Up(mem, a))),
                 Parts(t, start + at), FieldParts(ms[1..], start, at + Size(t)));
      if gap >= a {
        UpOn(mem, a);
        WrongPlace(t, Up(mem, a), start + at);
      } else {
        VisitsExact(t, start + at, start + at);
        if FreeOk(t) {
          FreeEnds(t, start + at, start + at);
          SizeAligned(t);
          MultipleSum(at, Size(t), a);
          GapSmall(t);
          FieldsExact(ms[1..], start + at + Size(t) - Shortfall(t), start, at + Size(t), Shortfall(t), a, c);
        }
      }
    }
  }

  lemma {:induction false} FirstPlace(t: TypeCode, mem: nat)
    requires Inline(t) && On(mem, CAlign(t))
    ensures FreeVisits(t, mem) != [] && FreeVisits(t, mem)[0].addr == mem
    ensures Parts(t, mem) != [] && Parts(t, mem)[0].addr == mem
    decreases t
  {
    hide Up;
    AlignedStays(mem, CAlign(t));
    match t {
      case Alias(_, _, _, content) => FirstPlace(content, mem);
      case Indexed(_, fixedSize, content, _) => if fixedSize { FirstPlace(content, mem); }
      case _ =>
    }
  }

  lemma WrongPlace(t: TypeCode, mem: nat, at: nat)
    requires Inline(t) && On(mem, CAlign(t)) && On(at, CAlign(t)) && mem != at
    ensures FreeVisits(t, mem) != Parts(t, at)
  {
    hide *;
    FirstPlace(t, mem);
    FirstPlace(t, at);
  }

  lemma {:induction false} BodiesExact(ms: seq<Member>, b: nat, c: nat)
    requires InlineAll(ms) && AllGoodMembers(ms) && c in {1, 2, 4, 8} && MaxAlign(ms) <= c && On(b, c)
    ensures BodyVisits(ms, b) == BodyParts(ms, b) <==> BodiesFreeOk(ms)
    decreases ms, 0
  {
    hide Up, FreeVisits, Parts, FreeOk, Inline, AllGood, Shortfall, CAlign;
    if ms != [] {
      MembersStep(ms, 0);
      MultipleDown(b, CAlign(ms[0].tc), c);
      BeforeSelf(ms[0].tc, b);
      VisitsExact(ms[0].tc, b, b);
      BodiesExact(ms[1..], b, c);
      SameLength(ms[0].tc, b, b);
      SplitEqual(FreeVisits(ms[0].tc, b), BodyVisits(ms[1..], b), Parts(ms[0].tc, b), BodyParts(ms[1..], b));
    }
  }

  lemma {:induction false} RepeatedExact(t: TypeCode, n: nat, mem: nat, e: nat)
    requires Inline(t) && AllGood(t) && n > 0 && Before(t, mem, e)
    ensures RepeatedVisits(t, n, mem) == RepeatedParts(t, n, e) <==> FreeOk(t)
    decreases t, 1, n
  {
    hide Up, Good, FreeVisits, Parts, FreeOk, Inline, AllGood, Shortfall, CAlign, FreeWalk, Size;
    VisitsExact(t, mem, e);
    SameLength(t, mem, e);
    SplitEqual(FreeVisits(t, mem), RepeatedVisits(t, n - 1, FreeWalk(t, mem)), Parts(t, e), RepeatedParts(t, n - 1, e + Size(t)));
    if FreeOk(t) {
      FreeEnds(t, mem, e);
      NextElement(t, e);
      if n > 1 {
        RepeatedExact(t, n - 1, e + Size(t) - Shortfall(t), e + Size(t));
      }
    }
  }

  /** MateCORBA_free_T on n elements: each is freed at its own start. */
  method FreeElements(t: TypeCode, mem: nat, n: nat) returns (visits: seq<Part>)
    requires Inline(t) && AllGood(t) && On(mem, CAlign(t))
    ensures visits == RepeatedVisits(t, n, mem)
    ensures n > 0 ==> (visits == RepeatedParts(t, n, mem) <==> FreeOk(t))
  {
    hide FreeVisits, FreeWalk, Inline, AllGood, Parts, RepeatedParts;
    visits := [];
    var x := mem;
    for i := 0 to n
      invariant visits + RepeatedVisits(t, n - i, x) == RepeatedVisits(t, n, mem)
    {
      visits := visits + FreeVisits(t, x);
      x := FreeWalk(t, x);
    }
    assert visits + [] == visits;
    BeforeSelf(t, mem);
    if n > 0 {
      RepeatedExact(t, n, mem, mem);
    }
  }

  lemma OneMember(m: Member)
    ensures var ms := [m];
      && MaxSize(ms) == Size(m.tc) && MaxAlign(ms) == CAlign(m.tc) && (InlineAll(ms) <==> Inline(m.tc))
      && (AllGoodMembers(ms) <==> AllGood(m.tc)) && Rising(ms, 1)
  {
    hide Size, CAlign, Inline, AllGood;
    assert [m][1..] == [];
  }

  /** A union of a long and a character leaves a gap of three bytes. */
  lemma CharUnion(u: TypeCode)
    requires u == Union(0, [], [], Empty(3), -1, [Member(0, [], Empty(9))])
    ensures Inline(u) && AllGood(u) && Shortfall(u) == 3
  {
    hide Up, Good, MaxSize, MaxAlign, InlineAll, AllGoodMembers, Rising;
    OneMember(u.members[0]);
    RisingIsGood(u);
    assert CAlign(u) == 4 && On(4, 4);
    AlignIs(1, 4, 4);
  }

  /** A structure whose string is freed at the wrong place: such a union, another character, and a string. */
  lemma GapExample(u: TypeCode, t: TypeCode)
    requires u == Union(0, [], [], Empty(3), -1, [Member(0, [], Empty(9))])
    requires t == Record(1, false, [], [], [Member(0, [], u), Member(0, [], Empty(9)), Member(0, [], Str(2, false, 0))])
    ensures Inline(t) && AllGood(t) && FreeVisits(t, 0) != Parts(t, 0)
  {
    hide FreeVisits, Parts, Shortfall, Size, Align, Good, MaxSize, MaxAlign;
    CharUnion(u);
    GapStruct(u, t);
    assert On(0, CAlign(t));
    BeforeSelf(t, 0);
    VisitsExact(t, 0, 0);
  }

  lemma GapStruct(u: TypeCode, t: TypeCode)
    requires t == Record(1, false, [], [], [Member(0, [], u), Member(0, [], Empty(9)), Member(0, [], Str(2, false, 0))])
    requires Inline(u) && AllGood(u) && Shortfall(u) == 3
    ensures Inline(t) && AllGood(t) && !FreeOk(t)
  {
    hide Shortfall, Align, Good;
    var ms := t.members;
    var last := [ms[2]];
    assert ms[1..] == [ms[1], ms[2]] && ms[1..][1..] == last && last[1..] == [];
    assert InlineAll(last) && AllGoodMembers(last);
    assert InlineAll(ms[1..]) && AllGoodMembers(ms[1..]);
    assert !FieldsFreeOk(ms[1..], 3);
  }
}

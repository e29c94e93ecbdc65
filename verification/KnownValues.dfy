/** Values in CDR written out by hand from section 15.3 of CORBA 2.6: what the marshaller must produce. */
module KnownValues {
  import opened Cdr
  import opened TypeCodes
  import opened TypeCodeEquality
  import opened KnownTypeCodes
  import opened Values

  /** One place behind an eight-byte boundary, every number is padded to its own size. */
  lemma KnownNumber(k: BasicKind, bits: nat, out: seq<Cell>, o: Order)
    requires |out| % 8 == 1
    ensures k in {8, 9, 10} && bits < 0x100 ==>
      HasType(Empty(k), Num(bits)) && Marshal(Empty(k), Num(bits), out, o) == out + Cells([bits])
    ensures k in {2, 4, 26} && bits < 0x1_0000 ==>
      HasType(Empty(k), Num(bits)) && Marshal(Empty(k), Num(bits), out, o) == out + Pads(1) + Cells(Store(o, 2, bits))
    ensures k in {3, 5, 6} && bits < 0x1_0000_0000 ==>
      HasType(Empty(k), Num(bits)) && Marshal(Empty(k), Num(bits), out, o) == out + Pads(3) + Cells(Store(o, 4, bits))
    ensures k in {7, 23, 24, 25} && bits < 0x1_0000_0000_0000_0000 ==>
      HasType(Empty(k), Num(bits)) && Marshal(Empty(k), Num(bits), out, o) == out + Pads(7) + Cells(Store(o, 8, bits))
  {
    Pow256Values();
    NumberSent(Empty(k), bits, out, o);
    hide Marshal, Pow256, Store;
    AlignBehind(|out|);
    hide Align;
    if k in {8, 9, 10} && bits < 0x100 {
      StoreOne(o, bits);
      assert out + Pads(0) == out;
    }
  }

  lemma NumberSent(t: TypeCode, bits: nat, out: seq<Cell>, o: Order)
    ensures PrimSize(Unalias(t)) > 0 && bits < Pow256(PrimSize(Unalias(t))) ==>
      HasType(t, Num(bits)) && Marshal(t, Num(bits), out, o) == PutNum(out, o, PrimSize(Unalias(t)), bits)
  {
    hide PutNum, PrimSize, Pow256;
  }

  lemma AlignBehind(p: nat)
    requires p % 8 == 1
    ensures Align(p, 1) == p && Align(p, 2) == p + 1 && Align(p, 4) == p + 3 && Align(p, 8) == p + 7
  {
    var q := p / 8;
    assert p == 8 * q + 1;
    DivModUnique(p, 1, p, 0);
    DivModUnique(p, 2, 4 * q, 1);
    DivModUnique(p, 4, 2 * q, 1);
    AlignAligned(p, 1);
    AlignOne(p, 2);
    AlignOne(p, 4);
    AlignOne(p, 8);
    hide Align;
  }

  lemma AlignOne(p: nat, b: nat)
    requires b > 1 && p % b == 1
    ensures Align(p, b) == p + b - 1
  {
    DivModUnique(b - 1, b, 0, b - 1);
  }

  lemma StoreOne(o: Order, b: Byte)
    ensures Store(o, 1, b) == [b]
  {
    assert LowBytes(1, b) == [b] + LowBytes(0, b / 256);
    assert Reverse([b]) == [b];
  }

  // ----- a structure with a member of each kind -----

  ghost predicate At(out: seq<Cell>, base: seq<Cell>, o: Order, items: seq<Item>, n: nat) {
    |base| % 8 == 0 && Laid(Enc(out, map[]), base, o, items, n)
  }

  lemma TwoItems(items: seq<Item>, k: nat, a: Item, b: Item)
    ensures items + (Gapped(k) + [a, b]) == items + Gapped(k) + [a] + [b]
    ensures items + (Gapped(k) + [a, b]) == items + (Gapped(k) + [a]) + [b]
  {
    hide Gapped;
  }

  lemma Joined(out: seq<Cell>, base: seq<Cell>, o: Order, items: seq<Item>, k: nat, a: Item, b: Item, n: nat)
    requires At(out, base, o, items + Gapped(k) + [a] + (Gapped(0) + [b]), n)
    ensures At(out, base, o, items + (Gapped(k) + [a, b]), n)
  {
    assert Gapped(0) + [b] == [b];
    hide At, Gapped;
    TwoItems(items, k, a, b);
  }

  lemma ThreeItems(items: seq<Item>, k: nat, a: Item, b: Item, c: Item)
    ensures items + (Gapped(k) + [a, b, c]) == items + Gapped(k) + [a] + [b] + [c]
  {
    hide Gapped;
  }

  lemma SendLong(t: TypeCode, out: seq<Cell>, base: seq<Cell>, o: Order, items: seq<Item>, n: nat, k: nat, v: U32) returns (r: seq<Cell>)
    requires PrimSize(t) == 4 && At(out, base, o, items, n) && (n + k) % 4 == 0 && k < 4
    ensures HasType(t, Num(v)) && r == Marshal(t, Num(v), out, o)
    ensures At(r, base, o, items + (Gapped(k) + [Word(v)]), n + k + 4)
  {
    Pow256Values();
    NumberSent(t, v, out, o);
    r := PutNum(out, o, 4, v);
    hide PutInt, Marshal, Pow256, Lay, HasType;
    assert Unalias(t) == t;
    PutWord(Enc(out, map[]), base, o, items, n, k, v);
    assert items + (Gapped(k) + [Word(v)]) == items + Gapped(k) + [Word(v)];
  }

  lemma SendShort(t: TypeCode, out: seq<Cell>, base: seq<Cell>, o: Order, items: seq<Item>, n: nat, v: U16) returns (r: seq<Cell>)
    requires PrimSize(t) == 2 && At(out, base, o, items, n) && n % 2 == 0
    ensures HasType(t, Num(v)) && r == Marshal(t, Num(v), out, o)
    ensures At(r, base, o, items + [Half(v)], n + 2)
  {
    Pow256Values();
    NumberSent(t, v, out, o);
    r := PutNum(out, o, 2, v);
    hide PutInt, Marshal, Pow256, Lay, HasType;
    assert Unalias(t) == t;
    PutHalf(Enc(out, map[]), base, o, items, n, v);
  }

  lemma SendOctet(t: TypeCode, out: seq<Cell>, base: seq<Cell>, o: Order, items: seq<Item>, n: nat, v: Byte) returns (r: seq<Cell>)
    requires PrimSize(t) == 1 && At(out, base, o, items, n)
    ensures HasType(t, Num(v)) && r == Marshal(t, Num(v), out, o)
    ensures At(r, base, o, items + [Raw([v])], n + 1)
  {
    Pow256Values();
    NumberSent(t, v, out, o);
    StoreOne(o, v);
    r := PutNum(out, o, 1, v);
    assert Unalias(t) == t;
    hide Marshal, Pow256, Lay, HasType, Store;
    PutBytes(Enc(out, map[]), base, o, items, n, [v]);
    assert out + Pads(0) == out;
    assert r == out + Cells([v]);
  }

  lemma SendText(t: TypeCode, out: seq<Cell>, base: seq<Cell>, o: Order, items: seq<Item>, n: nat, k: nat, str: CStr) returns (r: seq<Cell>)
    requires t.Str? && !t.wide && |str| + 1 < 0x8000_0000
    requires At(out, base, o, items, n) && (n + k) % 4 == 0 && k < 4
    ensures HasType(t, Text(str)) && r == Marshal(t, Text(str), out, o)
    ensures At(r, base, o, items + (Gapped(k) + [Word(|str| + 1), Raw(str + [0])]), n + k + 4 + |str| + 1)
  {
    hide PutString, PutInt, Lay;
    assert Unalias(t) == t;
    r := Marshal(t, Text(str), out, o);
    PutText(Enc(out, map[]), base, o, items, n, k, str);
    TwoItems(items, k, Word(|str| + 1), Raw(str + [0]));
  }

  /** The byte order mark, then the characters; the length counts the mark as well, and in bytes. */
  lemma SendWide(t: TypeCode, out: seq<Cell>, base: seq<Cell>, o: Order, items: seq<Item>, n: nat, k: nat, c: U16) returns (r: seq<Cell>)
    requires t.Str? && t.wide && c != 0
    requires At(out, base, o, items, n) && (n + k) % 4 == 0 && k < 4
    ensures HasType(t, Wide([c])) && r == Marshal(t, Wide([c]), out, o)
    ensures At(r, base, o, items + (Gapped(k) + [Word(4), Half(0xfeff), Half(c)]), n + k + 8)
  {
    hide PutString, PutInt, Lay, Store;
    assert Unalias(t) == t;
    r := Marshal(t, Wide([c]), out, o);
    PutWord(Enc(out, map[]), base, o, items, n, k, 4);
    var e := PutInt(Enc(out, map[]), o, 4, 4);
    var i1 := items + Gapped(k) + [Word(4)];
    LayOne(base, o, i1, Half(0xfeff));
    LayOne(base, o, i1 + [Half(0xfeff)], Half(c));
    assert WideBytes(o, [c]) == Store(o, 2, c);
    assert r == e.out + Cells(Store(o, 2, 0xfeff)) + Cells(Store(o, 2, c));
    ThreeItems(items, k, Word(4), Half(0xfeff), Half(c));
  }

  /** A sequence of two octets. */
  lemma SendOctets(t: TypeCode, out: seq<Cell>, base: seq<Cell>, o: Order, items: seq<Item>, n: nat, k: nat, a: Byte, b: Byte)
    returns (r: seq<Cell>)
    requires t.Indexed? && !t.fixedSize && t.content == Empty(10)
    requires At(out, base, o, items, n) && (n + k) % 4 == 0 && k < 4
    ensures HasType(t, Parts([Num(a), Num(b)])) && r == Marshal(t, Parts([Num(a), Num(b)]), out, o)
    ensures At(r, base, o, items + (Gapped(k) + [Word(2), Raw([a]), Raw([b])]), n + k + 6)
  {
    var vs := [Num(a), Num(b)];
    assert vs[1..] == [Num(b)] && vs[1..][1..] == [];
    hide *;
    BasicSizes();
    var out1 := SendCount(out, base, o, items, n, k, 2);
    var i1 := items + Gapped(k) + [Word(2)];
    var out2 := SendOctet(Empty(10), out1, base, o, i1, n + k + 4, a);
    r := SendOctet(Empty(10), out2, base, o, i1 + [Raw([a])], n + k + 5, b);
    ElemsStep(Empty(10), [], r, o);
    ElemsStep(Empty(10), vs[1..], out2, o);
    ElemsStep(Empty(10), vs, out1, o);
    SequenceStep(t, vs, out, o);
    ThreeItems(items, k, Word(2), Raw([a]), Raw([b]));
  }

  lemma SendCount(out: seq<Cell>, base: seq<Cell>, o: Order, items: seq<Item>, n: nat, k: nat, v: U32) returns (r: seq<Cell>)
    requires At(out, base, o, items, n) && (n + k) % 4 == 0 && k < 4
    ensures r == PutNum(out, o, 4, v) && At(r, base, o, items + Gapped(k) + [Word(v)], n + k + 4)
  {
    PutWord(Enc(out, map[]), base, o, items, n, k, v);
    r := PutNum(out, o, 4, v);
    hide PutInt, Lay, Gapped;
  }

  lemma ElemsStep(t: TypeCode, vs: seq<Value>, out: seq<Cell>, o: Order)
    ensures vs == [] ==> ElemsHaveType(t, vs) && MarshalElems(t, vs, out, o) == out
    ensures vs != [] && HasType(t, vs[0]) && ElemsHaveType(t, vs[1..]) ==>
      ElemsHaveType(t, vs) && MarshalElems(t, vs, out, o) == MarshalElems(t, vs[1..], Marshal(t, vs[0], out, o), o)
  {
    hide HasType, Marshal;
  }

  lemma SequenceStep(t: TypeCode, vs: seq<Value>, out: seq<Cell>, o: Order)
    requires t.Indexed? && !t.fixedSize && |vs| < 0x1_0000_0000 && ElemsHaveType(t.content, vs)
    ensures HasType(t, Parts(vs)) && Marshal(t, Parts(vs), out, o) == MarshalElems(t.content, vs, PutNum(out, o, 4, |vs|), o)
  {
    hide MarshalElems, PutNum, ElemsHaveType;
    assert Unalias(t) == t;
  }

  lemma MembersSent(ms: seq<Member>, vs: seq<Value>, out: seq<Cell>, o: Order)
    ensures vs == [] && ms == [] ==> MembersHaveType(ms, vs) && MarshalMembers(ms, vs, out, o) == out
    ensures vs != [] && |ms| == |vs| && HasType(ms[0].tc, vs[0]) && MembersHaveType(ms[1..], vs[1..]) ==>
      MembersHaveType(ms, vs)
      && MarshalMembers(ms, vs, out, o) == MarshalMembers(ms[1..], vs[1..], Marshal(ms[0].tc, vs[0], out, o), o)
  {
    hide HasType, Marshal;
  }

  /** An any: its TypeCode, then its value. */
  lemma SendAny(x: TypeCode, tc: TypeCode, out: seq<Cell>, base: seq<Cell>, o: Order, items: seq<Item>, n: nat, k: nat, v: U32)
    returns (r: seq<Cell>)
    requires x == Empty(11) && tc == Empty(3) && At(out, base, o, items, n) && (n + k) % 4 == 0 && k < 4
    ensures HasType(x, AnyV(tc, Num(v))) && r == Marshal(x, AnyV(tc, Num(v)), out, o)
    ensures At(r, base, o, items + (Gapped(k) + [Word(3), Word(v)]), n + k + 8)
  {
    hide *;
    BasicSizes();
    var out1 := SendBasic(out, base, o, items, n, k, tc.kind);
    AnyLong(x, tc, out, out1, o, v);
    r := SendLong(tc, out1, base, o, items + Gapped(k) + [Word(3)], n + k + 4, 0, v);
    Joined(r, base, o, items, k, Word(3), Word(v), n + k + 8);
  }

  lemma AnyLong(x: TypeCode, tc: TypeCode, out: seq<Cell>, out1: seq<Cell>, o: Order, v: U32)
    requires x == Empty(11) && tc == Empty(3) && out1 == EncTC(tc, Enc(out, map[]), o).out
    ensures HasType(tc, Num(v)) && HasType(x, AnyV(tc, Num(v))) && Marshal(x, AnyV(tc, Num(v)), out, o) == Marshal(tc, Num(v), out1, o)
  {
    hide *;
    BasicSizes();
    LongFits(v);
    NumberSent(tc, v, out, o);
    AnyStep(tc, Num(v), out, o);
  }

  lemma LongFits(v: U32)
    ensures PrimSize(Unalias(Empty(3))) == 4 && v < Pow256(4)
  {
    Pow256Values();
  }

  lemma BasicSizes()
    ensures PrimSize(Empty(10)) == 1 && PrimSize(Empty(3)) == 4 && WellFormed(Empty(3))
  {
  }

  lemma SendBasic(out: seq<Cell>, base: seq<Cell>, o: Order, items: seq<Item>, n: nat, k: nat, kind: BasicKind) returns (r: seq<Cell>)
    requires At(out, base, o, items, n) && (n + k) % 4 == 0 && k < 4
    ensures r == EncTC(Empty(kind), Enc(out, map[]), o).out
    ensures At(r, base, o, items + Gapped(k) + [Word(kind)], n + k + 4)
  {
    PutBasic(Enc(out, map[]), base, o, items, n, k, kind);
    r := EncTC(Empty(kind), Enc(out, map[]), o).out;
    hide EncTC, Lay, Gapped;
  }

  lemma AnyStep(tc: TypeCode, v: Value, out: seq<Cell>, o: Order)
    requires WellFormed(tc) && HasType(tc, v)
    ensures HasType(Empty(11), AnyV(tc, v))
    ensures Marshal(Empty(11), AnyV(tc, v), out, o) == Marshal(tc, v, EncTC(tc, Enc(out, map[]), o).out, o)
  {
    hide EncTC, WellFormed;
    assert Unalias(Empty(11)) == Empty(11) && PrimSize(Empty(11)) == 0;
    hide PrimSize, Unalias;
  }

  lemma SevenSelects(x: TypeCode)
    requires x.Union? && x.discriminator == Empty(3) && x.defaultIndex == -1
    requires |x.members| == 1 && x.members[0].tag == 7 && x.members[0].tc == Empty(2)
    ensures Selects(x, 7, Empty(2)) && Unalias(x.discriminator) == Empty(3) && SwitchType(Empty(3))
    ensures PrimSize(Empty(3)) == 4 && PrimSize(Empty(2)) == 2 && 7 < Pow256(4)
  {
    Pow256Values();
    assert FirstWithLabel(x, 0, 7);
  }

  /** union switch (long) { case 7: short x; } */
  lemma SendUnion(x: TypeCode, out: seq<Cell>, base: seq<Cell>, o: Order, items: seq<Item>, n: nat, k: nat, v: U16)
    returns (r: seq<Cell>)
    requires x.Union? && x.discriminator == Empty(3) && x.defaultIndex == -1
    requires |x.members| == 1 && x.members[0].tag == 7 && x.members[0].tc == Empty(2)
    requires At(out, base, o, items, n) && (n + k) % 4 == 0 && k < 4
    ensures HasType(x, UnionV(Num(7), Num(v))) && r == Marshal(x, UnionV(Num(7), Num(v)), out, o)
    ensures At(r, base, o, items + (Gapped(k) + [Word(7), Half(v)]), n + k + 6)
  {
    hide *;
    SevenSelects(x);
    var out1 := SendLong(Empty(3), out, base, o, items, n, k, 7);
    r := SendShort(Empty(2), out1, base, o, items + (Gapped(k) + [Word(7)]), n + k + 4, v);
    NumberSent(Empty(3), 7, out, o);
    UnionSent(x, 7, Empty(2), Num(v), out, o);
    TwoItems(items, k, Word(7), Half(v));
  }

  /** A structure with seven members, sent at an eight-byte boundary. */
  lemma KnownStruct(x: TypeCode, base: seq<Cell>, o: Order, a: Byte, b: U32, d: Byte, d': Byte, e: U16, f: U32, g: U16)
    requires x.Record? && |x.members| == 7 && |base| % 8 == 0 && g != 0
    requires x.members[0].tc == Empty(10) && x.members[1].tc == Empty(3)
    requires x.members[2].tc.Str? && !x.members[2].tc.wide
    requires x.members[3].tc.Indexed? && !x.members[3].tc.fixedSize && x.members[3].tc.content == Empty(10)
    requires x.members[4].tc.Union? && x.members[4].tc.discriminator == Empty(3) && x.members[4].tc.defaultIndex == -1
    requires var ms := x.members[4].tc.members; |ms| == 1 && ms[0].tag == 7 && ms[0].tc == Empty(2)
    requires x.members[5].tc == Empty(11) && x.members[6].tc.Str? && x.members[6].tc.wide
    ensures
      var v := Parts([Num(a), Num(b), Text([104, 105]), Parts([Num(d), Num(d')]), UnionV(Num(7), Num(e)), AnyV(Empty(3), Num(f)), Wide([g])]);
      && HasType(x, v)
      && Marshal(x, v, base, o) == Lay(base, o,
           [Raw([a]), Gap(3), Word(b), Word(3), Raw([104, 105, 0]), Gap(1), Word(2), Raw([d]), Raw([d']),
            Gap(2), Word(7), Half(e), Gap(2), Word(3), Word(f), Word(4), Half(0xfeff), Half(g)])
  {
    var vs := [Num(a), Num(b), Text([104, 105]), Parts([Num(d), Num(d')]), UnionV(Num(7), Num(e)), AnyV(Empty(3), Num(f)), Wide([g])];
    hide *;
    StructSent(x.members, vs, base, o, a, b, d, d', e, f, g);
    RecordSent(x, vs, base, o);
  }

  lemma RecordSent(x: TypeCode, vs: seq<Value>, out: seq<Cell>, o: Order)
    requires x.Record? && MembersHaveType(x.members, vs)
    ensures HasType(x, Parts(vs)) && Marshal(x, Parts(vs), out, o) == MarshalMembers(x.members, vs, out, o)
  {
    hide MarshalMembers, MembersHaveType;
    assert Unalias(x) == x && PrimSize(x) == 0;
  }

  lemma StructSent(ms: seq<Member>, vs: seq<Value>, base: seq<Cell>, o: Order, a: Byte, b: U32, d: Byte, d': Byte, e: U16, f: U32, g: U16)
    requires |ms| == 7 && |base| % 8 == 0 && g != 0
    requires ms[0].tc == Empty(10) && ms[1].tc == Empty(3) && ms[2].tc.Str? && !ms[2].tc.wide
    requires ms[3].tc.Indexed? && !ms[3].tc.fixedSize && ms[3].tc.content == Empty(10)
    requires ms[4].tc.Union? && ms[4].tc.discriminator == Empty(3) && ms[4].tc.defaultIndex == -1
    requires var us := ms[4].tc.members; |us| == 1 && us[0].tag == 7 && us[0].tc == Empty(2)
    requires ms[5].tc == Empty(11) && ms[6].tc.Str? && ms[6].tc.wide
    requires vs == [Num(a), Num(b), Text([104, 105]), Parts([Num(d), Num(d')]), UnionV(Num(7), Num(e)), AnyV(Empty(3), Num(f)), Wide([g])]
    ensures MembersHaveType(ms, vs)
    ensures MarshalMembers(ms, vs, base, o) == Lay(base, o,
           [Raw([a]), Gap(3), Word(b), Word(3), Raw([104, 105, 0]), Gap(1), Word(2), Raw([d]), Raw([d']),
            Gap(2), Word(7), Half(e), Gap(2), Word(3), Word(f), Word(4), Half(0xfeff), Half(g)])
  {
    hide *;
    BasicSizes();
    AtStart(base, o);
    StructItems(a, b, d, d', e, f, g);
    SplitMembers(ms, vs);
    var i1 := [] + [Raw([a])];
    var i2 := i1 + (Gapped(3) + [Word(b)]);
    var i3 := i2 + (Gapped(0) + [Word(3), Raw([104, 105] + [0])]);
    var o1 := SendOctet(ms[0].tc, base, base, o, [], 0, a);
    var o2 := SendLong(ms[1].tc, o1, base, o, i1, 1, 3, b);
    var o3 := SendText(ms[2].tc, o2, base, o, i2, 8, 0, [104, 105]);
    StructTail(ms[3..], vs[3..], o3, base, o, i3, d, d', e, f, g);
    MembersSent(ms[2..], vs[2..], o2, o);
    MembersSent(ms[1..], vs[1..], o1, o);
    MembersSent(ms, vs, base, o);
  }

  lemma AtStart(base: seq<Cell>, o: Order)
    requires |base| % 8 == 0
    ensures At(base, base, o, [], 0)
  {
    LayNone(Enc(base, map[]), o);
    hide Lay;
  }

  lemma SplitMembers(ms: seq<Member>, vs: seq<Value>)
    requires |ms| == 7 && |vs| == 7
    ensures ms[3..] == [ms[3], ms[4], ms[5], ms[6]] && vs[3..] == [vs[3], vs[4], vs[5], vs[6]]
    ensures ms[2..][1..] == ms[3..] && vs[2..][1..] == vs[3..] && ms[1..][1..] == ms[2..] && vs[1..][1..] == vs[2..]
  {
  }

  lemma StructTail(ms: seq<Member>, vs: seq<Value>, out: seq<Cell>, base: seq<Cell>, o: Order, items: seq<Item>, d: Byte, d': Byte, e: U16, f: U32, g: U16)
    requires |ms| == 4 && At(out, base, o, items, 15) && g != 0
    requires ms[0].tc.Indexed? && !ms[0].tc.fixedSize && ms[0].tc.content == Empty(10)
    requires ms[1].tc.Union? && ms[1].tc.discriminator == Empty(3) && ms[1].tc.defaultIndex == -1
    requires var us := ms[1].tc.members; |us| == 1 && us[0].tag == 7 && us[0].tc == Empty(2)
    requires ms[2].tc == Empty(11) && ms[3].tc.Str? && ms[3].tc.wide
    requires vs == [Parts([Num(d), Num(d')]), UnionV(Num(7), Num(e)), AnyV(Empty(3), Num(f)), Wide([g])]
    ensures MembersHaveType(ms, vs)
    ensures MarshalMembers(ms, vs, out, o) == Lay(base, o, items
              + (Gapped(1) + [Word(2), Raw([d]), Raw([d'])]) + (Gapped(2) + [Word(7), Half(e)])
              + (Gapped(2) + [Word(3), Word(f)]) + (Gapped(0) + [Word(4), Half(0xfeff), Half(g)]))
  {
    hide *;
    var i4 := items + (Gapped(1) + [Word(2), Raw([d]), Raw([d'])]);
    var i5 := i4 + (Gapped(2) + [Word(7), Half(e)]);
    var i6 := i5 + (Gapped(2) + [Word(3), Word(f)]);
    var o4 := SendOctets(ms[0].tc, out, base, o, items, 15, 1, d, d');
    var o5 := SendUnion(ms[1].tc, o4, base, o, i4, 22, 2, e);
    var o6 := SendAny(ms[2].tc, Empty(3), o5, base, o, i5, 30, 2, f);
    var o7 := SendWide(ms[3].tc, o6, base, o, i6, 40, 0, g);
    FourSent(ms, vs, out, o4, o5, o6, o7, o);
    AtIs(o7, base, o, i6 + (Gapped(0) + [Word(4), Half(0xfeff), Half(g)]), 48);
  }

  lemma FourSent(ms: seq<Member>, vs: seq<Value>, out: seq<Cell>, o4: seq<Cell>, o5: seq<Cell>, o6: seq<Cell>, o7: seq<Cell>, o: Order)
    requires |ms| == 4 && |vs| == 4
    requires HasType(ms[0].tc, vs[0]) && o4 == Marshal(ms[0].tc, vs[0], out, o)
    requires HasType(ms[1].tc, vs[1]) && o5 == Marshal(ms[1].tc, vs[1], o4, o)
    requires HasType(ms[2].tc, vs[2]) && o6 == Marshal(ms[2].tc, vs[2], o5, o)
    requires HasType(ms[3].tc, vs[3]) && o7 == Marshal(ms[3].tc, vs[3], o6, o)
    ensures MembersHaveType(ms, vs) && MarshalMembers(ms, vs, out, o) == o7
  {
    assert ms[3..][1..] == [] && vs[3..][1..] == [] && ms[2..][1..] == ms[3..] && vs[2..][1..] == vs[3..];
    assert ms[1..][1..] == ms[2..] && vs[1..][1..] == vs[2..];
    hide *;
    MembersSent([], [], o7, o);
    MembersSent(ms[3..], vs[3..], o6, o);
    MembersSent(ms[2..], vs[2..], o5, o);
    MembersSent(ms[1..], vs[1..], o4, o);
    MembersSent(ms, vs, out, o);
  }

  lemma AtIs(out: seq<Cell>, base: seq<Cell>, o: Order, items: seq<Item>, n: nat)
    requires At(out, base, o, items, n)
    ensures out == Lay(base, o, items)
  {
  }

  lemma StructItems(a: Byte, b: int, d: Byte, d': Byte, e: int, f: int, g: int)
    ensures [] + [Raw([a])] + (Gapped(3) + [Word(b)]) + (Gapped(0) + [Word(3), Raw([104, 105] + [0])])
              + (Gapped(1) + [Word(2), Raw([d]), Raw([d'])]) + (Gapped(2) + [Word(7), Half(e)])
              + (Gapped(2) + [Word(3), Word(f)]) + (Gapped(0) + [Word(4), Half(0xfeff), Half(g)])
         == [Raw([a]), Gap(3), Word(b), Word(3), Raw([104, 105, 0]), Gap(1), Word(2), Raw([d]), Raw([d']),
             Gap(2), Word(7), Half(e), Gap(2), Word(3), Word(f), Word(4), Half(0xfeff), Half(g)]
  {
    assert [104, 105] + [0] == [104, 105, 0];
  }
}

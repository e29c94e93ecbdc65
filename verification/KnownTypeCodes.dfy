/** TypeCodes written out by hand from section 15.3.5 of CORBA 2.6: what the encoder must produce for one TypeCode of
    every kind. */
module KnownTypeCodes {
  import opened Cdr
  import opened TypeCodes
  import opened TypeCodeRoundTrip

  /** Four-byte and two-byte integers, bytes as they are, and padding. */
  datatype Item = Word(w: int) | Half(h: int) | Raw(bytes: seq<Byte>) | Gap(n: nat)

  function ItemCells(o: Order, i: Item): seq<Cell> {
    match i
    case Word(w) => Cells(Store(o, 4, w))
    case Half(h) => Cells(Store(o, 2, h))
    case Raw(bytes) => Cells(bytes)
    case Gap(n) => Pads(n)
  }

  /** The items one after the other, behind `out`. */
  function Lay(out: seq<Cell>, o: Order, items: seq<Item>): seq<Cell> {
    if items == [] then out else Lay(out, o, items[..|items| - 1]) + ItemCells(o, items[|items| - 1])
  }

  /** How integers are stored. */
  lemma StoredBytes()
    ensures Store(LittleEndian, 4, 0x01020304) == [4, 3, 2, 1] && Store(BigEndian, 4, 0x01020304) == [1, 2, 3, 4]
    ensures Store(LittleEndian, 2, 0x0102) == [2, 1] && Store(BigEndian, 2, 0x0102) == [1, 2]
    ensures Store(LittleEndian, 4, -1) == [255, 255, 255, 255] && Store(BigEndian, 2, -2) == [255, 254]
  {
    LowFour(0x01020304, 4, 3, 2, 1);
    LowFour(-1, 255, 255, 255, 255);
    LowTwo(0x0102, 2, 1);
    LowTwo(-2, 254, 255);
    hide LowBytes;
    assert Reverse([4, 3, 2, 1]) == [1, 2, 3, 4] && Reverse([2, 1]) == [1, 2] && Reverse([254, 255]) == [255, 254];
  }

  lemma LowFour(v: int, a: Byte, b: Byte, c: Byte, d: Byte)
    requires v % 256 == a && v / 256 % 256 == b && v / 256 / 256 % 256 == c && v / 256 / 256 / 256 % 256 == d
    ensures LowBytes(4, v) == [a, b, c, d]
  {
    assert LowBytes(1, v / 256 / 256 / 256) == [d];
    assert LowBytes(2, v / 256 / 256) == [c, d];
    assert LowBytes(3, v / 256) == [b, c, d];
  }

  lemma LowTwo(v: int, a: Byte, b: Byte)
    requires v % 256 == a && v / 256 % 256 == b
    ensures LowBytes(2, v) == [a, b]
  {
    assert LowBytes(1, v / 256) == [b];
  }

  // ----- laying items -----

  lemma LayOne(out: seq<Cell>, o: Order, items: seq<Item>, i: Item)
    ensures Lay(out, o, items + [i]) == Lay(out, o, items) + ItemCells(o, i)
  {
    assert (items + [i])[..|items|] == items;
  }

  function Gapped(k: nat): seq<Item> {
    if k == 0 then [] else [Gap(k)]
  }

  lemma LayGap(out: seq<Cell>, o: Order, items: seq<Item>, k: nat)
    ensures Lay(out, o, items + Gapped(k)) == Lay(out, o, items) + Pads(k)
  {
    if k == 0 {
      assert items + [] == items && Pads(0) == [];
    } else {
      LayOne(out, o, items, Gap(k));
    }
  }

  /** The length of an encapsulation is filled in before its contents. */
  lemma {:induction false} LayPatched(out: seq<Cell>, o: Order, items: seq<Item>, s: seq<Byte>)
    requires |s| == 4
    ensures |Lay(out + Pads(4), o, items)| >= |out| + 4
    ensures Patch(Lay(out + Pads(4), o, items), |out|, s) == Lay(out + Cells(s), o, items)
  {
    hide Patch, ItemCells;
    if items != [] {
      LayPatched(out, o, items[..|items| - 1], s);
      PatchBehind(Lay(out + Pads(4), o, items[..|items| - 1]), ItemCells(o, items[|items| - 1]), |out|, s);
    } else {
      PatchBehind(out + Pads(4), [], |out|, s);
      PatchEnd(out, s);
      assert out + Pads(4) + [] == out + Pads(4);
    }
  }

  lemma PatchEnd(out: seq<Cell>, s: seq<Byte>)
    ensures Patch(out + Pads(|s|), |out|, s) == out + Cells(s)
  {
    var u := out + Pads(|s|);
    assert u[..|out|] == out && u[|out| + |s|..] == [];
  }

  lemma PatchBehind(u: seq<Cell>, x: seq<Cell>, at: nat, s: seq<Byte>)
    requires at + |s| <= |u|
    ensures Patch(u + x, at, s) == Patch(u, at, s) + x
  {
    assert (u + x)[..at] == u[..at] && (u + x)[at + |s|..] == u[at + |s|..] + x;
  }

  /** What has been laid behind an aligned place: `n` bytes so far. */
  ghost predicate Laid(e: Enc, base: seq<Cell>, o: Order, items: seq<Item>, n: nat) {
    |base| % 4 == 0 && e.out == Lay(base, o, items) && |e.out| == |base| + n
  }

  lemma Aligned4(p: nat, k: nat)
    requires (p + k) % 4 == 0 && k < 4
    ensures Align(p, 4) == p + k
  {
  }

  lemma PutWord(e: Enc, base: seq<Cell>, o: Order, items: seq<Item>, n: nat, k: nat, v: int)
    requires Laid(e, base, o, items, n) && (n + k) % 4 == 0 && k < 4
    ensures Laid(PutInt(e, o, 4, v), base, o, items + Gapped(k) + [Word(v)], n + k + 4)
    ensures PutInt(e, o, 4, v).prior == e.prior
  {
    hide *;
    LaidIs(e, base, o, items, n);
    Aligned4(|e.out|, k);
    WordIs(e, o, v);
    LayGap(base, o, items, k);
    LayOne(base, o, items + Gapped(k), Word(v));
    IsLaid(PutInt(e, o, 4, v), base, o, items + Gapped(k) + [Word(v)], n + k + 4);
  }

  lemma WordIs(e: Enc, o: Order, v: int)
    ensures PutInt(e, o, 4, v) == Enc(e.out + Pads(Align(|e.out|, 4) - |e.out|) + ItemCells(o, Word(v)), e.prior)
  {
    hide Align, Store;
  }

  lemma LaidIs(e: Enc, base: seq<Cell>, o: Order, items: seq<Item>, n: nat)
    requires Laid(e, base, o, items, n)
    ensures |base| % 4 == 0 && e.out == Lay(base, o, items) && |e.out| == |base| + n
  {
  }

  lemma IsLaid(e: Enc, base: seq<Cell>, o: Order, items: seq<Item>, n: nat)
    requires |base| % 4 == 0 && e.out == Lay(base, o, items) && |e.out| == |base| + n
    ensures Laid(e, base, o, items, n)
  {
  }

  lemma PutHalf(e: Enc, base: seq<Cell>, o: Order, items: seq<Item>, n: nat, v: int)
    requires Laid(e, base, o, items, n) && n % 2 == 0
    ensures Laid(PutInt(e, o, 2, v), base, o, items + [Half(v)], n + 2)
    ensures PutInt(e, o, 2, v).prior == e.prior
  {
    assert |e.out| % 2 == 0;
    AlignAligned(|e.out|, 2);
    LayOne(base, o, items, Half(v));
    hide Align, Store, Lay;
    assert e.out + Pads(0) == e.out;
  }

  lemma PutBytes(e: Enc, base: seq<Cell>, o: Order, items: seq<Item>, n: nat, s: seq<Byte>)
    requires Laid(e, base, o, items, n)
    ensures Laid(Append(e, s), base, o, items + [Raw(s)], n + |s|)
    ensures Append(e, s).prior == e.prior
  {
    LayOne(base, o, items, Raw(s));
    hide Lay;
  }

  lemma PutText(e: Enc, base: seq<Cell>, o: Order, items: seq<Item>, n: nat, k: nat, s: CStr)
    requires Laid(e, base, o, items, n) && (n + k) % 4 == 0 && k < 4
    ensures Laid(PutString(e, o, s), base, o, items + Gapped(k) + [Word(|s| + 1)] + [Raw(s + [0])], n + k + 4 + |s| + 1)
    ensures PutString(e, o, s).prior == e.prior
  {
    PutWord(e, base, o, items, n, k, |s| + 1);
    PutBytes(PutInt(e, o, 4, |s| + 1), base, o, items + Gapped(k) + [Word(|s| + 1)], n + k + 4, s + [0]);
    hide Laid, PutInt;
  }

  lemma PutHere(e: Enc, o: Order, v: int)
    requires |e.out| % 4 == 0
    ensures PutInt(e, o, 4, v) == Enc(e.out + Cells(Store(o, 4, v)), e.prior)
    ensures AlignTo(e, 4) == e
  {
    AlignAligned(|e.out|, 4);
    hide Align, Store;
    assert e.out + Pads(0) == e.out;
  }

  /** The kind of an object that is met for the first time. */
  lemma PutKind(t: TypeCode, e: Enc, o: Order)
    requires !t.Empty? && t.id !in e.prior && |e.out| % 4 == 0
    ensures
      var e1 := Enc(e.out + Cells(Store(o, 4, KindOf(t))), e.prior[t.id := |e.out|]);
      EncTC(t, e, o) == EncParams(t, e1, o) && |e1.out| % 4 == 0
  {
    hide *;
    EncTCNew(t, e, o);
    PutHere(e, o, 0);
    PutHere(Enc(e.out, e.prior[t.id := |e.out|]), o, KindOf(t));
  }

  /** The encapsulation: its length, the flag, and the items of its contents. */
  lemma Encapsulated(t: TypeCode, e1: Enc, o: Order, items: seq<Item>, n: nat)
    requires !t.Empty? && !t.Str? && !t.Fixed? && |e1.out| % 4 == 0
    requires Laid(EncBody(t, OpenEncaps(e1, o), o), e1.out + Pads(4), o, items, n)
    ensures EncParams(t, e1, o).out == Lay(e1.out + Cells(Store(o, 4, n)), o, items)
  {
    hide *;
    EncapsIs(t, e1, o);
    AlignAligned(|e1.out|, 4);
    LaidIs(EncBody(t, OpenEncaps(e1, o), o), e1.out + Pads(4), o, items, n);
    LayPatched(e1.out, o, items, Store(o, 4, n));
  }

  lemma EncapsIs(t: TypeCode, e: Enc, o: Order)
    requires !t.Empty? && !t.Str? && !t.Fixed?
    ensures
      var e3 := EncBody(t, OpenEncaps(e, o), o);
      |e3.out| >= Align(|e.out|, 4) + 4
      && EncParams(t, e, o) == e3.(out := Patch(e3.out, Align(|e.out|, 4), Store(o, 4, |e3.out| - (Align(|e.out|, 4) + 4))))
  {
    hide EncBody, OpenEncaps, Patch, Store, PutInt, Align;
  }

  lemma Opened(e1: Enc, o: Order)
    requires |e1.out| % 4 == 0
    ensures Laid(OpenEncaps(e1, o), e1.out + Pads(4), o, [Raw([OrderFlag(o)])], 1) && OpenEncaps(e1, o).prior == e1.prior
  {
    AlignedFour(|e1.out|);
    OpenAligned(e1, o);
    hide Align, OpenEncaps;
    LayOne(e1.out + Pads(4), o, [], Raw([OrderFlag(o)]));
    assert [] + [Raw([OrderFlag(o)])] == [Raw([OrderFlag(o)])];
  }

  lemma {:induction false} LayBehind(out: seq<Cell>, o: Order, a: seq<Item>, b: seq<Item>)
    ensures Lay(Lay(out, o, a), o, b) == Lay(out, o, a + b)
  {
    hide ItemCells;
    if b != [] {
      var b', i := b[..|b| - 1], b[|b| - 1];
      LayBehind(out, o, a, b');
      assert b' + [i] == b && a + b' + [i] == a + b;
      LayOne(out, o, a + b', i);
      LayOne(Lay(out, o, a), o, b', i);
    } else {
      assert a + b == a;
    }
  }

  lemma LayWords(out: seq<Cell>, o: Order, v: int, w: int)
    ensures Lay(out, o, [Word(v), Word(w)]) == out + Cells(Store(o, 4, v)) + Cells(Store(o, 4, w))
  {
    hide Store;
    LayOne(out, o, [], Word(v));
    LayOne(out, o, [Word(v)], Word(w));
    assert [] + [Word(v)] == [Word(v)] && [Word(v)] + [Word(w)] == [Word(v), Word(w)];
  }

  /** A whole encapsulated TypeCode behind an aligned place. */
  lemma Whole(t: TypeCode, e: Enc, o: Order, items: seq<Item>, n: nat)
    requires !t.Empty? && !t.Str? && !t.Fixed? && t.id !in e.prior && |e.out| % 4 == 0
    requires Laid(EncBody(t, OpenEncaps(Started(t, e, o), o), o), Started(t, e, o).out + Pads(4), o, items, n)
    ensures EncTC(t, e, o).out == Lay(e.out, o, [Word(KindOf(t)), Word(n)] + items)
  {
    hide *;
    PutKind(t, e, o);
    StartedIs(t, e, o);
    Encapsulated(t, Started(t, e, o), o, items, n);
    LayWords(e.out, o, KindOf(t), n);
    LayBehind(e.out, o, [Word(KindOf(t)), Word(n)], items);
  }

  /** The message with the kind of `t` in it. */
  ghost function Started(t: TypeCode, e: Enc, o: Order): Enc
    requires !t.Empty?
  {
    Enc(e.out + Cells(Store(o, 4, KindOf(t))), e.prior[t.id := |e.out|])
  }

  lemma StartedIs(t: TypeCode, e: Enc, o: Order)
    requires !t.Empty?
    ensures Started(t, e, o) == Enc(e.out + Cells(Store(o, 4, KindOf(t))), e.prior[t.id := |e.out|])
    ensures |Started(t, e, o).out| == |e.out| + 4 && Started(t, e, o).prior.Keys == e.prior.Keys + {t.id}
  {
    hide Store, KindOf;
  }

  /** The flag, the repository id "A" and the name "B". */
  ghost function Names(o: Order): seq<Item> {
    [Raw([OrderFlag(o)]), Gap(3), Word(2), Raw([65, 0]), Gap(2), Word(2), Raw([66, 0])]
  }

  lemma PutNamesAB(t: TypeCode, e: Enc, o: Order) returns (e3: Enc)
    requires t.ObjRef? || t.Record? || t.Union? || t.Enum? || t.Alias?
    requires t.repoId == [65] && t.name == [66] && |e.out| % 4 == 0
    ensures Laid(e3, Started(t, e, o).out + Pads(4), o, Names(o), 18)
    ensures EncBody(t, OpenEncaps(Started(t, e, o), o), o) == EncRest(t, e3, o)
    ensures e3.prior.Keys == e.prior.Keys + {t.id}
  {
    hide *;
    StartedIs(t, e, o);
    var e1 := Started(t, e, o);
    Opened(e1, o);
    var base := e1.out + Pads(4);
    var e2 := OpenEncaps(e1, o);
    PutText(e2, base, o, [Raw([OrderFlag(o)])], 1, 3, [65]);
    var items := [Raw([OrderFlag(o)])] + Gapped(3) + [Word(2)] + [Raw([65] + [0])];
    PutText(PutString(e2, o, [65]), base, o, items, 10, 2, [66]);
    e3 := PutString(PutString(e2, o, [65]), o, [66]);
    NamesAre(o);
    BodyNamed(t, e2, o);
  }

  lemma NamesAre(o: Order)
    ensures Names(o) == [Raw([OrderFlag(o)])] + Gapped(3) + [Word(2)] + [Raw([65] + [0])] + Gapped(2) + [Word(2)] + [Raw([66] + [0])]
  {
    assert [65] + [0] == [65, 0] && [66] + [0] == [66, 0];
  }

  lemma BodyNamed(t: TypeCode, e: Enc, o: Order)
    requires t.ObjRef? || t.Record? || t.Union? || t.Enum? || t.Alias?
    ensures EncBody(t, e, o) == EncRest(t, PutString(PutString(e, o, t.repoId), o, t.name), o)
  {
    hide PutString, PutNames, PutInt, EncTC, EncMembers, EncRest;
  }

  lemma PutBasic(e: Enc, base: seq<Cell>, o: Order, items: seq<Item>, n: nat, k: nat, kind: BasicKind)
    requires Laid(e, base, o, items, n) && (n + k) % 4 == 0 && k < 4
    ensures Laid(EncTC(Empty(kind), e, o), base, o, items + Gapped(k) + [Word(kind)], n + k + 4)
    ensures EncTC(Empty(kind), e, o).prior == e.prior
  {
    EncTCEmpty(Empty(kind), e, o);
    AlignTwice(e, 4);
    PutWord(e, base, o, items, n, k, kind);
    hide Align, AlignTo, Store, Lay, EncTC, Laid;
  }

  // ----- one TypeCode of each kind, behind an aligned place in a message -----

  lemma KnownBasic(k: BasicKind, e: Enc, o: Order)
    requires |e.out| % 4 == 0
    ensures EncTC(Empty(k), e, o).out == e.out + Cells(Store(o, 4, k))
  {
    hide EncTC;
    EncTCEmpty(Empty(k), e, o);
    PutHere(e, o, k);
  }

  lemma KnownString(id: nat, wide: bool, length: U32, e: Enc, o: Order)
    requires id !in e.prior && |e.out| % 4 == 0
    ensures EncTC(Str(id, wide, length), e, o).out == Lay(e.out, o, [Word(if wide then 27 else 18), Word(length)])
  {
    hide EncTC, Lay, PutInt, AlignTo, Store;
    var t := Str(id, wide, length);
    PutKind(t, e, o);
    PutHere(Enc(e.out + Cells(Store(o, 4, KindOf(t))), e.prior[id := |e.out|]), o, length);
    LayWords(e.out, o, KindOf(t), length);
  }

  lemma KnownObjRef(id: nat, e: Enc, o: Order)
    requires id !in e.prior && |e.out| % 4 == 0
    ensures EncTC(ObjRef(id, [65], [66]), e, o).out == Lay(e.out, o, [Word(14), Word(18)] + Names(o))
  {
    var t := ObjRef(id, [65], [66]);
    assert KindOf(t) == 14;
    hide *;
    var e3 := PutNamesAB(t, e, o);
    RestOfObjRef(t, e3, o);
    Whole(t, e, o, Names(o), 18);
  }

  lemma RestOfObjRef(t: TypeCode, e: Enc, o: Order)
    requires t.ObjRef?
    ensures EncRest(t, e, o) == e
  {
  }

  /** An alias of long. */
  lemma KnownAlias(id: nat, e: Enc, o: Order)
    requires id !in e.prior && |e.out| % 4 == 0
    ensures EncTC(Alias(id, [65], [66], Empty(3)), e, o).out
         == Lay(e.out, o, [Word(21), Word(24)] + Names(o) + [Gap(2), Word(3)])
  {
    var t := Alias(id, [65], [66], Empty(3));
    assert KindOf(t) == 21;
    hide *;
    var e3 := PutNamesAB(t, e, o);
    AliasLaid(t, e3, Started(t, e, o).out + Pads(4), o, Names(o));
    WholeNamed(t, e, o, [Gap(2), Word(3)], 24);
  }

  lemma AliasLaid(t: TypeCode, e: Enc, base: seq<Cell>, o: Order, items: seq<Item>)
    requires t.Alias? && t.content == Empty(3) && Laid(e, base, o, items, 18)
    ensures Laid(EncRest(t, e, o), base, o, items + [Gap(2), Word(3)], 24)
  {
    hide *;
    AfterGap(items, Word(3));
    PutBasic(e, base, o, items, 18, 2, t.content.kind);
    RestIs(t, e, o);
  }

  /** A sequence or array of five longs. */
  lemma KnownIndexed(id: nat, fixedSize: bool, e: Enc, o: Order)
    requires id !in e.prior && |e.out| % 4 == 0
    ensures EncTC(Indexed(id, fixedSize, Empty(3), 5), e, o).out == Lay(e.out, o,
      [Word(if fixedSize then 20 else 19), Word(12), Raw([OrderFlag(o)]), Gap(3), Word(3), Word(5)])
  {
    hide EncTC, Lay, Store, Laid, Started, OpenEncaps, EncBody, PutInt;
    var t := Indexed(id, fixedSize, Empty(3), 5);
    StartedIs(t, e, o);
    var e1 := Started(t, e, o);
    var base := e1.out + Pads(4);
    Opened(e1, o);
    var e2 := OpenEncaps(e1, o);
    PutBasic(e2, base, o, [Raw([OrderFlag(o)])], 1, 3, 3);
    PutWord(EncTC(Empty(3), e2, o), base, o, [Raw([OrderFlag(o)])] + Gapped(3) + [Word(3)], 8, 0, 5);
    BodyOfIndexed(t, e2, o);
    Whole(t, e, o, [Raw([OrderFlag(o)])] + Gapped(3) + [Word(3)] + Gapped(0) + [Word(5)], 12);
    assert [Word(KindOf(t)), Word(12)] + ([Raw([OrderFlag(o)])] + Gapped(3) + [Word(3)] + Gapped(0) + [Word(5)])
        == [Word(if fixedSize then 20 else 19), Word(12), Raw([OrderFlag(o)]), Gap(3), Word(3), Word(5)];
  }

  lemma KnownFixed(id: nat, digits: U16, scale: I16, e: Enc, o: Order)
    requires id !in e.prior && |e.out| % 4 == 0
    ensures EncTC(Fixed(id, digits, scale), e, o).out == Lay(e.out, o, [Word(28), Half(digits), Half(scale)])
  {
    hide *;
    var t := Fixed(id, digits, scale);
    StartedIs(t, e, o);
    var e1 := Started(t, e, o);
    PutKind(t, e, o);
    ParamsOfFixed(t, e1, o);
    LayNone(e1, o);
    PutHalf(e1, e1.out, o, [], 0, digits);
    PutHalf(PutInt(e1, o, 2, digits), e1.out, o, [] + [Half(digits)], 2, scale);
    LaidIs(PutInt(PutInt(e1, o, 2, digits), o, 2, scale), e1.out, o, [] + [Half(digits)] + [Half(scale)], 4);
    LayBehindKind(e.out, o, 28, [] + [Half(digits)] + [Half(scale)]);
    assert [Word(28)] + ([] + [Half(digits)] + [Half(scale)]) == [Word(28), Half(digits), Half(scale)];
  }

  lemma ParamsOfFixed(t: TypeCode, e: Enc, o: Order)
    requires t.Fixed?
    ensures EncParams(t, e, o) == PutInt(PutInt(e, o, 2, t.digits), o, 2, t.scale) && KindOf(t) == 28
  {
    hide PutInt;
  }

  lemma LayNone(e: Enc, o: Order)
    requires |e.out| % 4 == 0
    ensures Laid(e, e.out, o, [], 0)
  {
  }

  lemma LayBehindKind(out: seq<Cell>, o: Order, kind: int, items: seq<Item>)
    ensures Lay(out + Cells(Store(o, 4, kind)), o, items) == Lay(out, o, [Word(kind)] + items)
  {
    hide Store;
    LayOne(out, o, [], Word(kind));
    assert [] + [Word(kind)] == [Word(kind)];
    LayBehind(out, o, [Word(kind)], items);
  }

  lemma MembersStep(ms: seq<Member>, e: Enc, o: Order, labelKind: U32)
    ensures EncMembers(ms, e, o, labelKind) ==
      if ms == [] then e
      else EncMembers(ms[1..], EncTC(ms[0].tc, PutString(EncLabel(e, o, labelKind, ms[0].tag), o, ms[0].name), o), o, labelKind)
  {
    hide PutInt, PutString, EncTC, EncLabel;
  }

  lemma LabelOf(e: Enc, o: Order, labelKind: U32, tag: I32)
    ensures EncLabel(e, o, labelKind, tag) == if labelKind == 0 then e else PutInt(e, o, LabelSize(labelKind), tag)
  {
  }

  /** A structure or exception with the members `long x; short y`. */
  lemma KnownRecord(id: nat, except: bool, e: Enc, o: Order)
    requires id !in e.prior && |e.out| % 4 == 0
    ensures EncTC(Record(id, except, [65], [66], [Member(0, [120], Empty(3)), Member(0, [121], Empty(2))]), e, o).out
         == Lay(e.out, o, [Word(if except then 22 else 15), Word(48)] + Names(o)
              + [Gap(2), Word(2), Word(2), Raw([120, 0]), Gap(2), Word(3), Word(2), Raw([121, 0]), Gap(2), Word(2)])
  {
    var t := Record(id, except, [65], [66], [Member(0, [120], Empty(3)), Member(0, [121], Empty(2))]);
    assert KindOf(t) == if except then 22 else 15;
    hide *;
    var e3 := PutNamesAB(t, e, o);
    RecordLaid(t, e3, Started(t, e, o).out + Pads(4), o, Names(o));
    WholeNamed(t, e, o,
      [Gap(2), Word(2), Word(2), Raw([120, 0]), Gap(2), Word(3), Word(2), Raw([121, 0]), Gap(2), Word(2)], 48);
  }

  lemma RecordLaid(t: TypeCode, e: Enc, base: seq<Cell>, o: Order, items: seq<Item>)
    requires t.Record? && t.members == [Member(0, [120], Empty(3)), Member(0, [121], Empty(2))]
    requires Laid(e, base, o, items, 18)
    ensures Laid(EncRest(t, e, o), base, o, items
      + [Gap(2), Word(2), Word(2), Raw([120, 0]), Gap(2), Word(3), Word(2), Raw([121, 0]), Gap(2), Word(2)], 48)
  {
    AfterGap(items, Word(2));
    RecordItems(items);
    hide *;
    PutWord(e, base, o, items, 18, 2, 2);
    var e4 := PutInt(e, o, 4, 2);
    var e5 := PutMember(e4, base, o, items + [Gap(2), Word(2)], 24, t.members[0], 120, 3);
    var e6 := PutMember(e5, base, o, items + [Gap(2), Word(2)] + [Word(2), Raw([120, 0]), Gap(2), Word(3)], 36, t.members[1], 121, 2);
    RestIs(t, e, o);
    MembersStep(t.members, e4, o, 0);
    MembersStep(t.members[1..], e5, o, 0);
    MembersStep([], e6, o, 0);
  }

  lemma RecordItems(names: seq<Item>)
    ensures names + [Gap(2), Word(2)] + [Word(2), Raw([120, 0]), Gap(2), Word(3)] + [Word(2), Raw([121, 0]), Gap(2), Word(2)]
         == names + [Gap(2), Word(2), Word(2), Raw([120, 0]), Gap(2), Word(3), Word(2), Raw([121, 0]), Gap(2), Word(2)]
  {
  }

  /** One member of a structure: its name and its type. */
  lemma PutMember(e: Enc, base: seq<Cell>, o: Order, items: seq<Item>, n: nat, m: Member, c: Byte, kind: BasicKind)
    returns (r: Enc)
    requires Laid(e, base, o, items, n) && n % 4 == 0 && c != 0 && m.name == [c] && m.tc == Empty(kind)
    ensures r == EncTC(m.tc, PutString(EncLabel(e, o, 0, m.tag), o, m.name), o) && r.prior == e.prior
    ensures Laid(r, base, o, items + [Word(2), Raw([c, 0]), Gap(2), Word(kind)], n + 12)
  {
    hide *;
    LabelOf(e, o, 0, m.tag);
    PutText(e, base, o, items, n, 0, m.name);
    var e1 := PutString(e, o, m.name);
    PutBasic(e1, base, o, items + Gapped(0) + [Word(2)] + [Raw(m.name + [0])], n + 6, 2, kind);
    r := EncTC(m.tc, e1, o);
    MemberItems(items, c, kind);
  }

  lemma MemberItems(items: seq<Item>, c: Byte, kind: int)
    ensures items + Gapped(0) + [Word(2)] + [Raw([c] + [0])] + Gapped(2) + [Word(kind)]
         == items + [Word(2), Raw([c, 0]), Gap(2), Word(kind)]
  {
    assert [c] + [0] == [c, 0];
    assert items + Gapped(0) == items;
  }

  /** An enumeration of x and y. */
  lemma KnownEnum(id: nat, e: Enc, o: Order)
    requires id !in e.prior && |e.out| % 4 == 0
    ensures EncTC(Enum(id, [65], [66], [[120], [121]]), e, o).out
         == Lay(e.out, o, [Word(17), Word(38)] + Names(o)
              + [Gap(2), Word(2), Word(2), Raw([120, 0]), Gap(2), Word(2), Raw([121, 0])])
  {
    var t := Enum(id, [65], [66], [[120], [121]]);
    assert KindOf(t) == 17;
    hide *;
    var base := Started(t, e, o).out + Pads(4);
    var e3 := PutNamesAB(t, e, o);
    EnumLaid(t, e3, base, o, Names(o));
    WholeNamed(t, e, o, [Gap(2), Word(2), Word(2), Raw([120, 0]), Gap(2), Word(2), Raw([121, 0])], 38);
  }

  lemma EnumLaid(t: TypeCode, e: Enc, base: seq<Cell>, o: Order, items: seq<Item>)
    requires t.Enum? && t.names == [[120], [121]] && Laid(e, base, o, items, 18)
    ensures Laid(EncRest(t, e, o), base, o,
      items + [Gap(2), Word(2), Word(2), Raw([120, 0]), Gap(2), Word(2), Raw([121, 0])], 38)
  {
    hide *;
    PutWord(e, base, o, items, 18, 2, 2);
    var e4 := PutInt(e, o, 4, 2);
    var i1 := items + Gapped(2) + [Word(2)];
    PutName(e4, base, o, i1, 24, 0, 120);
    var i2 := i1 + (Gapped(0) + [Word(2), Raw([120, 0])]);
    PutName(PutString(e4, o, [120]), base, o, i2, 30, 2, 121);
    EnumRest(t, e, o);
    EnumItems(items);
  }

  lemma EnumItems(names: seq<Item>)
    ensures names + Gapped(2) + [Word(2)] + (Gapped(0) + [Word(2), Raw([120, 0])]) + (Gapped(2) + [Word(2), Raw([121, 0])])
         == names + [Gap(2), Word(2), Word(2), Raw([120, 0]), Gap(2), Word(2), Raw([121, 0])]
  {
  }

  /** A name of one character. */
  lemma PutName(e: Enc, base: seq<Cell>, o: Order, items: seq<Item>, n: nat, k: nat, c: Byte)
    requires Laid(e, base, o, items, n) && (n + k) % 4 == 0 && k < 4 && c != 0
    ensures Laid(PutString(e, o, [c]), base, o, items + (Gapped(k) + [Word(2), Raw([c, 0])]), n + k + 6)
    ensures PutString(e, o, [c]).prior == e.prior
  {
    hide *;
    PutText(e, base, o, items, n, k, [c]);
    assert [c] + [0] == [c, 0];
    assert items + Gapped(k) + [Word(2)] + [Raw([c, 0])] == items + (Gapped(k) + [Word(2), Raw([c, 0])]);
  }

  /** A word where no padding is needed. */
  lemma PutNext(e: Enc, base: seq<Cell>, o: Order, items: seq<Item>, n: nat, v: int)
    requires Laid(e, base, o, items, n) && n % 4 == 0
    ensures Laid(PutInt(e, o, 4, v), base, o, items + [Word(v)], n + 4)
    ensures PutInt(e, o, 4, v).prior == e.prior
  {
    assert items + Gapped(0) == items;
    hide *;
    PutWord(e, base, o, items, n, 0, v);
  }

  lemma EnumRest(t: TypeCode, e: Enc, o: Order)
    requires t.Enum? && t.names == [[120], [121]]
    ensures EncRest(t, e, o) == PutString(PutString(PutInt(e, o, 4, 2), o, [120]), o, [121])
  {
    hide *;
    EnumStep(t, e, o);
    var e4 := PutInt(e, o, 4, 2);
    NamesStep(t.names, e4, o);
    NamesStep(t.names[1..], PutString(e4, o, [120]), o);
    NamesStep([], PutString(PutString(e4, o, [120]), o, [121]), o);
  }

  lemma EnumStep(t: TypeCode, e: Enc, o: Order)
    requires t.Enum?
    ensures EncRest(t, e, o) == PutNames(PutInt(e, o, 4, |t.names|), o, t.names)
  {
    hide PutNames, PutInt;
  }

  lemma NamesStep(names: seq<CStr>, e: Enc, o: Order)
    ensures PutNames(e, o, names) == if names == [] then e else PutNames(PutString(e, o, names[0]), o, names[1..])
  {
    hide PutString;
  }

  /** union switch (long) { case 7: long x; }: discriminator, default index, count, and a label before the name. */
  lemma KnownUnion(id: nat, e: Enc, o: Order)
    requires id !in e.prior && |e.out| % 4 == 0
    ensures EncTC(Union(id, [65], [66], Empty(3), -1, [Member(7, [120], Empty(3))]), e, o).out
         == Lay(e.out, o, [Word(16), Word(48)] + Names(o)
              + [Gap(2), Word(3), Word(-1), Word(1), Word(7), Word(2), Raw([120, 0]), Gap(2), Word(3)])
  {
    var t := Union(id, [65], [66], Empty(3), -1, [Member(7, [120], Empty(3))]);
    assert KindOf(t) == 16;
    AfterGap(Names(o), Word(3));
    UnionItems(Names(o));
    hide *;
    var base := Started(t, e, o).out + Pads(4);
    var e3 := PutNamesAB(t, e, o);
    PutBasic(e3, base, o, Names(o), 18, 2, 3);
    var d := EncTC(t.discriminator, e3, o);
    var i1 := Names(o) + [Gap(2), Word(3)];
    PutNext(d, base, o, i1, 24, -1);
    PutNext(PutInt(d, o, 4, -1), base, o, i1 + [Word(-1)], 28, 1);
    UnionRest(t, e3, base, o, i1 + [Word(-1)] + [Word(1)]);
    WholeNamed(t, e, o, [Gap(2), Word(3), Word(-1), Word(1), Word(7), Word(2), Raw([120, 0]), Gap(2), Word(3)], 48);
  }

  lemma UnionRest(t: TypeCode, e: Enc, base: seq<Cell>, o: Order, items: seq<Item>)
    requires t.Union? && t.discriminator == Empty(3) && t.defaultIndex == -1 && t.members == [Member(7, [120], Empty(3))]
    requires Laid(PutInt(PutInt(EncTC(t.discriminator, e, o), o, 4, -1), o, 4, 1), base, o, items, 32)
    ensures Laid(EncRest(t, e, o), base, o, items + [Word(7)] + [Word(2), Raw([120, 0]), Gap(2), Word(3)], 48)
  {
    hide *;
    LongLabel();
    var e4 := PutInt(PutInt(EncTC(t.discriminator, e, o), o, 4, -1), o, 4, 1);
    PutNext(e4, base, o, items, 32, 7);
    var e5 := PutInt(e4, o, 4, 7);
    LabelOf(e4, o, 3, 7);
    LabelOf(e5, o, 0, 7);
    var e6 := PutMember(e5, base, o, items + [Word(7)], 36, t.members[0], 120, 3);
    RestIs(t, e, o);
    MembersStep(t.members, e4, o, 3);
    MembersStep([], e6, o, 3);
  }

  lemma LongLabel()
    ensures KindOf(Empty(3)) == 3 && LabelSize(3) == 4
  {
  }

  lemma UnionItems(names: seq<Item>)
    ensures names + [Gap(2), Word(3)] + [Word(-1)] + [Word(1)] + [Word(7)] + [Word(2), Raw([120, 0]), Gap(2), Word(3)]
         == names + [Gap(2), Word(3), Word(-1), Word(1), Word(7), Word(2), Raw([120, 0]), Gap(2), Word(3)]
  {
  }

  lemma AfterGap(items: seq<Item>, i: Item)
    ensures items + Gapped(2) + [i] == items + [Gap(2), i]
  {
  }

  /** A whole TypeCode with the names. */
  lemma WholeNamed(t: TypeCode, e: Enc, o: Order, tail: seq<Item>, n: nat)
    requires !t.Empty? && !t.Str? && !t.Fixed? && t.id !in e.prior && |e.out| % 4 == 0
    requires Laid(EncBody(t, OpenEncaps(Started(t, e, o), o), o), Started(t, e, o).out + Pads(4), o, Names(o) + tail, n)
    ensures EncTC(t, e, o).out == Lay(e.out, o, [Word(KindOf(t)), Word(n)] + Names(o) + tail)
  {
    hide *;
    Whole(t, e, o, Names(o) + tail, n);
    assert [Word(KindOf(t)), Word(n)] + (Names(o) + tail) == [Word(KindOf(t)), Word(n)] + Names(o) + tail;
  }
}

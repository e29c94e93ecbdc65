/** Values of arbitrary type in CDR: what MateCORBA_marshal_value writes and MateCORBA_demarshal_value
    reads, and that the second undoes the first. */
module Values {
  import opened Cdr
  import opened TypeCodes
  import opened TypeCodeRoundTrip
  import opened TypeCodeEquality

  /** A wide C string, without its terminator. */
  type WStr = s: seq<U16> | 0 !in s witness []

  /** A value in memory. `Num` is the bit pattern of a number, character, boolean or enumerator. */
  datatype Value =
    | Num(bits: nat)
    | Text(str: CStr)
    | Wide(wstr: WStr)
    | TypeCodeV(tc: TypeCode)
    | AnyV(tc: TypeCode, content: Value)
    | Parts(vs: seq<Value>)
    | UnionV(disc: Value, body: Value)
    | Nothing

  /** The size of the types that are sent as one aligned unit, and 0 for the others. */
  function PrimSize(x: TypeCode): (n: nat)
    ensures n in {0, 1, 2, 4, 8}
  {
    if x.Enum? then 4
    else if !x.Empty? then 0
    else if x.kind in {8, 9, 10} then 1
    else if x.kind in {2, 4, 26} then 2
    else if x.kind in {3, 5, 6} then 4
    else if x.kind in {7, 23, 24, 25} then 8
    else 0
  }

  // ----- unions -----

  /** The discriminators MateCORBA_get_union_switch handles. */
  predicate SwitchType(x: TypeCode) {
    x.Enum? || (x.Empty? && x.kind in {2, 3, 4, 5, 8, 9, 10})
  }

  /** MateCORBA_get_union_switch: both short kinds are read as signed, all one-byte kinds as unsigned. */
  function SwitchValue(x: TypeCode, bits: nat): int {
    if PrimSize(x) == 1 then bits
    else if PrimSize(x) == 2 then (if bits < 0x8000 then bits else bits - 0x1_0000)
    else if bits < 0x8000_0000 then bits else bits - 0x1_0000_0000
  }

  datatype Choice = NoMember | Chosen(tc: TypeCode)

  /** The first member with the label, other than the default one. */
  function LabelIndex(ms: seq<Member>, skip: int, sw: int): (i: nat)
    ensures i <= |ms|
    ensures i < |ms| ==> ms[i].tag == sw && i != skip
    ensures forall j :: 0 <= j < i && j != skip ==> ms[j].tag != sw
  {
    if ms == [] then 0
    else if skip != 0 && ms[0].tag == sw then 0
    else
      var r := LabelIndex(ms[1..], skip - 1, sw);
      assert forall j :: 1 <= j < r + 1 ==> ms[j] == ms[1..][j - 1];
      1 + r
  }

  /** MateCORBA_get_union_tag. A default index outside the members is an error in the TypeCode. */
  function UnionTag(x: TypeCode, sw: int): Choice
    requires x.Union?
  {
    var i := LabelIndex(x.members, x.defaultIndex, sw);
    if i < |x.members| then Chosen(x.members[i].tc)
    else if x.defaultIndex < 0 then Chosen(Empty(0))
    else if x.defaultIndex < |x.members| then Chosen(x.members[x.defaultIndex].tc)
    else NoMember
  }

  /** The discriminator value that a label stands for selects the label's member exactly when the label
      survives get_union_switch: labels of an unsigned short from 0x8000 on, and negative characters,
      never match. */
  lemma LabelMatches(x: TypeCode, tag: I32)
    requires SwitchType(x) && LabelKind(KindOf(x)) && LabelFits(KindOf(x), tag)
    ensures SwitchValue(x, tag % Pow256(PrimSize(x))) == tag
      <==> !(KindOf(x) == 4 && tag >= 0x8000) && !(KindOf(x) == 9 && tag < 0)
  {
    Pow256Values();
    if PrimSize(x) == 4 {
      assert tag % 0x1_0000_0000 == if tag >= 0 then tag else tag + 0x1_0000_0000;
    } else if PrimSize(x) == 2 {
      assert tag % 0x1_0000 == if tag >= 0 then tag else tag + 0x1_0000;
    }
  }

  // ----- typing -----

  predicate HasType(t: TypeCode, v: Value)
    decreases v, 0
  {
    var x := Unalias(t);
    if PrimSize(x) > 0 then v.Num? && v.bits < Pow256(PrimSize(x))
    else
      match x
      case Empty(kind) =>
        if kind in {0, 1} then v.Nothing?
        else if kind == 11 then v.AnyV? && WellFormed(v.tc) && HasType(v.tc, v.content)
        else kind == 12 && v.TypeCodeV? && WellFormed(v.tc)
      case Str(_, wide, _) =>
        if wide then v.Wide? && 2 * (|v.wstr| + 1) < 0x8000_0000 else v.Text? && |v.str| + 1 < 0x8000_0000
      case Record(_, _, _, _, members) => v.Parts? && MembersHaveType(members, v.vs)
      case Union(_, _, _, disc, _, _) =>
        && v.UnionV? && SwitchType(Unalias(disc)) && HasType(disc, v.disc)
        && var c := UnionTag(x, SwitchValue(Unalias(disc), v.disc.bits));
        && c.Chosen? && HasType(c.tc, v.body)
      case Indexed(_, fixedSize, content, length) =>
        && v.Parts? && (if fixedSize then 0 < |v.vs| == length else |v.vs| < 0x1_0000_0000)
        && ElemsHaveType(content, v.vs)
      case _ => false
  }

  predicate MembersHaveType(ms: seq<Member>, vs: seq<Value>)
    decreases vs, 0
  {
    |ms| == |vs| && (vs == [] || (HasType(ms[0].tc, vs[0]) && MembersHaveType(ms[1..], vs[1..])))
  }

  predicate ElemsHaveType(t: TypeCode, vs: seq<Value>)
    decreases vs, 0
  {
    vs == [] || (HasType(t, vs[0]) && ElemsHaveType(t, vs[1..]))
  }

  /** All TypeCodes in the value live in one memory. */
  ghost predicate ValueInHeap(h: map<nat, TypeCode>, v: Value) {
    match v
    case TypeCodeV(tc) => InHeap(h, tc)
    case AnyV(tc, content) => InHeap(h, tc) && ValueInHeap(h, content)
    case Parts(vs) => PartsInHeap(h, vs)
    case UnionV(_, body) => ValueInHeap(h, body)
    case _ => true
  }

  ghost predicate PartsInHeap(h: map<nat, TypeCode>, vs: seq<Value>) {
    vs == [] || (ValueInHeap(h, vs[0]) && PartsInHeap(h, vs[1..]))
  }

  // ----- the sender -----

  function PutNum(out: seq<Cell>, o: Order, n: nat, v: int): (r: seq<Cell>)
    requires n > 0
    ensures out <= r
  {
    PutInt(Enc(out, map[]), o, n, v).out
  }

  function WideBytes(o: Order, ws: seq<U16>): (s: seq<Byte>)
    ensures |s| == 2 * |ws|
  {
    if ws == [] then [] else Store(o, 2, ws[0]) + WideBytes(o, ws[1..])
  }

  /** MateCORBA_marshal_value, element by element. */
  function Marshal(t: TypeCode, v: Value, out: seq<Cell>, o: Order): (r: seq<Cell>)
    requires HasType(t, v)
    ensures out <= r
    decreases v, 0
  {
    var x := Unalias(t);
    if PrimSize(x) > 0 then PutNum(out, o, PrimSize(x), v.bits)
    else
      match v
      case Nothing => out
      case TypeCodeV(tc) => EncTC(tc, Enc(out, map[]), o).out
      case AnyV(tc, content) => Marshal(tc, content, EncTC(tc, Enc(out, map[]), o).out, o)
      case Text(str) => PutString(Enc(out, map[]), o, str).out
      case Wide(wstr) =>
        PutNum(out, o, 4, 2 * (|wstr| + 1)) + Cells(Store(o, 2, 0xfeff)) + Cells(WideBytes(o, wstr))
      case Parts(vs) =>
        if x.Record? then MarshalMembers(x.members, vs, out, o)
        else MarshalElems(x.content, vs, if x.fixedSize then out else PutNum(out, o, 4, |vs|), o)
      case UnionV(disc, body) =>
        assert HasType(x.discriminator, disc) && PrimSize(Unalias(x.discriminator)) > 0;
        var tag := UnionTag(x, SwitchValue(Unalias(x.discriminator), disc.bits));
        Marshal(tag.tc, body, Marshal(x.discriminator, disc, out, o), o)
  }

  function MarshalMembers(ms: seq<Member>, vs: seq<Value>, out: seq<Cell>, o: Order): (r: seq<Cell>)
    requires MembersHaveType(ms, vs)
    ensures out <= r
    decreases vs, 0
  {
    if vs == [] then out else MarshalMembers(ms[1..], vs[1..], Marshal(ms[0].tc, vs[0], out, o), o)
  }

  function MarshalElems(t: TypeCode, vs: seq<Value>, out: seq<Cell>, o: Order): (r: seq<Cell>)
    requires ElemsHaveType(t, vs)
    ensures out <= r
    decreases vs, 0
  {
    if vs == [] then out else MarshalElems(t, vs[1..], Marshal(t, vs[0], out, o), o)
  }

  // ----- the receiver -----

  function UpToZero(s: seq<U16>): WStr {
    if s == [] || s[0] == 0 then [] else [s[0]] + UpToZero(s[1..])
  }

  function LoadU16(o: Order, s: seq<Byte>): U16
    requires |s| == 2
  {
    var a: int, b: int := s[0], s[1];
    if o == LittleEndian then a + 256 * b else 256 * a + b
  }

  function WideChars(o: Order, s: seq<Byte>): (ws: seq<U16>)
    ensures |ws| == |s| / 2
  {
    if |s| < 2 then [] else [LoadU16(o, s[..2])] + WideChars(o, s[2..])
  }

  /** A wide string in memory: the byte order mark decides the order, and without one it is big-endian. */
  function WideString(s: seq<Byte>): WStr {
    if |s| >= 2 && LoadU16(LittleEndian, s[..2]) == 0xfeff then UpToZero(WideChars(LittleEndian, s[2..]))
    else if |s| >= 2 && LoadU16(BigEndian, s[..2]) == 0xfeff then UpToZero(WideChars(BigEndian, s[2..]))
    else UpToZero(WideChars(BigEndian, s))
  }

  /** A length and that many bytes. The length is kept in a signed variable. */
  function GetBlock(w: Window, st: Dec): (r: Parsed<seq<Byte>>)
    ensures r.Ok? ==> st.cur <= r.st.cur <= w.end && r.st == st.(cur := r.st.cur)
  {
    var (len, s) :- GetInt(w, 4, st);
    if len >= 0x8000_0000 || s.cur + len > w.end then Fail
    else Ok(w.mem[s.cur..s.cur + len], s.(cur := s.cur + len))
  }

  function GetTC(w: Window, st: Dec): (r: Parsed<TypeCode>)
    ensures r.Ok? ==> st.cur < r.st.cur <= w.end
  {
    var (tc, s) :- DecTC(w, Dec(st.cur, map[], st.next));
    Ok(tc, s.(prior := st.prior))
  }

  /** MateCORBA_demarshal_value, element by element. */
  function Demarshal(w: Window, t: TypeCode, st: Dec): (r: Parsed<Value>)
    ensures r.Ok? ==> st.cur <= r.st.cur && (r.st.cur <= w.end || r.st.cur == st.cur)
    decreases w.end - st.cur, t, 0
  {
    var x := Unalias(t);
    if PrimSize(x) > 0 then
      var (bits, s) :- GetInt(w, PrimSize(x), st);
      Ok(Num(bits), s)
    else
      match x
      case Empty(kind) =>
        if kind in {0, 1} then Ok(Nothing, st)
        else if kind == 11 then
          var (tc, s1) :- GetTC(w, st);
          var (content, s2) :- Demarshal(w, tc, s1);
          Ok(AnyV(tc, content), s2)
        else if kind == 12 then
          var (tc, s1) :- GetTC(w, st);
          Ok(TypeCodeV(tc), s1)
        else Fail
      case Str(_, wide, _) =>
        var (s, s1) :- GetBlock(w, st);
        if !wide then Ok(Text(CString(s)), s1)
        else if |s| % 2 != 0 then Fail
        else Ok(Wide(WideString(s)), s1)
      case Record(_, _, _, _, members) =>
        var (vs, s1) :- DemarshalMembers(w, members, st);
        Ok(Parts(vs), s1)
      case Union(_, _, _, disc, _, members) =>
        var (d, s1) :- Demarshal(w, disc, st);
        if !SwitchType(Unalias(disc)) || !d.Num? then Fail
        else
          var c := UnionTag(x, SwitchValue(Unalias(disc), d.bits));
          if c.NoMember? then Fail
          else
            UnionTagPart(x, SwitchValue(Unalias(disc), d.bits));
            var (body, s2) :- Demarshal(w, c.tc, s1);
            Ok(UnionV(d, body), s2)
      case Indexed(_, fixedSize, content, length) =>
        if fixedSize then
          var (vs, s1) :- DemarshalElems(w, content, length, st);
          Ok(Parts(vs), s1)
        else
          var (count, s0) :- GetInt(w, 4, st);
          var (vs, s1) :- DemarshalElems(w, content, count, s0);
          Ok(Parts(vs), s1)
      case _ => Fail
  }

  lemma UnionTagPart(x: TypeCode, sw: int)
    requires x.Union? && UnionTag(x, sw).Chosen?
    ensures UnionTag(x, sw).tc < x || UnionTag(x, sw).tc == Empty(0)
  {
  }

  function DemarshalMembers(w: Window, ms: seq<Member>, st: Dec): (r: Parsed<seq<Value>>)
    ensures r.Ok? ==> st.cur <= r.st.cur && (r.st.cur <= w.end || r.st.cur == st.cur) && |r.value| == |ms|
    decreases w.end - st.cur, ms, 0
  {
    if ms == [] then Ok([], st)
    else
      var (v, s1) :- Demarshal(w, ms[0].tc, st);
      var (vs, s2) :- DemarshalMembers(w, ms[1..], s1);
      Ok([v] + vs, s2)
  }

  function DemarshalElems(w: Window, t: TypeCode, count: nat, st: Dec): (r: Parsed<seq<Value>>)
    ensures r.Ok? ==> st.cur <= r.st.cur && (r.st.cur <= w.end || r.st.cur == st.cur) && |r.value| == count
    decreases w.end - st.cur, t, count
  {
    if count == 0 then Ok([], st)
    else
      var (v, s1) :- Demarshal(w, t, st);
      var (vs, s2) :- DemarshalElems(w, t, count - 1, s1);
      Ok([v] + vs, s2)
  }

  // ----- which member a label selects -----

  /** Member `i` is not the default one, and is the first of those with label `sw`. */
  predicate FirstWithLabel(x: TypeCode, i: int, sw: int)
    requires x.Union?
  {
    && 0 <= i < |x.members| && i != x.defaultIndex && x.members[i].tag == sw
    && forall j :: 0 <= j < i && j != x.defaultIndex ==> x.members[j].tag != sw
  }

  /** No member but the default one has label `sw`. */
  predicate Unlabelled(x: TypeCode, sw: int)
    requires x.Union?
  {
    forall j :: 0 <= j < |x.members| && j != x.defaultIndex ==> x.members[j].tag != sw
  }

  lemma TagOfLabel(x: TypeCode, i: nat, sw: int)
    requires x.Union? && FirstWithLabel(x, i, sw)
    ensures UnionTag(x, sw) == Chosen(x.members[i].tc)
  {
    var k := LabelIndex(x.members, x.defaultIndex, sw);
    assert k >= i;
    assert k <= i;
  }

  lemma TagOfNoLabel(x: TypeCode, sw: int)
    requires x.Union? && Unlabelled(x, sw)
    ensures 0 <= x.defaultIndex < |x.members| ==> UnionTag(x, sw) == Chosen(x.members[x.defaultIndex].tc)
    ensures x.defaultIndex < 0 ==> UnionTag(x, sw) == Chosen(Empty(0))
    ensures x.defaultIndex >= |x.members| ==> UnionTag(x, sw) == NoMember
  {
    assert LabelIndex(x.members, x.defaultIndex, sw) == |x.members|;
  }

  /** The type of the member in use, for the discriminator's bit pattern: that of the first member with the label,
      or else of the default member, or else null. */
  ghost predicate Selects(x: TypeCode, bits: nat, body: TypeCode)
    requires x.Union?
  {
    var sw := SwitchValue(Unalias(x.discriminator), bits);
    || (exists i :: FirstWithLabel(x, i, sw) && body == x.members[i].tc)
    || (Unlabelled(x, sw) && 0 <= x.defaultIndex < |x.members| && body == x.members[x.defaultIndex].tc)
    || (Unlabelled(x, sw) && x.defaultIndex < 0 && body == Empty(0))
  }

  /** A union is sent as its discriminator and then the member that this selects, and a value of the union has that
      member's type. */
  lemma UnionSent(x: TypeCode, bits: nat, body: TypeCode, v: Value, out: seq<Cell>, o: Order)
    requires x.Union? && SwitchType(Unalias(x.discriminator)) && bits < Pow256(PrimSize(Unalias(x.discriminator)))
    requires Selects(x, bits, body)
    ensures HasType(x, UnionV(Num(bits), v)) <==> HasType(body, v)
    ensures HasType(body, v) ==>
      Marshal(x, UnionV(Num(bits), v), out, o) == Marshal(body, v, PutNum(out, o, PrimSize(Unalias(x.discriminator)), bits), o)
  {
    hide PutNum, Pow256;
    SelectedTag(x, bits, body);
    hide UnionTag, Selects, SwitchValue;
    assert HasType(x.discriminator, Num(bits));
    assert Unalias(x) == x;
  }

  lemma SelectedTag(x: TypeCode, bits: nat, body: TypeCode)
    requires x.Union? && Selects(x, bits, body)
    ensures UnionTag(x, SwitchValue(Unalias(x.discriminator), bits)) == Chosen(body)
  {
    var sw := SwitchValue(Unalias(x.discriminator), bits);
    if Unlabelled(x, sw) {
      TagOfNoLabel(x, sw);
    } else {
      var i :| FirstWithLabel(x, i, sw) && body == x.members[i].tc;
      TagOfLabel(x, i, sw);
    }
  }

  /** The receiver reads the discriminator, and then the member that it selects. */
  lemma UnionReceived(w: Window, x: TypeCode, bits: nat, body: TypeCode, st: Dec, s1: Dec)
    requires x.Union? && SwitchType(Unalias(x.discriminator)) && Selects(x, bits, body)
    requires GetInt(w, PrimSize(Unalias(x.discriminator)), st) == Ok(bits, s1)
    ensures Demarshal(w, x, st) ==
      if Demarshal(w, body, s1).Fail? then Fail
      else Ok(UnionV(Num(bits), Demarshal(w, body, s1).value), Demarshal(w, body, s1).st)
  {
    SelectedTag(x, bits, body);
    assert PrimSize(Unalias(x.discriminator)) > 0;
    hide UnionTag, Selects, SwitchValue, GetInt, SwitchType;
    assert Demarshal(w, x.discriminator, st) == Ok(Num(bits), s1);
    assert Unalias(x) == x && PrimSize(x) == 0;
  }

  /** A label that the receiver can match: sent as its discriminator, it makes the receiver read its own member. */
  lemma LabelReceived(w: Window, x: TypeCode, i: nat, st: Dec, s1: Dec)
    requires x.Union? && i < |x.members|
    requires var d := Unalias(x.discriminator);
      && SwitchType(d) && LabelKind(KindOf(d)) && LabelFits(KindOf(d), x.members[i].tag)
      && !(KindOf(d) == 4 && x.members[i].tag >= 0x8000) && !(KindOf(d) == 9 && x.members[i].tag < 0)
      && GetInt(w, PrimSize(d), st) == Ok(x.members[i].tag % Pow256(PrimSize(d)), s1)
    requires i != x.defaultIndex && forall j :: 0 <= j < i && j != x.defaultIndex ==> x.members[j].tag != x.members[i].tag
    ensures Demarshal(w, x, st) ==
      var r := Demarshal(w, x.members[i].tc, s1);
      if r.Fail? then Fail
      else Ok(UnionV(Num(x.members[i].tag % Pow256(PrimSize(Unalias(x.discriminator)))), r.value), r.st)
  {
    var d, tag := Unalias(x.discriminator), x.members[i].tag;
    LabelMatches(d, tag);
    assert FirstWithLabel(x, i, tag);
    hide Demarshal, SwitchValue, Pow256, PrimSize, LabelFits, LabelKind, GetInt;
    assert Selects(x, tag % Pow256(PrimSize(d)), x.members[i].tc);
    UnionReceived(w, x, tag % Pow256(PrimSize(d)), x.members[i].tc, st, s1);
  }

  // ----- equivalent types -----

  lemma SamePrimSize(x: TypeCode, y: TypeCode)
    requires Equiv(x, y, false) && !x.Alias? && !y.Alias?
    ensures PrimSize(x) == PrimSize(y) && SwitchType(x) == SwitchType(y)
    ensures x.Empty? <==> y.Empty?
    ensures x.Empty? ==> x == y
    ensures !x.Empty? && !x.Indexed? ==> !y.Indexed?
  {
  }

  lemma {:induction false} LabelIndexEquiv(ms: seq<Member>, ns: seq<Member>, skip: int, sw: int)
    requires |ms| == |ns| && EquivMembers(ms, ns, false, true)
    ensures LabelIndex(ms, skip, sw) == LabelIndex(ns, skip, sw)
  {
    if ms != [] {
      LabelIndexEquiv(ms[1..], ns[1..], skip - 1, sw);
    }
  }

  lemma {:induction false} MemberEquiv(ms: seq<Member>, ns: seq<Member>, i: nat)
    requires i < |ms| == |ns| && EquivMembers(ms, ns, false, true)
    ensures Equiv(ms[i].tc, ns[i].tc, false)
  {
    if i > 0 {
      MemberEquiv(ms[1..], ns[1..], i - 1);
    }
  }

  lemma UnionTagEquiv(x: TypeCode, y: TypeCode, sw: int)
    requires x.Union? && y.Union? && Equiv(x, y, false)
    ensures UnionTag(x, sw).Chosen? == UnionTag(y, sw).Chosen?
    ensures UnionTag(x, sw).Chosen? ==> Equiv(UnionTag(x, sw).tc, UnionTag(y, sw).tc, false)
  {
    LabelIndexEquiv(x.members, y.members, x.defaultIndex, sw);
    forall i | 0 <= i < |x.members| ensures Equiv(x.members[i].tc, y.members[i].tc, false) {
      MemberEquiv(x.members, y.members, i);
    }
    EquivRefl(Empty(0), false);
  }

  lemma EquivUnaliased(a: TypeCode, b: TypeCode)
    requires Equiv(a, b, false)
    ensures Equiv(Unalias(a), Unalias(b), false)
  {
    SameUnaliased(Unalias(a), Unalias(b), a, b);
  }

  /** A type's aliases, identities and names do not matter to the receiver. */
  lemma {:induction false} DemarshalEquiv(w: Window, a: TypeCode, b: TypeCode, st: Dec)
    requires Equiv(a, b, false)
    ensures Demarshal(w, a, st) == Demarshal(w, b, st)
    decreases w.end - st.cur, a, 2
  {
    hide GetInt, GetTC, GetBlock, WideString, CString, UnionTag, SwitchValue;
    var x, y := Unalias(a), Unalias(b);
    EquivUnaliased(a, b);
    SamePrimSize(x, y);
    if PrimSize(x) > 0 {
    } else if x.Record? {
      DemarshalMembersEquiv(w, x.members, y.members, st);
    } else if x.Indexed? {
      if x.fixedSize {
        DemarshalElemsEquiv(w, x.content, y.content, x.length, st);
      } else if GetInt(w, 4, st).Ok? {
        DemarshalElemsEquiv(w, x.content, y.content, GetInt(w, 4, st).value, GetInt(w, 4, st).st);
      }
    } else if x.Union? {
      DemarshalUnionEquiv(w, x, y, st);
    }
  }

  lemma {:induction false} DemarshalUnionEquiv(w: Window, x: TypeCode, y: TypeCode, st: Dec)
    requires Equiv(x, y, false) && x.Union? && y.Union?
    ensures Demarshal(w, x, st) == Demarshal(w, y, st)
    decreases w.end - st.cur, x, 1
  {
    hide GetInt, GetTC, GetBlock, WideString, CString, UnionTag, SwitchValue;
    EquivUnaliased(x.discriminator, y.discriminator);
    SamePrimSize(Unalias(x.discriminator), Unalias(y.discriminator));
    DemarshalEquiv(w, x.discriminator, y.discriminator, st);
    var r := Demarshal(w, x.discriminator, st);
    if r.Ok? && r.value.Num? && SwitchType(Unalias(x.discriminator)) {
      var sw := SwitchValue(Unalias(x.discriminator), r.value.bits);
      SameSwitch(Unalias(x.discriminator), Unalias(y.discriminator), r.value.bits);
      UnionTagEquiv(x, y, sw);
      if UnionTag(x, sw).Chosen? {
        if UnionTag(x, sw).tc != Empty(0) {
          UnionTagPart(x, sw);
          DemarshalEquiv(w, UnionTag(x, sw).tc, UnionTag(y, sw).tc, r.st);
        } else {
          SamePrimSize(Empty(0), Unalias(UnionTag(y, sw).tc));
        }
      }
    }
  }

  lemma SameSwitch(x: TypeCode, y: TypeCode, bits: nat)
    requires PrimSize(x) == PrimSize(y)
    ensures SwitchValue(x, bits) == SwitchValue(y, bits)
  {
  }

  lemma {:induction false} DemarshalMembersEquiv(w: Window, ms: seq<Member>, ns: seq<Member>, st: Dec)
    requires |ms| == |ns| && EquivMembers(ms, ns, false, false)
    ensures DemarshalMembers(w, ms, st) == DemarshalMembers(w, ns, st)
    decreases w.end - st.cur, ms, 0
  {
    hide Demarshal, Equiv, DemarshalElems;
    if ms != [] {
      DemarshalEquiv(w, ms[0].tc, ns[0].tc, st);
      var r := Demarshal(w, ms[0].tc, st);
      if r.Ok? {
        DemarshalMembersEquiv(w, ms[1..], ns[1..], r.st);
      }
    }
  }

  lemma {:induction false} DemarshalElemsEquiv(w: Window, a: TypeCode, b: TypeCode, count: nat, st: Dec)
    requires Equiv(a, b, false)
    ensures DemarshalElems(w, a, count, st) == DemarshalElems(w, b, count, st)
    decreases w.end - st.cur, a, count + 2
  {
    hide Demarshal, Equiv, DemarshalMembers;
    if count > 0 {
      DemarshalEquiv(w, a, b, st);
      var r := Demarshal(w, a, st);
      if r.Ok? {
        DemarshalElemsEquiv(w, a, b, count - 1, r.st);
      }
    }
  }

  /** Equivalent types have the same values, and send them as the same bytes. */
  lemma {:induction false} MarshalEquiv(a: TypeCode, b: TypeCode, v: Value, out: seq<Cell>, o: Order)
    requires Equiv(a, b, false) && HasType(a, v)
    ensures HasType(b, v) && Marshal(a, v, out, o) == Marshal(b, v, out, o)
    decreases v, 1
  {
    var x, y := Unalias(a), Unalias(b);
    EquivUnaliased(a, b);
    SamePrimSize(x, y);
    if PrimSize(x) > 0 {
    } else if x.Record? {
      MarshalMembersEquiv(x.members, y.members, v.vs, out, o);
    } else if x.Indexed? {
      MarshalElemsEquiv(x.content, y.content, v.vs, if x.fixedSize then out else PutNum(out, o, 4, |v.vs|), o);
    } else if x.Union? {
      MarshalUnionEquiv(x, y, v, out, o);
    }
  }

  lemma {:induction false} MarshalUnionEquiv(x: TypeCode, y: TypeCode, v: Value, out: seq<Cell>, o: Order)
    requires Equiv(x, y, false) && x.Union? && y.Union? && HasType(x, v)
    ensures HasType(y, v) && Marshal(x, v, out, o) == Marshal(y, v, out, o)
    decreases v, 0
  {
    EquivUnaliased(x.discriminator, y.discriminator);
    SamePrimSize(Unalias(x.discriminator), Unalias(y.discriminator));
    MarshalEquiv(x.discriminator, y.discriminator, v.disc, out, o);
    var sw := SwitchValue(Unalias(x.discriminator), v.disc.bits);
    SameSwitch(Unalias(x.discriminator), Unalias(y.discriminator), v.disc.bits);
    UnionTagEquiv(x, y, sw);
    MarshalEquiv(UnionTag(x, sw).tc, UnionTag(y, sw).tc, v.body, Marshal(x.discriminator, v.disc, out, o), o);
  }

  lemma {:induction false} MarshalMembersEquiv(ms: seq<Member>, ns: seq<Member>, vs: seq<Value>, out: seq<Cell>, o: Order)
    requires |ms| == |ns| && EquivMembers(ms, ns, false, false) && MembersHaveType(ms, vs)
    ensures MembersHaveType(ns, vs) && MarshalMembers(ms, vs, out, o) == MarshalMembers(ns, vs, out, o)
    decreases vs, 0
  {
    if vs != [] {
      MarshalEquiv(ms[0].tc, ns[0].tc, vs[0], out, o);
      MarshalMembersEquiv(ms[1..], ns[1..], vs[1..], Marshal(ms[0].tc, vs[0], out, o), o);
    }
  }

  lemma {:induction false} MarshalElemsEquiv(a: TypeCode, b: TypeCode, vs: seq<Value>, out: seq<Cell>, o: Order)
    requires Equiv(a, b, false) && ElemsHaveType(a, vs)
    ensures ElemsHaveType(b, vs) && MarshalElems(a, vs, out, o) == MarshalElems(b, vs, out, o)
    decreases vs, 0
  {
    if vs != [] {
      MarshalEquiv(a, b, vs[0], out, o);
      MarshalElemsEquiv(a, b, vs[1..], Marshal(a, vs[0], out, o), o);
    }
  }
}

/** Demarshalling what was marshalled gives the value back. */
module ValueRoundTrip {
  import opened Cdr
  import opened TypeCodes
  import opened TypeCodeRoundTrip
  import opened TypeCodeEquality
  import opened Values

  /** The value without the identities of the TypeCode objects in it. */
  ghost function Erase(v: Value): Value {
    match v
    case TypeCodeV(tc) => TypeCodeV(Rename(map[], tc))
    case AnyV(tc, content) => AnyV(Rename(map[], tc), Erase(content))
    case Parts(vs) => Parts(EraseAll(vs))
    case UnionV(disc, body) => UnionV(Erase(disc), Erase(body))
    case _ => v
  }

  ghost function EraseAll(vs: seq<Value>): (r: seq<Value>)
    ensures |r| == |vs|
  {
    if vs == [] then [] else [Erase(vs[0])] + EraseAll(vs[1..])
  }

  lemma {:induction false} RenameTwice(phi: map<nat, nat>, t: TypeCode)
    ensures Rename(map[], Rename(phi, t)) == Rename(map[], t)
    decreases t
  {
    match t {
      case Record(_, _, _, _, members) => RenameMembersTwice(phi, members);
      case Union(_, _, _, disc, _, members) =>
        RenameTwice(phi, disc);
        RenameMembersTwice(phi, members);
      case Indexed(_, _, content, _) => RenameTwice(phi, content);
      case Alias(_, _, _, content) => RenameTwice(phi, content);
      case _ =>
    }
  }

  lemma {:induction false} RenameMembersTwice(phi: map<nat, nat>, ms: seq<Member>)
    ensures RenameMembers(map[], RenameMembers(phi, ms)) == RenameMembers(map[], ms)
    decreases ms
  {
    if ms != [] {
      RenameTwice(phi, ms[0].tc);
      RenameMembersTwice(phi, ms[1..]);
    }
  }

  // ----- single items -----

  lemma GetPutNum(w: Window, out: seq<Cell>, n: nat, v: nat, st: Dec)
    requires n in {1, 2, 4, 8} && v < Pow256(n) && st.cur == |out|
    requires |PutNum(out, w.order, n, v)| <= w.end && Fits(w.mem, PutNum(out, w.order, n, v))
    ensures GetInt(w, n, st) == Ok(v, st.(cur := |PutNum(out, w.order, n, v)|))
  {
    GetPutInt(w, Enc(out, map[]), n, v, st);
    ModSmall(v, Pow256(n));
  }

  lemma ModSmall(v: nat, m: nat)
    requires v < m
    ensures v % m == v
  {
  }

  /** The block that follows a length. */
  lemma GetPutBlock(w: Window, out: seq<Cell>, s: seq<Byte>, st: Dec)
    requires |s| < 0x8000_0000 && st.cur == |out|
    requires var r := PutNum(out, w.order, 4, |s|) + Cells(s); |r| <= w.end && Fits(w.mem, r)
    ensures GetBlock(w, st) == Ok(s, st.(cur := |PutNum(out, w.order, 4, |s|) + Cells(s)|))
  {
    var mid := PutNum(out, w.order, 4, |s|);
    Pow256Values();
    FitsPrefix(w.mem, mid, mid + Cells(s));
    GetPutNum(w, out, 4, |s|, st);
    FitsBytes(w.mem, mid, s);
  }

  lemma GetPutText(w: Window, out: seq<Cell>, str: CStr, st: Dec)
    requires |str| + 1 < 0x8000_0000 && st.cur == |out|
    requires var r := PutString(Enc(out, map[]), w.order, str).out; |r| <= w.end && Fits(w.mem, r)
    ensures GetBlock(w, st) == Ok(str + [0], st.(cur := |PutString(Enc(out, map[]), w.order, str).out|))
  {
    hide PutInt;
    GetPutBlock(w, out, str + [0], st);
  }

  lemma LoadU16Store(o: Order, p: Order, c: U16)
    ensures Store(o, 2, c) == if o == LittleEndian then [c % 256, c / 256] else [c / 256, c % 256]
    ensures LoadU16(p, Store(o, 2, c)) == if o == p then c else 256 * (c % 256) + c / 256
  {
    assert LowBytes(1, c / 256) == [c / 256];
    assert LowBytes(2, c) == [c % 256, c / 256];
  }

  lemma {:induction false} WideCharsOfBytes(o: Order, ws: seq<U16>)
    ensures WideChars(o, WideBytes(o, ws)) == ws
  {
    if ws != [] {
      LoadU16Store(o, o, ws[0]);
      var s := WideBytes(o, ws);
      assert s[..2] == Store(o, 2, ws[0]) && s[2..] == WideBytes(o, ws[1..]);
      WideCharsOfBytes(o, ws[1..]);
    }
  }

  lemma {:induction false} UpToZeroOf(ws: WStr)
    ensures UpToZero(ws) == ws
  {
    if ws != [] {
      UpToZeroOf(ws[1..]);
    }
  }

  /** The byte order mark tells the receiver the sender's order, whatever the flags say. */
  lemma WideStringOf(o: Order, ws: WStr)
    ensures WideString(Store(o, 2, 0xfeff) + WideBytes(o, ws)) == ws
  {
    var s := Store(o, 2, 0xfeff) + WideBytes(o, ws);
    assert s[..2] == Store(o, 2, 0xfeff) && s[2..] == WideBytes(o, ws);
    LoadU16Store(o, LittleEndian, 0xfeff);
    LoadU16Store(o, BigEndian, 0xfeff);
    WideCharsOfBytes(o, ws);
    UpToZeroOf(ws);
  }

  lemma GetPutWide(w: Window, out: seq<Cell>, ws: WStr, st: Dec)
    requires 2 * (|ws| + 1) < 0x8000_0000 && st.cur == |out|
    requires var r := PutNum(out, w.order, 4, 2 * (|ws| + 1)) + Cells(Store(w.order, 2, 0xfeff)) + Cells(WideBytes(w.order, ws));
      |r| <= w.end && Fits(w.mem, r)
    ensures GetBlock(w, st) == Ok(Store(w.order, 2, 0xfeff) + WideBytes(w.order, ws),
      st.(cur := |PutNum(out, w.order, 4, 2 * (|ws| + 1))| + 2 + 2 * |ws|))
  {
    hide PutNum, Store, WideBytes, GetBlock, Fits;
    var mid := PutNum(out, w.order, 4, 2 * (|ws| + 1));
    var s := Store(w.order, 2, 0xfeff) + WideBytes(w.order, ws);
    assert mid + Cells(Store(w.order, 2, 0xfeff)) + Cells(WideBytes(w.order, ws)) == mid + Cells(s);
    GetPutBlock(w, out, s, st);
  }

  /** A string that announces 2^31 bytes or more is never accepted. */
  lemma LongStringRejected(w: Window, t: TypeCode, len: U32, out: seq<Cell>, st: Dec)
    requires Unalias(t).Str? && len >= 0x8000_0000 && st.cur == |out|
    requires |PutNum(out, w.order, 4, len)| <= w.end && Fits(w.mem, PutNum(out, w.order, 4, len))
    ensures Demarshal(w, t, st).Fail?
  {
    hide PutNum, GetInt, WideString, Fits;
    Pow256Values();
    GetPutNum(w, out, 4, len, st);
  }

  // ----- values -----

  /** A value all of whose TypeCodes a machine with 64-bit pointers can decode. */
  predicate LocalValue(v: Value) {
    match v
    case TypeCodeV(tc) => Local(tc)
    case AnyV(tc, content) => Local(tc) && LocalValue(content)
    case Parts(vs) => LocalValues(vs)
    case UnionV(disc, body) => LocalValue(disc) && LocalValue(body)
    case _ => true
  }

  predicate LocalValues(vs: seq<Value>) {
    vs == [] || (LocalValue(vs[0]) && LocalValues(vs[1..]))
  }

  /** A message position that the receiver can have reached; with offsets that fit 31 bits if they matter. */
  ghost predicate Within(w: Window, out: seq<Cell>) {
    InRange(w, Enc(out, map[]))
  }

  lemma WithinMore(w: Window, out: seq<Cell>, out': seq<Cell>)
    requires Within(w, out) && |out| <= |out'|
    ensures Within(w, out')
  {
  }

  /** MateCORBA_demarshal_value after MateCORBA_marshal_value: at every position of a message, in either
      byte order and whatever the padding bytes are, the value comes back with its TypeCodes as fresh
      objects, and the receiver stops where the sender stopped; on a machine with 64-bit pointers exactly
      if it can decode all the TypeCodes in the value. */
  lemma {:induction false} DemarshalMarshal(h: map<nat, TypeCode>, w: Window, t: TypeCode, v: Value, out: seq<Cell>, st: Dec)
    returns (v': Value, st': Dec)
    requires HasType(t, v) && ValueInHeap(h, v) && st.cur == |out| && Within(w, out)
    requires |Marshal(t, v, out, w.order)| <= w.end < 0x1_0000_0000 && Fits(w.mem, Marshal(t, v, out, w.order))
    ensures (w.wide ==> LocalValue(v)) ==>
      Demarshal(w, t, st) == Ok(v', st') && Erase(v') == Erase(v) && st'.cur == |Marshal(t, v, out, w.order)|
    ensures w.wide && !LocalValue(v) ==> Demarshal(w, t, st).Fail?
    decreases v, 1
  {
    hide GetInt, PutInt, DecTC, EncTC, GetBlock, WideString, Fits, Rename, Covered, UnionTag, SwitchValue, Equiv, WellFormed, InHeap, Within, Local,
         MembersHaveType, ElemsHaveType, WideBytes, Store, Pow256, PutString, DemarshalMembers, DemarshalElems, MarshalMembers, MarshalElems;
    var x := Unalias(t);
    if PrimSize(x) > 0 {
      GetPutNum(w, out, PrimSize(x), v.bits, st);
      v', st' := v, st.(cur := |Marshal(t, v, out, w.order)|);
    } else if x.Record? {
      var vs;
      vs, st' := DemarshalMarshalMembers(h, w, x.members, v.vs, out, st);
      v' := Parts(vs);
    } else if x.Indexed? {
      v', st' := DemarshalMarshalIndexed(h, w, x, v, out, st);
    } else if x.Union? {
      v', st' := DemarshalMarshalUnion(h, w, x, v, out, st);
    } else {
      v', st' := DemarshalMarshalLeaf(h, w, x, v, out, st);
    }
  }

  lemma {:induction false} DemarshalMarshalLeaf(h: map<nat, TypeCode>, w: Window, x: TypeCode, v: Value, out: seq<Cell>, st: Dec)
    returns (v': Value, st': Dec)
    requires x.Empty? || x.Str?
    requires PrimSize(x) == 0 && HasType(x, v) && ValueInHeap(h, v) && st.cur == |out| && Within(w, out)
    requires |Marshal(x, v, out, w.order)| <= w.end < 0x1_0000_0000 && Fits(w.mem, Marshal(x, v, out, w.order))
    ensures (w.wide ==> LocalValue(v)) ==>
      Demarshal(w, x, st) == Ok(v', st') && Erase(v') == Erase(v) && st'.cur == |Marshal(x, v, out, w.order)|
    ensures w.wide && !LocalValue(v) ==> Demarshal(w, x, st).Fail?
    decreases v, 0
  {
    hide GetInt, PutInt, DecTC, EncTC, GetBlock, WideString, Fits, Rename, CString, Within, Local, Covered, UnionTag, SwitchValue, Equiv,
         WideBytes, Store, Pow256, MembersHaveType, ElemsHaveType, DemarshalMembers, DemarshalElems, MarshalMembers, MarshalElems;
    match v {
      case Nothing => v', st' := v, st;
      case Text(str) =>
        GetPutText(w, out, str, st);
        CStringOf(str);
        v', st' := v, st.(cur := |Marshal(x, v, out, w.order)|);
      case Wide(wstr) =>
        GetPutWide(w, out, wstr, st);
        WideStringOf(w.order, wstr);
        v', st' := v, st.(cur := |Marshal(x, v, out, w.order)|);
      case TypeCodeV(tc) =>
        var tc', s1 := GetPutTC(h, w, tc, out, st);
        v', st' := TypeCodeV(tc'), s1;
      case AnyV(tc, content) =>
        var out1 := EncTC(tc, Enc(out, map[]), w.order).out;
        FitsPrefix(w.mem, out1, Marshal(x, v, out, w.order));
        var tc', s1 := GetPutTC(h, w, tc, out, st);
        if w.wide && !Local(tc) {
          return v, st;
        }
        WithinMore(w, out, out1);
        DemarshalEquiv(w, tc, tc', s1);
        var content';
        content', st' := DemarshalMarshal(h, w, tc, content, out1, s1);
        v' := AnyV(tc', content');
    }
  }

  lemma GetPutTC(h: map<nat, TypeCode>, w: Window, tc: TypeCode, out: seq<Cell>, st: Dec)
    returns (tc': TypeCode, st': Dec)
    requires InHeap(h, tc) && WellFormed(tc) && st.cur == |out| && Within(w, out)
    requires var r := EncTC(tc, Enc(out, map[]), w.order).out; |r| <= w.end < 0x1_0000_0000 && Fits(w.mem, r)
    ensures GetTC(w, st) == if w.wide ==> Local(tc) then Ok(tc', st') else Fail
    ensures (w.wide ==> Local(tc)) ==> st'.cur == |EncTC(tc, Enc(out, map[]), w.order).out|
    ensures Rename(map[], tc') == Rename(map[], tc) && Equiv(tc, tc', false)
  {
    hide DecTC, EncTC, Rename, Equiv, Fits, InHeap, WellFormed, Local, InRange;
    var phi, s := EncodeDecode(h, tc, out, w, st.next);
    tc', st' := Rename(phi, tc), s.(prior := st.prior);
    RenameTwice(phi, tc);
    EqualIsEquivalent(tc, tc');
  }

  lemma {:induction false} DemarshalMarshalUnion(h: map<nat, TypeCode>, w: Window, x: TypeCode, v: Value, out: seq<Cell>, st: Dec)
    returns (v': Value, st': Dec)
    requires x.Union?
    requires HasType(x, v) && ValueInHeap(h, v) && st.cur == |out| && Within(w, out)
    requires |Marshal(x, v, out, w.order)| <= w.end < 0x1_0000_0000 && Fits(w.mem, Marshal(x, v, out, w.order))
    ensures (w.wide ==> LocalValue(v)) ==>
      Demarshal(w, x, st) == Ok(v', st') && Erase(v') == Erase(v) && st'.cur == |Marshal(x, v, out, w.order)|
    ensures w.wide && !LocalValue(v) ==> Demarshal(w, x, st).Fail?
    decreases v, 0
  {
    hide GetInt, PutInt, DecTC, EncTC, GetBlock, WideString, Fits, Rename, UnionTag, Within, Local;
    var disc := Unalias(x.discriminator);
    assert HasType(x.discriminator, v.disc) && PrimSize(disc) > 0;
    var out1 := Marshal(x.discriminator, v.disc, out, w.order);
    FitsPrefix(w.mem, out1, Marshal(x, v, out, w.order));
    var d, s1 := DemarshalMarshal(h, w, x.discriminator, v.disc, out, st);
    var tag := UnionTag(x, SwitchValue(disc, v.disc.bits));
    WithinMore(w, out, out1);
    var body;
    body, st' := DemarshalMarshal(h, w, tag.tc, v.body, out1, s1);
    v' := UnionV(d, body);
  }

  lemma {:induction false} DemarshalMarshalIndexed(h: map<nat, TypeCode>, w: Window, x: TypeCode, v: Value, out: seq<Cell>, st: Dec)
    returns (v': Value, st': Dec)
    requires x.Indexed?
    requires HasType(x, v) && ValueInHeap(h, v) && st.cur == |out| && Within(w, out)
    requires |Marshal(x, v, out, w.order)| <= w.end < 0x1_0000_0000 && Fits(w.mem, Marshal(x, v, out, w.order))
    ensures (w.wide ==> LocalValue(v)) ==>
      Demarshal(w, x, st) == Ok(v', st') && Erase(v') == Erase(v) && st'.cur == |Marshal(x, v, out, w.order)|
    ensures w.wide && !LocalValue(v) ==> Demarshal(w, x, st).Fail?
    decreases v, 0
  {
    hide GetInt, PutInt, DecTC, EncTC, GetBlock, WideString, Fits, Rename, Within, Local;
    var out1, s1 := out, st;
    if !x.fixedSize {
      out1 := PutNum(out, w.order, 4, |v.vs|);
      s1 := st.(cur := |out1|);
      FitsPrefix(w.mem, out1, Marshal(x, v, out, w.order));
      WithinMore(w, out, out1);
      Pow256Values();
      GetPutNum(w, out, 4, |v.vs|, st);
    }
    var vs;
    vs, st' := DemarshalMarshalElems(h, w, x.content, v.vs, out1, s1);
    v' := Parts(vs);
  }

  lemma {:induction false} DemarshalMarshalMembers(h: map<nat, TypeCode>, w: Window, ms: seq<Member>, vs: seq<Value>, out: seq<Cell>, st: Dec)
    returns (vs': seq<Value>, st': Dec)
    requires MembersHaveType(ms, vs) && PartsInHeap(h, vs) && st.cur == |out| && Within(w, out)
    requires var r := MarshalMembers(ms, vs, out, w.order); |r| <= w.end < 0x1_0000_0000 && Fits(w.mem, r)
    ensures (w.wide ==> LocalValues(vs)) ==>
      DemarshalMembers(w, ms, st) == Ok(vs', st') && EraseAll(vs') == EraseAll(vs) && st'.cur == |MarshalMembers(ms, vs, out, w.order)|
    ensures w.wide && !LocalValues(vs) ==> DemarshalMembers(w, ms, st).Fail?
    decreases vs, 0
  {
    hide Demarshal, Marshal, HasType, ValueInHeap, Fits, LocalValue, Within;
    if vs == [] {
      vs', st' := [], st;
    } else {
      var out1 := Marshal(ms[0].tc, vs[0], out, w.order);
      FitsPrefix(w.mem, out1, MarshalMembers(ms, vs, out, w.order));
      var v, s1 := DemarshalMarshal(h, w, ms[0].tc, vs[0], out, st);
      if w.wide && !LocalValue(vs[0]) {
        return vs, st;
      }
      WithinMore(w, out, out1);
      var rest;
      rest, st' := DemarshalMarshalMembers(h, w, ms[1..], vs[1..], out1, s1);
      vs' := [v] + rest;
    }
  }

  lemma {:induction false} DemarshalMarshalElems(h: map<nat, TypeCode>, w: Window, t: TypeCode, vs: seq<Value>, out: seq<Cell>, st: Dec)
    returns (vs': seq<Value>, st': Dec)
    requires ElemsHaveType(t, vs) && PartsInHeap(h, vs) && st.cur == |out| && Within(w, out)
    requires var r := MarshalElems(t, vs, out, w.order); |r| <= w.end < 0x1_0000_0000 && Fits(w.mem, r)
    ensures (w.wide ==> LocalValues(vs)) ==>
      DemarshalElems(w, t, |vs|, st) == Ok(vs', st') && EraseAll(vs') == EraseAll(vs) && st'.cur == |MarshalElems(t, vs, out, w.order)|
    ensures w.wide && !LocalValues(vs) ==> DemarshalElems(w, t, |vs|, st).Fail?
    decreases vs, 0
  {
    hide Demarshal, Marshal, HasType, ValueInHeap, Fits, LocalValue, Within;
    if vs == [] {
      vs', st' := [], st;
    } else {
      var out1 := Marshal(t, vs[0], out, w.order);
      FitsPrefix(w.mem, out1, MarshalElems(t, vs, out, w.order));
      var v, s1 := DemarshalMarshal(h, w, t, vs[0], out, st);
      if w.wide && !LocalValue(vs[0]) {
        return vs, st;
      }
      WithinMore(w, out, out1);
      var rest;
      rest, st' := DemarshalMarshalElems(h, w, t, vs[1..], out1, s1);
      vs' := [v] + rest;
    }
  }

  /** The receiver's own TypeCode needs only be equivalent to the sender's. */
  lemma DemarshalAsEquivalent(h: map<nat, TypeCode>, w: Window, sent: TypeCode, expected: TypeCode, v: Value,
                              out: seq<Cell>, st: Dec)
    returns (v': Value, st': Dec)
    requires Equiv(sent, expected, false)
    requires HasType(sent, v) && ValueInHeap(h, v) && st.cur == |out| && Within(w, out)
    requires |Marshal(sent, v, out, w.order)| <= w.end < 0x1_0000_0000 && Fits(w.mem, Marshal(sent, v, out, w.order))
    ensures Demarshal(w, expected, st) == if w.wide ==> LocalValue(v) then Ok(v', st') else Fail
    ensures (w.wide ==> LocalValue(v)) ==> Erase(v') == Erase(v) && st'.cur == |Marshal(sent, v, out, w.order)|
  {
    hide *;
    v', st' := DemarshalMarshal(h, w, sent, v, out, st);
    DemarshalEquiv(w, sent, expected, st);
  }
}

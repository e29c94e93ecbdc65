/** TypeCodes and their transfer syntax: the encoder tc_enc and the decoder tc_dec as functions on
    byte strings. A TypeCode value stands for the C object a pointer refers to; `id` is the pointer,
    so two occurrences with one id are one shared object. */
module TypeCodes {
  import opened Cdr

  const TK_OBJREF: U32 := 14
  const TK_STRUCT: U32 := 15
  const TK_UNION: U32 := 16
  const TK_ENUM: U32 := 17
  const TK_STRING: U32 := 18
  const TK_SEQUENCE: U32 := 19
  const TK_ARRAY: U32 := 20
  const TK_ALIAS: U32 := 21
  const TK_EXCEPT: U32 := 22
  const TK_WSTRING: U32 := 27
  const TK_FIXED: U32 := 28
  const TK_LAST: U32 := 33
  const TK_RECURSIVE: U32 := 0xffff_ffff

  /** The kinds that have a static TypeCode: null to Principal, and long long to wchar. */
  predicate EmptyKind(k: U32) {
    k < TK_OBJREF || 23 <= k < TK_WSTRING
  }

  type BasicKind = k: U32 | EmptyKind(k) witness 0

  /** `Empty` is a static TypeCode of a kind without parameters. */
  datatype TypeCode =
    | Empty(kind: BasicKind)
    | Str(id: nat, wide: bool, length: U32)
    | Fixed(id: nat, digits: U16, scale: I16)
    | ObjRef(id: nat, repoId: CStr, name: CStr)
    | Record(id: nat, except: bool, repoId: CStr, name: CStr, members: seq<Member>)
    | Union(id: nat, repoId: CStr, name: CStr, discriminator: TypeCode, defaultIndex: I32, members: seq<Member>)
    | Enum(id: nat, repoId: CStr, name: CStr, names: seq<CStr>)
    | Indexed(id: nat, fixedSize: bool, content: TypeCode, length: U32)
    | Alias(id: nat, repoId: CStr, name: CStr, content: TypeCode)

  /** A member of a structure, exception or union; only a union's members have labels. */
  datatype Member = Member(tag: I32, name: CStr, tc: TypeCode)

  function KindOf(t: TypeCode): U32 {
    match t
    case Empty(kind) => kind
    case Str(_, wide, _) => if wide then TK_WSTRING else TK_STRING
    case Fixed(_, _, _) => TK_FIXED
    case ObjRef(_, _, _) => TK_OBJREF
    case Record(_, except, _, _, _) => if except then TK_EXCEPT else TK_STRUCT
    case Union(_, _, _, _, _, _) => TK_UNION
    case Enum(_, _, _, _) => TK_ENUM
    case Indexed(_, fixedSize, _, _) => if fixedSize then TK_ARRAY else TK_SEQUENCE
    case Alias(_, _, _, _) => TK_ALIAS
  }

  predicate ComplexKind(k: U32) {
    TK_OBJREF <= k <= TK_EXCEPT && k != TK_STRING
  }

  // ----- union labels -----

  /** The discriminator kinds that the label loops of both codecs handle. */
  predicate LabelKind(k: U32) {
    k in {2, 3, 4, 5, 8, 9, TK_ENUM, 23, 24, 26}
  }

  /** The size of the C type a label is cast to before it is written. */
  function LabelSize(k: U32): nat {
    if k in {8, 9} then 1 else if k in {2, 4, 26} then 2 else if k in {23, 24} then 8 else 4
  }

  /** The stored label, as read back from the type of that size: short and char are signed, the long
      kinds are cut to 32 bits. */
  function LabelValue(k: U32, raw: nat): I32 {
    if k == 9 then
      var b := raw % 0x100; if b < 0x80 then b else b - 0x100
    else if k == 2 then
      var h := raw % 0x1_0000; if h < 0x8000 then h else h - 0x1_0000
    else if LabelSize(k) == 1 then raw % 0x100
    else if LabelSize(k) == 2 then raw % 0x1_0000
    else
      var w := raw % 0x1_0000_0000; if w < 0x8000_0000 then w else w - 0x1_0000_0000
  }

  /** The labels the discriminator's C type can represent. */
  predicate LabelFits(k: U32, tag: I32) {
    if k == 9 then -0x80 <= tag < 0x80
    else if k == 2 then -0x8000 <= tag < 0x8000
    else if LabelSize(k) == 1 then 0 <= tag < 0x100
    else if LabelSize(k) == 2 then 0 <= tag < 0x1_0000
    else true
  }

  /** A label survives the transfer exactly when the discriminator's type can represent it. */
  lemma LabelSurvives(k: U32, tag: I32)
    ensures LabelValue(k, tag % Pow256(LabelSize(k))) == tag <==> LabelFits(k, tag)
  {
    Pow256Values();
    if LabelSize(k) == 8 {
      assert tag % 0x1_0000_0000_0000_0000 == if tag >= 0 then tag else tag + 0x1_0000_0000_0000_0000;
      LabelLow32(k, tag);
    } else if LabelSize(k) == 4 {
      assert tag % 0x1_0000_0000 == if tag >= 0 then tag else tag + 0x1_0000_0000;
    } else {
      assert 0 <= tag % Pow256(LabelSize(k)) < Pow256(LabelSize(k));
    }
  }

  lemma LabelLow32(k: U32, tag: I32)
    requires LabelSize(k) == 8
    ensures LabelValue(k, if tag >= 0 then tag else tag + 0x1_0000_0000_0000_0000) == tag
  {
    if tag < 0 {
      assert tag + 0x1_0000_0000_0000_0000 == 0x1_0000_0000 * 0xffff_ffff + (tag + 0x1_0000_0000);
      DivModUnique(tag + 0x1_0000_0000_0000_0000, 0x1_0000_0000, 0xffff_ffff, tag + 0x1_0000_0000);
    }
  }

  predicate WellFormed(t: TypeCode) {
    match t
    case Record(_, _, _, _, members) =>
      WellFormedMembers(members) && forall m | m in members :: m.tag == 0
    case Union(_, _, _, disc, _, members) =>
      && WellFormed(disc) && LabelKind(KindOf(disc)) && WellFormedMembers(members)
      && forall m | m in members :: LabelFits(KindOf(disc), m.tag)
    case Indexed(_, _, content, _) => WellFormed(content)
    case Alias(_, _, _, content) => WellFormed(content)
    case _ => true
  }

  predicate WellFormedMembers(ms: seq<Member>) {
    ms == [] || (WellFormed(ms[0].tc) && WellFormedMembers(ms[1..]))
  }

  // ----- encoder -----

  /** The message so far, from address 0 (the GIOP header), and the positions of the TypeCodes that the
      current top-level TypeCode has already started. */
  datatype Enc = Enc(out: seq<Cell>, prior: map<nat, nat>)

  function Append(e: Enc, s: seq<Byte>): (r: Enc)
    ensures e.out <= r.out
  {
    e.(out := e.out + Cells(s))
  }

  function AlignTo(e: Enc, n: nat): (r: Enc)
    requires n > 0
    ensures e.out <= r.out && |r.out| == Align(|e.out|, n) && r.prior == e.prior
  {
    e.(out := e.out + Pads(Align(|e.out|, n) - |e.out|))
  }

  function PutInt(e: Enc, o: Order, n: nat, v: int): (r: Enc)
    requires n > 0
    ensures e.out <= r.out && |r.out| == Align(|e.out|, n) + n && r.prior == e.prior
  {
    Append(AlignTo(e, n), Store(o, n, v))
  }

  lemma AlignTwice(e: Enc, n: nat)
    requires n > 0
    ensures Align(Align(|e.out|, n), n) == Align(|e.out|, n)
    ensures AlignTo(AlignTo(e, n), n) == AlignTo(e, n)
  {
    AlignAligned(Align(|e.out|, n), n);
    hide Align;
    assert AlignTo(AlignTo(e, n), n).out == AlignTo(e, n).out + Pads(0);
  }

  /** giop_send_buffer_append_string: length with terminator, bytes, terminator. */
  function PutString(e: Enc, o: Order, s: CStr): (r: Enc)
    ensures e.out <= r.out && |r.out| == Align(|e.out|, 4) + 4 + |s| + 1 && r.prior == e.prior
  {
    Append(PutInt(e, o, 4, |s| + 1), s + [0])
  }

  function PutNames(e: Enc, o: Order, names: seq<CStr>): (r: Enc)
    ensures e.out <= r.out && |r.out| >= |e.out| + |names| && r.prior == e.prior
    decreases names
  {
    if names == [] then e else PutNames(PutString(e, o, names[0]), o, names[1..])
  }

  /** The encapsulation length, written over its marker. */
  function Patch(out: seq<Cell>, marker: nat, s: seq<Byte>): (r: seq<Cell>)
    requires marker + |s| <= |out|
    ensures |r| == |out|
    ensures forall p :: p <= out && |p| <= marker ==> p <= r
  {
    out[..marker] + Cells(s) + out[marker + |s|..]
  }

  /** tc_enc. */
  function EncTC(t: TypeCode, e: Enc, o: Order): (r: Enc)
    ensures e.out <= r.out && |r.out| >= |e.out| + 4
    ensures forall id :: id in e.prior ==> id in r.prior && r.prior[id] == e.prior[id]
    decreases t, 3
  {
    var e0 := AlignTo(e, 4);
    if t.Empty? then PutInt(e0, o, 4, t.kind)
    else if t.id in e0.prior then
      var e1 := PutInt(e0, o, 4, TK_RECURSIVE);
      PutInt(e1, o, 4, e0.prior[t.id] - |e1.out| - 4)
    else
      EncParams(t, PutInt(e0.(prior := e0.prior[t.id := |e0.out|]), o, 4, KindOf(t)), o)
  }

  /** What follows the kind: simple parameters, or an encapsulation whose length is known at its end. */
  function EncParams(t: TypeCode, e: Enc, o: Order): (r: Enc)
    requires !t.Empty?
    ensures e.out <= r.out
    ensures forall id :: id in e.prior ==> id in r.prior && r.prior[id] == e.prior[id]
    decreases t, 2
  {
    if t.Str? then PutInt(e, o, 4, t.length)
    else if t.Fixed? then PutInt(PutInt(e, o, 2, t.digits), o, 2, t.scale)
    else
      var marker := Align(|e.out|, 4);
      var e2 := OpenEncaps(e, o);
      var e3 := EncBody(t, e2, o);
      e3.(out := Patch(e3.out, marker, Store(o, 4, |e3.out| - (marker + 4))))
  }

  /** The marker for the length, and the byte-order flag that starts the encapsulation. */
  function OpenEncaps(e: Enc, o: Order): (r: Enc)
    ensures e.out <= r.out && |r.out| == Align(|e.out|, 4) + 5 && r.prior == e.prior
  {
    var e1 := AlignTo(e, 4);
    Append(e1.(out := e1.out + Pads(4)), [OrderFlag(o)])
  }

  /** The parameters of a TypeCode whose parameter list is an encapsulation. */
  function EncBody(t: TypeCode, e: Enc, o: Order): (r: Enc)
    requires !t.Empty? && !t.Str? && !t.Fixed?
    ensures e.out <= r.out
    ensures forall id :: id in e.prior ==> id in r.prior && r.prior[id] == e.prior[id]
    decreases t, 1
  {
    if t.Indexed? then PutInt(EncTC(t.content, e, o), o, 4, t.length)
    else EncRest(t, PutString(PutString(e, o, t.repoId), o, t.name), o)
  }

  /** The parameters after repository id and name. */
  function EncRest(t: TypeCode, e: Enc, o: Order): (r: Enc)
    requires !t.Empty? && !t.Str? && !t.Fixed? && !t.Indexed?
    ensures e.out <= r.out
    ensures forall id :: id in e.prior ==> id in r.prior && r.prior[id] == e.prior[id]
    decreases t, 0
  {
    hide PutInt, PutNames, KindOf;
    match t
    case ObjRef(_, _, _) => e
    case Record(_, _, _, _, members) => EncMembers(members, PutInt(e, o, 4, |members|), o, 0)
    case Union(_, _, _, disc, defaultIndex, members) =>
      EncMembers(members, PutInt(PutInt(EncTC(disc, e, o), o, 4, defaultIndex), o, 4, |members|), o, KindOf(disc))
    case Enum(_, _, _, names) => PutNames(PutInt(e, o, 4, |names|), o, names)
    case Alias(_, _, _, content) => EncTC(content, e, o)
  }

  /** Members in order; `labelKind` is 0 for a structure or exception. */
  function EncMembers(ms: seq<Member>, e: Enc, o: Order, labelKind: U32): (r: Enc)
    ensures e.out <= r.out && |r.out| >= |e.out| + |ms|
    ensures forall id :: id in e.prior ==> id in r.prior && r.prior[id] == e.prior[id]
    decreases ms, 0
  {
    if ms == [] then e
    else
      var e1 := EncLabel(e, o, labelKind, ms[0].tag);
      EncMembers(ms[1..], EncTC(ms[0].tc, PutString(e1, o, ms[0].name), o), o, labelKind)
  }

  function EncLabel(e: Enc, o: Order, labelKind: U32, tag: I32): (r: Enc)
    ensures e.out <= r.out && r.prior == e.prior
  {
    if labelKind == 0 then e else PutInt(e, o, LabelSize(labelKind), tag)
  }

  // the three cases of tc_enc

  lemma EncTCEmpty(tc: TypeCode, e: Enc, o: Order)
    requires tc.Empty?
    ensures EncTC(tc, e, o) == PutInt(AlignTo(e, 4), o, 4, tc.kind)
  {
    hide PutInt, AlignTo;
  }

  lemma EncTCAgain(tc: TypeCode, e: Enc, o: Order)
    requires !tc.Empty? && tc.id in e.prior
    ensures EncTC(tc, e, o)
         == var e1 := PutInt(AlignTo(e, 4), o, 4, TK_RECURSIVE);
            PutInt(e1, o, 4, e.prior[tc.id] - |e1.out| - 4)
  {
    hide PutInt, Store, AlignTo, EncParams, Append, Align;
  }

  lemma EncTCNew(tc: TypeCode, e: Enc, o: Order)
    requires !tc.Empty? && tc.id !in e.prior
    ensures EncTC(tc, e, o)
         == var e0 := AlignTo(e, 4);
            EncParams(tc, PutInt(e0.(prior := e.prior[tc.id := |e0.out|]), o, 4, KindOf(tc)), o)
  {
    hide PutInt, Store, EncParams;
  }

  // ----- decoder -----

  /** The part of memory a receive buffer may read, the byte order its flags announce, and where the
      buffer's own message or encapsulation starts. `wide` tells that the machine's pointers have 64 bits. */
  datatype RawWindow = Win(mem: seq<Byte>, end: nat, order: Order, body: nat, wide: bool)
  type Window = w: RawWindow | w.end <= |w.mem| witness Win([], 0, LittleEndian, 0, false)

  /** The read position, the TypeCodes completed so far by the position of their kind, and the next
      unused object identity. */
  datatype Dec = Dec(cur: nat, prior: map<nat, TypeCode>, next: nat)

  datatype Parsed<+T> = Fail | Ok(value: T, st: Dec) {
    predicate IsFailure() { Fail? }
    function PropagateFailure<U>(): Parsed<U> requires Fail? { Fail }
    function Extract(): (T, Dec) requires Ok? { (value, st) }
  }

  /** CDR_get. */
  function GetInt(w: Window, n: nat, st: Dec): (r: Parsed<nat>)
    requires n > 0
    ensures r.Ok? ==> st.cur + n <= r.st.cur <= w.end
    ensures r.Ok? ==> r.st == st.(cur := r.st.cur)
  {
    var c := Align(st.cur, n);
    if c + n > w.end then Fail
    else Ok(Load(w.order, w.mem[c..c + n]), st.(cur := c + n))
  }

  /** The C string that starts a block of memory. */
  function CString(s: seq<Byte>): CStr {
    if s == [] || s[0] == 0 then [] else [s[0]] + CString(s[1..])
  }

  /** CDR_get_const_string. */
  function GetString(w: Window, st: Dec): (r: Parsed<CStr>)
    ensures r.Ok? ==> st.cur + 4 <= r.st.cur <= w.end
    ensures r.Ok? ==> r.st == st.(cur := r.st.cur)
  {
    var (len, s) :- GetInt(w, 4, st);
    if s.cur + len > w.end then Fail
    else Ok(CString(w.mem[s.cur..s.cur + len]), s.(cur := s.cur + len))
  }

  function GetNames(w: Window, st: Dec, count: nat): (r: Parsed<seq<CStr>>)
    ensures r.Ok? ==> st.cur <= r.st.cur && (count > 0 ==> r.st.cur <= w.end)
    decreases count
  {
    if count == 0 then Ok([], st)
    else
      var (name, s1) :- GetString(w, st);
      var (rest, s2) :- GetNames(w, s1, count - 1);
      Ok([name] + rest, s2)
  }

  /** The comparison of an indirection's offset with a registered position mixes `guint` and `ptrdiff_t`.
      With 32-bit pointers it is made modulo 2^32; with 64-bit ones the offset must not point out of the
      current buffer. */
  predicate Reaches(w: Window, cur: nat, offset: nat) {
    !w.wide || 0 <= Signed32(offset) + cur - w.body < 0x1_0000_0000
  }

  /** tc_dec. An indirection is looked up by the position it points to, modulo 2^32. */
  function DecTC(w: Window, st: Dec): (r: Parsed<TypeCode>)
    ensures r.Ok? ==> st.cur < r.st.cur <= w.end
    decreases w.end - st.cur, 0, 0
  {
    var (kind, s1) :- GetInt(w, 4, st);
    if kind >= TK_LAST then
      if kind != TK_RECURSIVE then Fail
      else
        var (offset, s2) :- GetInt(w, 4, s1);
        var target := (s2.cur + offset) % 0x1_0000_0000;
        if target in s2.prior && Reaches(w, s2.cur, offset) then Ok(s2.prior[target], s2) else Fail
    else
      var index := s1.cur - 4;
      if EmptyKind(kind) then Ok(Empty(kind), Register(s1, index, Empty(kind)))
      else if kind == TK_STRING || kind == TK_WSTRING then
        var (length, s2) :- GetInt(w, 4, s1);
        if length >= 0x1_0000_0000 then Fail
        else
          var t := Str(s1.next, kind == TK_WSTRING, length);
          Ok(t, Register(s2.(next := s1.next + 1), index, t))
      else if kind == TK_FIXED then
        var (digits, s2) :- GetInt(w, 2, s1);
        var (scale, s3) :- GetInt(w, 2, s2);
        if digits >= 0x1_0000 || scale >= 0x1_0000 then Fail
        else
          var t := Fixed(s1.next, digits, if scale < 0x8000 then scale else scale - 0x1_0000);
          Ok(t, Register(s3.(next := s1.next + 1), index, t))
      else if ComplexKind(kind) then
        var (len, s2) :- GetInt(w, 4, s1);
        if len == 0 || s2.cur + len > w.end then Fail
        else
          var encaps := Win(w.mem, s2.cur + len, FlagOrder(w.mem[s2.cur]), s2.cur, w.wide);
          var (t, s3) :- DecBody(encaps, kind, s1.next, s2.(cur := s2.cur + 1, next := s1.next + 1));
          Ok(t, Register(s3.(cur := s2.cur + len), index, t))
      else Fail
  }

  function Register(st: Dec, index: nat, t: TypeCode): Dec {
    st.(prior := st.prior[index := t])
  }

  function Signed32(x: nat): I32 {
    var w := x % 0x1_0000_0000; if w < 0x8000_0000 then w else w - 0x1_0000_0000
  }

  function DecBody(w: Window, kind: U32, id: nat, st: Dec): (r: Parsed<TypeCode>)
    requires ComplexKind(kind)
    ensures r.Ok? ==> st.cur <= r.st.cur
    decreases w.end - st.cur, 1, 0
  {
    if kind == TK_SEQUENCE || kind == TK_ARRAY then
      var (content, s1) :- DecTC(w, st);
      var (length, s2) :- GetInt(w, 4, s1);
      if length >= 0x1_0000_0000 then Fail else Ok(Indexed(id, kind == TK_ARRAY, content, length), s2)
    else
      var (repoId, s1) :- GetString(w, st);
      var (name, s2) :- GetString(w, s1);
      DecRest(w, kind, id, repoId, name, s2)
  }

  /** What follows the repository id and the name. */
  function DecRest(w: Window, kind: U32, id: nat, repoId: CStr, name: CStr, st: Dec): (r: Parsed<TypeCode>)
    requires ComplexKind(kind) && kind != TK_SEQUENCE && kind != TK_ARRAY
    ensures r.Ok? ==> st.cur <= r.st.cur
    decreases w.end - st.cur, 0, 1
  {
    if kind == TK_OBJREF then Ok(ObjRef(id, repoId, name), st)
    else if kind == TK_ALIAS then
      var (content, s1) :- DecTC(w, st);
      Ok(Alias(id, repoId, name, content), s1)
    else if kind == TK_ENUM then
      var (count, s1) :- GetInt(w, 4, st);
      var (names, s2) :- GetNames(w, s1, count);
      Ok(Enum(id, repoId, name, names), s2)
    else if kind == TK_UNION then
      var (disc, s1) :- DecTC(w, st);
      var (defaultIndex, s2) :- GetInt(w, 4, s1);
      var (count, s3) :- GetInt(w, 4, s2);
      if !LabelKind(KindOf(disc)) then Fail
      else
        var (members, s4) :- DecMembers(w, s3, count, KindOf(disc));
        Ok(Union(id, repoId, name, disc, Signed32(defaultIndex), members), s4)
    else
      var (count, s1) :- GetInt(w, 4, st);
      var (members, s2) :- DecMembers(w, s1, count, 0);
      Ok(Record(id, kind == TK_EXCEPT, repoId, name, members), s2)
  }

  function DecMembers(w: Window, st: Dec, count: nat, labelKind: U32): (r: Parsed<seq<Member>>)
    ensures r.Ok? ==> st.cur <= r.st.cur
    decreases w.end - st.cur, 0, count
  {
    if count == 0 then Ok([], st)
    else
      var (tag, s1) :- DecLabel(w, st, labelKind);
      var (name, s2) :- GetString(w, s1);
      var (tc, s3) :- DecTC(w, s2);
      var (rest, s4) :- DecMembers(w, s3, count - 1, labelKind);
      Ok([Member(tag, name, tc)] + rest, s4)
  }

  function DecLabel(w: Window, st: Dec, labelKind: U32): (r: Parsed<I32>)
    ensures r.Ok? ==> st.cur <= r.st.cur && r.st == st.(cur := r.st.cur)
  {
    if labelKind == 0 then Ok(0, st)
    else
      var (raw, s1) :- GetInt(w, LabelSize(labelKind), st);
      Ok(LabelValue(labelKind, raw), s1)
  }
}

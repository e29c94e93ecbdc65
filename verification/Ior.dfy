/** Object references: profiles and their components, as they are sent and read back, and their text form. */
module Ior {
  import opened Cdr
  import opened TypeCodes
  import opened TypeCodeRoundTrip

  const TAG_INTERNET_IOP: U32 := 0
  const TAG_MULTIPLE_COMPONENTS: U32 := 1
  const TAG_MATECORBA_SPECIFIC: U32 := 0xBADF_AECA
  const TAG_GENERIC_IOP: U32 := 0x4f42_5400

  const TAG_CODE_SETS: U32 := 1
  const TAG_COMPLETE_OBJECT_KEY: U32 := 5
  const TAG_SSL_SEC_TRANS: U32 := 20
  const TAG_GENERIC_SSL_SEC_TRANS: U32 := 0x4f42_5400

  /** An object key that belongs to a profile or component until the keys are collected. */
  datatype Key = NoKey | SomeKey(bytes: seq<Byte>)

  datatype CodeSet = CodeSet(native: U32, conversions: seq<U32>)

  datatype Component =
    | ObjectKey(key: Key)
    | GenericSsl(service: CStr)
    | Ssl(supports: U32, required: U32, port: U16)
    | CodeSets(chars: CodeSet, wchars: CodeSet)
    | OtherComponent(tag: U32, data: seq<Byte>)

  /** GIOPVersion: the minor version number. */
  type Version = v: nat | v <= 2

  datatype Profile =
    | Iiop(version: Version, host: CStr, port: U16, key: Key, components: seq<Component>)
    | Generic(version: Version, proto: CStr, host: CStr, service: CStr, components: seq<Component>)
    | Unix(path: CStr, ipv6Port: U16, key: Key)
    | Multiple(components: seq<Component>)
    | OtherProfile(tag: U32, data: seq<Byte>)

  predicate KnownComponent(tag: U32) {
    tag in {TAG_CODE_SETS, TAG_COMPLETE_OBJECT_KEY, TAG_SSL_SEC_TRANS, TAG_GENERIC_SSL_SEC_TRANS}
  }

  predicate KnownProfile(tag: U32) {
    tag in {TAG_INTERNET_IOP, TAG_MULTIPLE_COMPONENTS, TAG_MATECORBA_SPECIFIC, TAG_GENERIC_IOP}
  }

  function ComponentTag(c: Component): U32 {
    match c
    case ObjectKey(_) => TAG_COMPLETE_OBJECT_KEY
    case GenericSsl(_) => TAG_GENERIC_SSL_SEC_TRANS
    case Ssl(_, _, _) => TAG_SSL_SEC_TRANS
    case CodeSets(_, _) => TAG_CODE_SETS
    case OtherComponent(tag, _) => tag
  }

  function ProfileTag(p: Profile): U32 {
    match p
    case Iiop(_, _, _, _, _) => TAG_INTERNET_IOP
    case Generic(_, _, _, _, _) => TAG_GENERIC_IOP
    case Unix(_, _, _) => TAG_MATECORBA_SPECIFIC
    case Multiple(_) => TAG_MULTIPLE_COMPONENTS
    case OtherProfile(tag, _) => tag
  }

  predicate ComponentsOk(cs: seq<Component>) {
    forall i :: 0 <= i < |cs| && cs[i].OtherComponent? ==> !KnownComponent(cs[i].tag)
  }

  predicate ProfileOk(p: Profile) {
    && (p.Iiop? || p.Generic? || p.Multiple? ==> ComponentsOk(p.components))
    && (p.OtherProfile? ==> !KnownProfile(p.tag))
  }

  // ----- the sender -----

  function PutBlock(e: Enc, o: Order, data: seq<Byte>): (r: Enc)
    ensures e.out <= r.out && r.prior == e.prior
  {
    Append(PutInt(e, o, 4, |data|), data)
  }

  /** The length of an encapsulation that was opened at `e`. */
  function CloseEncaps(e: Enc, body: Enc, o: Order): (r: Enc)
    requires OpenEncaps(e, o).out <= body.out
    ensures e.out <= r.out && |r.out| == |body.out| && r.prior == body.prior
  {
    var marker := Align(|e.out|, 4);
    body.(out := Patch(body.out, marker, Store(o, 4, |body.out| - (marker + 4))))
  }

  function PutWords(e: Enc, o: Order, ws: seq<U32>): (r: Enc)
    ensures e.out <= r.out && r.prior == e.prior
    decreases ws
  {
    if ws == [] then e else PutWords(PutInt(e, o, 4, ws[0]), o, ws[1..])
  }

  function PutCodeSet(e: Enc, o: Order, c: CodeSet): (r: Enc)
    ensures e.out <= r.out && r.prior == e.prior
  {
    PutWords(PutInt(PutInt(e, o, 4, c.native), o, 4, |c.conversions|), o, c.conversions)
  }

  /** What follows the tag of a component; `key` is the key of the object. */
  function PutComponentBody(e: Enc, o: Order, key: seq<Byte>, c: Component): (r: Enc)
    ensures e.out <= r.out && r.prior == e.prior
  {
    match c
    case ObjectKey(_) => PutBlock(e, o, key)
    case GenericSsl(service) => CloseEncaps(e, PutString(OpenEncaps(e, o), o, service), o)
    case Ssl(supports, required, port) =>
      CloseEncaps(e, PutInt(PutInt(PutInt(OpenEncaps(e, o), o, 4, supports), o, 4, required), o, 2, port), o)
    case CodeSets(chars, wchars) => CloseEncaps(e, PutCodeSet(PutCodeSet(OpenEncaps(e, o), o, chars), o, wchars), o)
    case OtherComponent(_, data) => PutBlock(e, o, data)
  }

  function PutComponentList(e: Enc, o: Order, key: seq<Byte>, cs: seq<Component>): (r: Enc)
    ensures e.out <= r.out && r.prior == e.prior
    decreases cs
  {
    if cs == [] then e
    else PutComponentList(PutComponentBody(PutInt(e, o, 4, ComponentTag(cs[0])), o, key, cs[0]), o, key, cs[1..])
  }

  /** IOP_components_marshal. */
  function PutComponents(e: Enc, o: Order, key: seq<Byte>, cs: seq<Component>): (r: Enc)
    ensures e.out <= r.out && r.prior == e.prior
  {
    PutComponentList(PutInt(e, o, 4, |cs|), o, key, cs)
  }

  function PutVersion(e: Enc, v: Version): (r: Enc)
    ensures e.out <= r.out && r.prior == e.prior
  {
    Append(e, [1, v])
  }

  /** What follows the tag of a profile. */
  function PutProfileBody(e: Enc, o: Order, key: seq<Byte>, p: Profile): (r: Enc)
    ensures e.out <= r.out && r.prior == e.prior
  {
    if p.OtherProfile? then PutBlock(e, o, p.data)
    else CloseEncaps(e, PutProfileData(OpenEncaps(e, o), o, key, p), o)
  }

  function PutProfileData(e: Enc, o: Order, key: seq<Byte>, p: Profile): (r: Enc)
    requires !p.OtherProfile?
    ensures e.out <= r.out && r.prior == e.prior
  {
    hide PutInt, PutString, PutBlock, PutComponents, PutVersion;
    match p
    case Iiop(version, host, port, _, components) =>
      PutComponents(PutBlock(PutInt(PutString(PutVersion(e, version), o, host), o, 2, port), o, key), o, key, components)
    case Generic(version, proto, host, service, components) =>
      PutComponents(PutString(PutString(PutString(PutVersion(e, version), o, proto), o, host), o, service), o, key, components)
    case Unix(path, ipv6Port, _) =>
      PutBlock(PutInt(PutString(PutVersion(e, 2), o, path), o, 2, ipv6Port), o, key)
    case Multiple(components) => PutComponents(e, o, key, components)
  }

  function PutProfiles(e: Enc, o: Order, key: seq<Byte>, ps: seq<Profile>): (r: Enc)
    ensures e.out <= r.out && r.prior == e.prior
    decreases ps
  {
    if ps == [] then e
    else PutProfiles(PutProfileBody(PutInt(e, o, 4, ProfileTag(ps[0])), o, key, ps[0]), o, key, ps[1..])
  }

  /** MateCORBA_marshal_object for an object. */
  function PutObject(e: Enc, o: Order, typeId: CStr, key: seq<Byte>, ps: seq<Profile>): (r: Enc)
    ensures e.out <= r.out && r.prior == e.prior
  {
    PutProfiles(PutInt(PutString(e, o, typeId), o, 4, |ps|), o, key, ps)
  }

  // ----- the receiver -----

  function GetData(w: Window, st: Dec): (r: Parsed<seq<Byte>>)
    ensures r.Ok? ==> st.cur <= r.st.cur <= w.end
  {
    var (len, s) :- GetInt(w, 4, st);
    if s.cur + len > w.end then Fail
    else Ok(w.mem[s.cur..s.cur + len], s.(cur := s.cur + len))
  }

  datatype Inner = Inner(window: Window, start: nat)

  /** giop_recv_buffer_use_encaps_buf. */
  function GetInner(w: Window, st: Dec): (r: Parsed<Inner>)
    ensures r.Ok? ==> st.cur < r.st.cur <= w.end && r.value.start <= r.st.cur
  {
    var (len, s) :- GetInt(w, 4, st);
    if len == 0 || s.cur + len > w.end then Fail
    else Ok(Inner(Win(w.mem, s.cur + len, FlagOrder(w.mem[s.cur]), s.cur, w.wide), s.cur + 1), s.(cur := s.cur + len))
  }

  function GetWords(w: Window, st: Dec, count: nat): (r: Parsed<seq<U32>>)
    decreases count
  {
    if count == 0 then Ok([], st)
    else
      var (x, s1) :- GetInt(w, 4, st);
      if x >= 0x1_0000_0000 then Fail
      else
        var (rest, s2) :- GetWords(w, s1, count - 1);
        Ok([x] + rest, s2)
  }

  function GetCodeSet(w: Window, st: Dec): Parsed<CodeSet> {
    var (native, s1) :- GetInt(w, 4, st);
    var (count, s2) :- GetInt(w, 4, s1);
    if native >= 0x1_0000_0000 then Fail
    else
      var (conversions, s3) :- GetWords(w, s2, count);
      Ok(CodeSet(native, conversions), s3)
  }

  /** IOP_components_demarshal, for one component. The numbers of an SSL component are swapped as the outer
      buffer's flags say. */
  function GetComponent(w: Window, st: Dec): (r: Parsed<Component>) {
    var (tag, s) :- GetInt(w, 4, st);
    if tag == TAG_COMPLETE_OBJECT_KEY then
      var (key, s1) :- GetData(w, s);
      Ok(ObjectKey(SomeKey(key)), s1)
    else if tag == TAG_GENERIC_SSL_SEC_TRANS then
      var (inner, s1) :- GetInner(w, s);
      var (service, _) :- GetString(inner.window, s.(cur := inner.start));
      Ok(GenericSsl(service), s1)
    else if tag == TAG_SSL_SEC_TRANS then
      var (inner, s1) :- GetInner(w, s);
      var sub := inner.window.(order := w.order);
      var (supports, s2) :- GetInt(sub, 4, s.(cur := inner.start));
      var (required, s3) :- GetInt(sub, 4, s2);
      var (port, _) :- GetInt(sub, 2, s3);
      if supports >= 0x1_0000_0000 || required >= 0x1_0000_0000 || port >= 0x1_0000 then Fail
      else Ok(Ssl(supports, required, port), s1)
    else if tag == TAG_CODE_SETS then
      var (inner, s1) :- GetInner(w, s);
      var (chars, s2) :- GetCodeSet(inner.window, s.(cur := inner.start));
      var (wchars, _) :- GetCodeSet(inner.window, s2);
      Ok(CodeSets(chars, wchars), s1)
    else if tag >= 0x1_0000_0000 then Fail
    else
      var (data, s1) :- GetData(w, s);
      Ok(OtherComponent(tag, data), s1)
  }

  function GetComponentList(w: Window, st: Dec, count: nat): (r: Parsed<seq<Component>>)
    decreases count
  {
    if count == 0 then Ok([], st)
    else
      var (c, s1) :- GetComponent(w, st);
      var (cs, s2) :- GetComponentList(w, s1, count - 1);
      Ok([c] + cs, s2)
  }

  function GetComponents(w: Window, st: Dec): Parsed<seq<Component>> {
    var (count, s) :- GetInt(w, 4, st);
    GetComponentList(w, s, count)
  }

  function GetVersion(w: Window, st: Dec): (r: Parsed<Version>) {
    if st.cur + 2 > w.end || w.mem[st.cur] != 1 || w.mem[st.cur + 1] > 2 then Fail
    else Ok(w.mem[st.cur + 1], st.(cur := st.cur + 2))
  }

  /** A profile whose tag has been read. Version 1.0 of IIOP has no components. */
  function GetProfileBody(w: Window, st: Dec, tag: U32): Parsed<Profile> {
    if !KnownProfile(tag) then
      var (data, s1) :- GetData(w, st);
      Ok(OtherProfile(tag, data), s1)
    else
      var (inner, s1) :- GetInner(w, st);
      var (p, _) :- GetProfileData(inner.window, st.(cur := inner.start), tag);
      Ok(p, s1)
  }

  function GetProfileData(w: Window, st: Dec, tag: U32): Parsed<Profile>
    requires KnownProfile(tag)
  {
    if tag == TAG_MULTIPLE_COMPONENTS then
      var (components, s1) :- GetComponents(w, st);
      Ok(Multiple(components), s1)
    else if tag == TAG_GENERIC_IOP then
      var (version, s1) :- GetVersion(w, st);
      var (proto, s2) :- GetString(w, s1);
      var (host, s3) :- GetString(w, s2);
      var (service, s4) :- GetString(w, s3);
      var (components, s5) :- GetComponents(w, s4);
      Ok(Generic(version, proto, host, service, components), s5)
    else if tag == TAG_INTERNET_IOP then
      var (version, s1) :- GetVersion(w, st);
      var (host, s2) :- GetString(w, s1);
      var (port, s3) :- GetInt(w, 2, s2);
      var (key, s4) :- GetData(w, s3);
      if port >= 0x1_0000 then Fail
      else if version == 0 then Ok(Iiop(version, host, port, SomeKey(key), []), s4)
      else
        var (components, s5) :- GetComponents(w, s4);
        Ok(Iiop(version, host, port, SomeKey(key), components), s5)
    else
      if st.cur + 2 > w.end then Fail
      else
        var (path, s2) :- GetString(w, st.(cur := st.cur + 2));
        var (port, s3) :- GetInt(w, 2, s2);
        var (key, s4) :- GetData(w, s3);
        if port >= 0x1_0000 then Fail else Ok(Unix(path, port, SomeKey(key)), s4)
  }

  function GetProfiles(w: Window, st: Dec, count: nat): Parsed<seq<Profile>>
    decreases count
  {
    if count == 0 then Ok([], st)
    else
      var (tag, s1) :- GetInt(w, 4, st);
      if tag >= 0x1_0000_0000 then Fail
      else
        var (p, s2) :- GetProfileBody(w, s1, tag);
        var (ps, s3) :- GetProfiles(w, s2, count - 1);
        Ok([p] + ps, s3)
  }

  datatype Reference = Nil | Object(typeId: CStr, profiles: seq<Profile>)

  /** MateCORBA_demarshal_IOR. */
  function GetReference(w: Window, st: Dec): Parsed<Reference> {
    var (typeId, s1) :- GetString(w, st);
    var (count, s2) :- GetInt(w, 4, s1);
    if typeId == [] && count == 0 then Ok(Nil, s2)
    else
      var (ps, s3) :- GetProfiles(w, s2, count);
      Ok(Object(typeId, ps), s3)
  }

  // ----- the round trip -----

  /** `r` has been written at the end of `e` into a message that fits the window, and is to be read at `st`. */
  ghost predicate Written(w: Window, e: Enc, r: Enc, st: Dec) {
    && st.cur == |e.out| && e.out <= r.out && |r.out| <= w.end < 0x1_0000_0000 && Fits(w.mem, r.out)
  }

  /** The first of two things written. */
  lemma WrittenFirst(w: Window, e: Enc, m: Enc, r: Enc, st: Dec)
    requires Written(w, e, r, st) && e.out <= m.out && m.out <= r.out
    ensures Written(w, e, m, st) && Written(w, m, r, st.(cur := |m.out|))
  {
    FitsPrefix(w.mem, m.out, r.out);
  }

  lemma ReadInt(w: Window, e: Enc, v: U32, st: Dec)
    requires Written(w, e, PutInt(e, w.order, 4, v), st)
    ensures GetInt(w, 4, st) == Ok(v, st.(cur := |PutInt(e, w.order, 4, v).out|))
  {
    GetPutU32(w, e, v, st);
  }

  lemma ReadShort(w: Window, e: Enc, v: U16, st: Dec)
    requires Written(w, e, PutInt(e, w.order, 2, v), st)
    ensures GetInt(w, 2, st) == Ok(v, st.(cur := |PutInt(e, w.order, 2, v).out|))
  {
    Pow256Values();
    GetPutInt(w, e, 2, v, st);
  }

  lemma ReadString(w: Window, e: Enc, s: CStr, st: Dec)
    requires Written(w, e, PutString(e, w.order, s), st)
    ensures GetString(w, st) == Ok(s, st.(cur := |PutString(e, w.order, s).out|))
  {
    GetPutString(w, e, s, st);
  }

  lemma ReadBlock(w: Window, e: Enc, data: seq<Byte>, st: Dec)
    requires Written(w, e, PutBlock(e, w.order, data), st)
    ensures GetData(w, st) == Ok(data, st.(cur := |PutBlock(e, w.order, data).out|))
  {
    hide PutInt, GetInt, Fits;
    var m := PutInt(e, w.order, 4, |data|);
    WrittenFirst(w, e, m, PutBlock(e, w.order, data), st);
    ReadInt(w, e, |data|, st);
    FitsBytes(w.mem, m.out, data);
  }

  lemma {:induction false} ReadWords(w: Window, e: Enc, ws: seq<U32>, st: Dec)
    requires Written(w, e, PutWords(e, w.order, ws), st)
    ensures GetWords(w, st, |ws|) == Ok(ws, st.(cur := |PutWords(e, w.order, ws).out|))
    decreases ws
  {
    hide PutInt, GetInt, Fits;
    if ws != [] {
      var m := PutInt(e, w.order, 4, ws[0]);
      WrittenFirst(w, e, m, PutWords(e, w.order, ws), st);
      ReadInt(w, e, ws[0], st);
      ReadWords(w, m, ws[1..], st.(cur := |m.out|));
      assert ws == [ws[0]] + ws[1..];
    }
  }

  lemma ReadCodeSet(w: Window, e: Enc, c: CodeSet, st: Dec)
    requires Written(w, e, PutCodeSet(e, w.order, c), st) && |c.conversions| < 0x1_0000_0000
    ensures GetCodeSet(w, st) == Ok(c, st.(cur := |PutCodeSet(e, w.order, c).out|))
  {
    hide PutInt, GetInt, PutWords, GetWords, Fits, Written;
    var m1 := PutInt(e, w.order, 4, c.native);
    var m2 := PutInt(m1, w.order, 4, |c.conversions|);
    WrittenFirst(w, e, m1, PutCodeSet(e, w.order, c), st);
    ReadInt(w, e, c.native, st);
    WrittenFirst(w, m1, m2, PutCodeSet(e, w.order, c), st.(cur := |m1.out|));
    ReadInt(w, m1, |c.conversions|, st.(cur := |m1.out|));
    ReadWords(w, m2, c.conversions, st.(cur := |m2.out|));
  }

  /** What is inside a closed encapsulation, and where the receiver goes on behind it. */
  lemma ReadEncaps(w: Window, e: Enc, body: Enc, st: Dec)
    requires |e.out| % 4 == 0 && OpenEncaps(e, w.order).out <= body.out
    requires Written(w, e, CloseEncaps(e, body, w.order), st)
    ensures GetInner(w, st) == Ok(Inner(Win(w.mem, |body.out|, w.order, |e.out| + 4, w.wide), |OpenEncaps(e, w.order).out|), st.(cur := |body.out|))
    ensures |body.out| <= |w.mem|
    ensures Written(Win(w.mem, |body.out|, w.order, |e.out| + 4, w.wide), OpenEncaps(e, w.order), body, st.(cur := |OpenEncaps(e, w.order).out|))
  {
    hide Patch, Store, GetInt, OpenEncaps;
    AlignTwice(e, 4);
    OpenLength(e, w.order);
    GetEncaps(w, e, body, st);
  }

  lemma OpenLength(e: Enc, o: Order)
    requires |e.out| % 4 == 0
    ensures Align(|e.out|, 4) == |e.out| && |OpenEncaps(e, o).out| == |e.out| + 5
  {
  }

  /** A component as the receiver sees it. */
  function Seen(c: Component, key: seq<Byte>): Component {
    if c.ObjectKey? then ObjectKey(SomeKey(key)) else c
  }

  function SeenAll(cs: seq<Component>, key: seq<Byte>): (r: seq<Component>)
    ensures |r| == |cs|
  {
    if cs == [] then [] else [Seen(cs[0], key)] + SeenAll(cs[1..], key)
  }

  lemma TagAligned(e: Enc, o: Order, tag: U32)
    ensures |PutInt(e, o, 4, tag).out| % 4 == 0
  {
  }

  predicate CodeSetsFit(c: Component) {
    c.CodeSets? ==> |c.chars.conversions| < 0x1_0000_0000 && |c.wchars.conversions| < 0x1_0000_0000
  }

  lemma ReadComponent(w: Window, e: Enc, key: seq<Byte>, c: Component, st: Dec)
    requires c.OtherComponent? ==> !KnownComponent(c.tag)
    requires CodeSetsFit(c)
    requires var r := PutComponentBody(PutInt(e, w.order, 4, ComponentTag(c)), w.order, key, c); Written(w, e, r, st)
    ensures var r := PutComponentBody(PutInt(e, w.order, 4, ComponentTag(c)), w.order, key, c);
      GetComponent(w, st) == Ok(Seen(c, key), st.(cur := |r.out|))
  {
    hide PutInt, GetInt, PutString, GetString, PutBlock, GetData, PutCodeSet, GetCodeSet, OpenEncaps, CloseEncaps, GetInner, Written;
    var o := w.order;
    var m := PutInt(e, o, 4, ComponentTag(c));
    var r := PutComponentBody(m, o, key, c);
    WrittenFirst(w, e, m, r, st);
    ReadInt(w, e, ComponentTag(c), st);
    TagAligned(e, o, ComponentTag(c));
    var s, i := st.(cur := |m.out|), OpenEncaps(m, o);
    match c {
      case ObjectKey(_) => ReadBlock(w, m, key, s);
      case OtherComponent(_, data) => ReadBlock(w, m, data, s);
      case GenericSsl(service) =>
        var b := PutString(i, o, service);
        ReadEncaps(w, m, b, s);
        ReadString(Win(w.mem, |b.out|, o, |m.out| + 4, w.wide), i, service, s.(cur := |i.out|));
      case Ssl(supports, required, port) =>
        var b1 := PutInt(i, o, 4, supports);
        var b2 := PutInt(b1, o, 4, required);
        var b3 := PutInt(b2, o, 2, port);
        ReadEncaps(w, m, b3, s);
        var sub := Win(w.mem, |b3.out|, o, |m.out| + 4, w.wide);
        WrittenFirst(sub, i, b1, b3, s.(cur := |i.out|));
        ReadInt(sub, i, supports, s.(cur := |i.out|));
        WrittenFirst(sub, b1, b2, b3, s.(cur := |b1.out|));
        ReadInt(sub, b1, required, s.(cur := |b1.out|));
        ReadShort(sub, b2, port, s.(cur := |b2.out|));
      case CodeSets(chars, wchars) =>
        var b1 := PutCodeSet(i, o, chars);
        var b2 := PutCodeSet(b1, o, wchars);
        ReadEncaps(w, m, b2, s);
        var sub := Win(w.mem, |b2.out|, o, |m.out| + 4, w.wide);
        WrittenFirst(sub, i, b1, b2, s.(cur := |i.out|));
        ReadCodeSet(sub, i, chars, s.(cur := |i.out|));
        ReadCodeSet(sub, b1, wchars, s.(cur := |b1.out|));
    }
  }

  ghost predicate ListOk(cs: seq<Component>) {
    ComponentsOk(cs) && (forall i :: 0 <= i < |cs| ==> CodeSetsFit(cs[i])) && |cs| < 0x1_0000_0000
  }

  lemma {:induction false} ReadComponentList(w: Window, e: Enc, key: seq<Byte>, cs: seq<Component>, st: Dec)
    requires ListOk(cs) && Written(w, e, PutComponentList(e, w.order, key, cs), st)
    ensures GetComponentList(w, st, |cs|) == Ok(SeenAll(cs, key), st.(cur := |PutComponentList(e, w.order, key, cs).out|))
    decreases cs
  {
    hide PutInt, GetComponent, PutComponentBody, Fits, Written;
    if cs == [] {
      WrittenNothing(w, e, st);
    } else {
      var m := PutComponentBody(PutInt(e, w.order, 4, ComponentTag(cs[0])), w.order, key, cs[0]);
      WrittenFirst(w, e, m, PutComponentList(e, w.order, key, cs), st);
      ReadComponent(w, e, key, cs[0], st);
      ReadComponentList(w, m, key, cs[1..], st.(cur := |m.out|));
    }
  }

  lemma WrittenNothing(w: Window, e: Enc, st: Dec)
    requires Written(w, e, e, st)
    ensures st.cur == |e.out|
  {
  }

  lemma ReadComponents(w: Window, e: Enc, key: seq<Byte>, cs: seq<Component>, st: Dec)
    requires ListOk(cs) && Written(w, e, PutComponents(e, w.order, key, cs), st)
    ensures GetComponents(w, st) == Ok(SeenAll(cs, key), st.(cur := |PutComponents(e, w.order, key, cs).out|))
  {
    hide PutInt, GetInt, GetComponentList, PutComponentList, Written;
    var m := PutInt(e, w.order, 4, |cs|);
    WrittenFirst(w, e, m, PutComponents(e, w.order, key, cs), st);
    ReadInt(w, e, |cs|, st);
    ReadComponentList(w, m, key, cs, st.(cur := |m.out|));
  }

  /** A profile as the receiver sees it: version 1.0 of IIOP loses its components. */
  function SeenProfile(p: Profile, key: seq<Byte>): Profile {
    match p
    case Iiop(version, host, port, _, components) =>
      Iiop(version, host, port, SomeKey(key), if version == 0 then [] else SeenAll(components, key))
    case Generic(version, proto, host, service, components) => Generic(version, proto, host, service, SeenAll(components, key))
    case Unix(path, ipv6Port, _) => Unix(path, ipv6Port, SomeKey(key))
    case Multiple(components) => Multiple(SeenAll(components, key))
    case OtherProfile(_, _) => p
  }

  function SeenProfiles(ps: seq<Profile>, key: seq<Byte>): (r: seq<Profile>)
    ensures |r| == |ps| && forall i :: 0 <= i < |ps| ==> r[i] == SeenProfile(ps[i], key)
  {
    seq(|ps|, i requires 0 <= i < |ps| => SeenProfile(ps[i], key))
  }

  ghost predicate Sendable(p: Profile) {
    ProfileOk(p) && (p.Iiop? || p.Generic? || p.Multiple? ==> ListOk(p.components))
  }

  lemma ReadVersion(w: Window, e: Enc, v: Version, st: Dec)
    requires Written(w, e, PutVersion(e, v), st)
    ensures GetVersion(w, st) == Ok(v, st.(cur := |PutVersion(e, v).out|))
  {
    FitsBytes(w.mem, e.out, [1, v]);
    var s := w.mem[|e.out|..|e.out| + 2];
    assert s[0] == 1 && s[1] == v;
  }

  lemma ReadIiop(w: Window, e: Enc, key: seq<Byte>, p: Profile, st: Dec)
    requires p.Iiop? && Sendable(p) && Written(w, e, PutProfileData(e, w.order, key, p), st)
    ensures GetProfileData(w, st, TAG_INTERNET_IOP).Ok? && GetProfileData(w, st, TAG_INTERNET_IOP).value == SeenProfile(p, key)
  {
    hide PutInt, GetInt, PutString, GetString, PutBlock, GetData, PutVersion, GetVersion, PutComponents, GetComponents, Written;
    var o := w.order;
    var m1 := PutVersion(e, p.version);
    var m2 := PutString(m1, o, p.host);
    var m3 := PutInt(m2, o, 2, p.port);
    var m4 := PutBlock(m3, o, key);
    var r := PutComponents(m4, o, key, p.components);
    WrittenFirst(w, e, m1, r, st);
    ReadVersion(w, e, p.version, st);
    WrittenFirst(w, m1, m2, r, st.(cur := |m1.out|));
    ReadString(w, m1, p.host, st.(cur := |m1.out|));
    WrittenFirst(w, m2, m3, r, st.(cur := |m2.out|));
    ReadShort(w, m2, p.port, st.(cur := |m2.out|));
    WrittenFirst(w, m3, m4, r, st.(cur := |m3.out|));
    ReadBlock(w, m3, key, st.(cur := |m3.out|));
    if p.version > 0 {
      ReadComponents(w, m4, key, p.components, st.(cur := |m4.out|));
    }
  }

  lemma ReadGeneric(w: Window, e: Enc, key: seq<Byte>, p: Profile, st: Dec)
    requires p.Generic? && Sendable(p) && Written(w, e, PutProfileData(e, w.order, key, p), st)
    ensures GetProfileData(w, st, TAG_GENERIC_IOP).Ok? && GetProfileData(w, st, TAG_GENERIC_IOP).value == SeenProfile(p, key)
  {
    hide PutInt, GetInt, PutString, GetString, PutVersion, GetVersion, PutComponents, GetComponents, Written;
    var o := w.order;
    var m1 := PutVersion(e, p.version);
    var m2 := PutString(m1, o, p.proto);
    var m3 := PutString(m2, o, p.host);
    var m4 := PutString(m3, o, p.service);
    var r := PutComponents(m4, o, key, p.components);
    WrittenFirst(w, e, m1, r, st);
    ReadVersion(w, e, p.version, st);
    WrittenFirst(w, m1, m2, r, st.(cur := |m1.out|));
    ReadString(w, m1, p.proto, st.(cur := |m1.out|));
    WrittenFirst(w, m2, m3, r, st.(cur := |m2.out|));
    ReadString(w, m2, p.host, st.(cur := |m2.out|));
    WrittenFirst(w, m3, m4, r, st.(cur := |m3.out|));
    ReadString(w, m3, p.service, st.(cur := |m3.out|));
    ReadComponents(w, m4, key, p.components, st.(cur := |m4.out|));
  }

  lemma ReadUnix(w: Window, e: Enc, key: seq<Byte>, p: Profile, st: Dec)
    requires p.Unix? && Written(w, e, PutProfileData(e, w.order, key, p), st)
    ensures GetProfileData(w, st, TAG_MATECORBA_SPECIFIC).Ok?
    ensures GetProfileData(w, st, TAG_MATECORBA_SPECIFIC).value == SeenProfile(p, key)
  {
    hide PutInt, GetInt, PutString, GetString, PutBlock, GetData, PutVersion, Written;
    var o := w.order;
    var m1 := PutVersion(e, 2);
    var m2 := PutString(m1, o, p.path);
    var m3 := PutInt(m2, o, 2, p.ipv6Port);
    var r := PutBlock(m3, o, key);
    WrittenFirst(w, e, m1, r, st);
    VersionLength(w, e, 2, st);
    WrittenFirst(w, m1, m2, r, st.(cur := |m1.out|));
    ReadString(w, m1, p.path, st.(cur := |m1.out|));
    WrittenFirst(w, m2, m3, r, st.(cur := |m2.out|));
    ReadShort(w, m2, p.ipv6Port, st.(cur := |m2.out|));
    ReadBlock(w, m3, key, st.(cur := |m3.out|));
  }

  lemma VersionLength(w: Window, e: Enc, v: Version, st: Dec)
    requires Written(w, e, PutVersion(e, v), st)
    ensures |PutVersion(e, v).out| == |e.out| + 2 == st.cur + 2 <= w.end
  {
  }

  lemma ReadProfileData(w: Window, e: Enc, key: seq<Byte>, p: Profile, st: Dec)
    requires !p.OtherProfile? && Sendable(p) && Written(w, e, PutProfileData(e, w.order, key, p), st)
    ensures GetProfileData(w, st, ProfileTag(p)).Ok? && GetProfileData(w, st, ProfileTag(p)).value == SeenProfile(p, key)
  {
    hide PutProfileData, GetProfileData, SeenProfile, Written;
    match p {
      case Iiop(_, _, _, _, _) => ReadIiop(w, e, key, p, st);
      case Generic(_, _, _, _, _) => ReadGeneric(w, e, key, p, st);
      case Unix(_, _, _) => ReadUnix(w, e, key, p, st);
      case Multiple(components) => ReadMultiple(w, e, key, p, st);
    }
  }

  lemma ReadMultiple(w: Window, e: Enc, key: seq<Byte>, p: Profile, st: Dec)
    requires p.Multiple? && Sendable(p) && Written(w, e, PutProfileData(e, w.order, key, p), st)
    ensures GetProfileData(w, st, TAG_MULTIPLE_COMPONENTS).Ok?
    ensures GetProfileData(w, st, TAG_MULTIPLE_COMPONENTS).value == SeenProfile(p, key)
  {
    hide PutComponents, GetComponents, Written;
    ReadComponents(w, e, key, p.components, st);
  }

  lemma ReadProfile(w: Window, e: Enc, key: seq<Byte>, p: Profile, st: Dec)
    requires Sendable(p) && |e.out| % 4 == 0 && Written(w, e, PutProfileBody(e, w.order, key, p), st)
    ensures GetProfileBody(w, st, ProfileTag(p)) == Ok(SeenProfile(p, key), st.(cur := |PutProfileBody(e, w.order, key, p).out|))
  {
    hide PutBlock, GetData, PutProfileData, GetProfileData, SeenProfile, OpenEncaps, CloseEncaps, GetInner, Written;
    if p.OtherProfile? {
      ReadBlock(w, e, p.data, st);
      SeenOther(p, key);
    } else {
      var i := OpenEncaps(e, w.order);
      var b := PutProfileData(i, w.order, key, p);
      ReadEncaps(w, e, b, st);
      ReadProfileData(Win(w.mem, |b.out|, w.order, |e.out| + 4, w.wide), i, key, p, st.(cur := |i.out|));
    }
  }

  lemma SeenOther(p: Profile, key: seq<Byte>)
    requires p.OtherProfile?
    ensures SeenProfile(p, key) == p
  {
  }

  lemma {:induction false} ReadProfiles(w: Window, e: Enc, key: seq<Byte>, ps: seq<Profile>, st: Dec)
    requires (forall i :: 0 <= i < |ps| ==> Sendable(ps[i])) && Written(w, e, PutProfiles(e, w.order, key, ps), st)
    ensures GetProfiles(w, st, |ps|) == Ok(SeenProfiles(ps, key), st.(cur := |PutProfiles(e, w.order, key, ps).out|))
    decreases ps
  {
    hide PutInt, GetInt, PutProfileBody, GetProfileBody, SeenProfile, Written, Sendable;
    if ps == [] {
      WrittenNothing(w, e, st);
    } else {
      var m1 := PutInt(e, w.order, 4, ProfileTag(ps[0]));
      var m2 := PutProfileBody(m1, w.order, key, ps[0]);
      var r := PutProfiles(e, w.order, key, ps);
      WrittenFirst(w, e, m1, r, st);
      ReadInt(w, e, ProfileTag(ps[0]), st);
      TagAligned(e, w.order, ProfileTag(ps[0]));
      WrittenFirst(w, m1, m2, r, st.(cur := |m1.out|));
      ReadProfile(w, m1, key, ps[0], st.(cur := |m1.out|));
      ReadProfiles(w, m2, key, ps[1..], st.(cur := |m2.out|));
      assert SeenProfiles(ps, key) == [SeenProfile(ps[0], key)] + SeenProfiles(ps[1..], key);
    }
  }

  /** Marshalling an object reference and demarshalling it gives the type id and the profiles in order. */
  lemma ReadObject(w: Window, e: Enc, typeId: CStr, key: seq<Byte>, ps: seq<Profile>, st: Dec)
    requires ps != [] && |ps| < 0x1_0000_0000 && forall i :: 0 <= i < |ps| ==> Sendable(ps[i])
    requires Written(w, e, PutObject(e, w.order, typeId, key, ps), st)
    ensures GetReference(w, st) == Ok(Object(typeId, SeenProfiles(ps, key)), st.(cur := |PutObject(e, w.order, typeId, key, ps).out|))
  {
    hide PutInt, GetInt, PutString, GetString, PutProfiles, GetProfiles, Written, Sendable, SeenProfiles;
    var m1 := PutString(e, w.order, typeId);
    var m2 := PutInt(m1, w.order, 4, |ps|);
    var r := PutObject(e, w.order, typeId, key, ps);
    WrittenFirst(w, e, m1, r, st);
    ReadString(w, e, typeId, st);
    WrittenFirst(w, m1, m2, r, st.(cur := |m1.out|));
    ReadInt(w, m1, |ps|, st.(cur := |m1.out|));
    ReadProfiles(w, m2, key, ps, st.(cur := |m2.out|));
  }

  // ----- the object key -----

  /** The keys that IOP_profiles_sync_objkey collects from a profile. */
  function ComponentKeys(cs: seq<Component>): seq<Key> {
    if cs == [] then []
    else (if cs[0].ObjectKey? then [cs[0].key] else []) + ComponentKeys(cs[1..])
  }

  function KeysOf(p: Profile): seq<Key> {
    if p.Iiop? || p.Unix? then [p.key] else if p.Multiple? then ComponentKeys(p.components) else []
  }

  function AllKeys(ps: seq<Profile>): seq<Key> {
    if ps == [] then [] else KeysOf(ps[0]) + AllKeys(ps[1..])
  }

  function ClearComponents(cs: seq<Component>): (r: seq<Component>)
    ensures |r| == |cs| && forall i :: 0 <= i < |cs| ==> r[i] == if cs[i].ObjectKey? then ObjectKey(NoKey) else cs[i]
  {
    seq(|cs|, i requires 0 <= i < |cs| => if cs[i].ObjectKey? then ObjectKey(NoKey) else cs[i])
  }

  function Cleared(p: Profile): Profile {
    if p.Iiop? || p.Unix? then p.(key := NoKey)
    else if p.Multiple? then Multiple(ClearComponents(p.components))
    else p
  }

  /** The key kept so far, and whether the last comparison found the same key. */
  datatype Sync = Sync(key: Key, same: bool)

  function Absorb(s: Sync, k: Key): Sync {
    if s.key == NoKey then s.(key := k) else s.(same := s.key == k)
  }

  function AbsorbAll(s: Sync, keys: seq<Key>): Sync
    decreases keys
  {
    if keys == [] then s else AbsorbAll(Absorb(s, keys[0]), keys[1..])
  }

  lemma {:induction false} AbsorbConcat(s: Sync, a: seq<Key>, b: seq<Key>)
    ensures AbsorbAll(s, a + b) == AbsorbAll(AbsorbAll(s, a), b)
    decreases a
  {
    if a == [] {
      assert a + b == b;
    } else {
      assert (a + b)[1..] == a[1..] + b;
      AbsorbConcat(Absorb(s, a[0]), a[1..], b);
    }
  }

  /** IOP_profiles_sync_objkey: one key is kept, and the profiles lose theirs. */
  method SyncObjkey(ps: seq<Profile>) returns (sync: Sync, cleared: seq<Profile>)
    ensures |cleared| == |ps| && forall i :: 0 <= i < |ps| ==> cleared[i] == Cleared(ps[i])
    ensures sync == AbsorbAll(Sync(NoKey, true), AllKeys(ps))
  {
    hide KeysOf, Cleared, AbsorbAll, Absorb;
    sync, cleared := Sync(NoKey, true), [];
    assert ps[0..] == ps;
    for i := 0 to |ps|
      invariant |cleared| == i && forall k :: 0 <= k < i ==> cleared[k] == Cleared(ps[k])
      invariant AbsorbAll(sync, AllKeys(ps[i..])) == AbsorbAll(Sync(NoKey, true), AllKeys(ps))
    {
      assert ps[i..][0] == ps[i] && ps[i..][1..] == ps[i + 1..];
      AbsorbConcat(sync, KeysOf(ps[i]), AllKeys(ps[i + 1..]));
      sync := TakeKeys(sync, KeysOf(ps[i]));
      cleared := cleared + [Cleared(ps[i])];
    }
    assert ps[|ps|..] == [] && AllKeys([]) == [];
    AbsorbNone(sync);
  }

  lemma AbsorbNone(s: Sync)
    ensures AbsorbAll(s, []) == s
  {
  }

  method TakeKeys(sync0: Sync, keys: seq<Key>) returns (sync: Sync)
    ensures sync == AbsorbAll(sync0, keys)
  {
    sync := sync0;
    assert keys[0..] == keys;
    for j := 0 to |keys|
      invariant AbsorbAll(sync, keys[j..]) == AbsorbAll(sync0, keys)
    {
      assert keys[j..][0] == keys[j] && keys[j..][1..] == keys[j + 1..];
      if sync.key == NoKey {
        sync := sync.(key := keys[j]);
      } else {
        sync := sync.(same := sync.key == keys[j]);
      }
    }
    assert keys[|keys|..] == [];
  }

  /** Keys that are all the same are kept without complaint. */
  lemma {:induction false} AbsorbSame(s: Sync, keys: seq<Key>, k: Key)
    requires k.SomeKey? && s.same && (s.key == NoKey || s.key == k) && forall i :: 0 <= i < |keys| ==> keys[i] == k
    ensures AbsorbAll(s, keys) == Sync(if keys == [] then s.key else k, true)
    decreases keys
  {
    if keys != [] {
      AbsorbSame(Absorb(s, keys[0]), keys[1..], k);
    }
  }

  /** The first key is the one that is kept. What is reported is only whether the last key is the same: a
      disagreement in between is forgotten. */
  lemma {:induction false} FirstKeyKept(keys: seq<Key>, i: nat)
    requires i < |keys| && keys[i] != NoKey && forall j :: 0 <= j < i ==> keys[j] == NoKey
    ensures AbsorbAll(Sync(NoKey, true), keys) == Sync(keys[i], keys[|keys| - 1] == keys[i])
    decreases i
  {
    if i == 0 {
      LastKeyCompared(Sync(keys[0], true), keys[1..]);
    } else {
      FirstKeyKept(keys[1..], i - 1);
    }
  }

  lemma {:induction false} LastKeyCompared(s: Sync, keys: seq<Key>)
    requires s.key != NoKey
    ensures AbsorbAll(s, keys) == if keys == [] then s else Sync(s.key, keys[|keys| - 1] == s.key)
    decreases keys
  {
    if keys != [] {
      LastKeyCompared(Absorb(s, keys[0]), keys[1..]);
    }
  }

  predicate Keyed(p: Profile) {
    p.Iiop? || p.Unix? || (p.Multiple? && HasKey(p.components))
  }

  predicate HasKey(cs: seq<Component>) {
    cs != [] && (cs[0].ObjectKey? || HasKey(cs[1..]))
  }

  predicate AnyKeyed(ps: seq<Profile>) {
    ps != [] && (Keyed(ps[0]) || AnyKeyed(ps[1..]))
  }

  lemma {:induction false} SeenComponentKeys(cs: seq<Component>, key: seq<Byte>)
    ensures forall i :: 0 <= i < |ComponentKeys(SeenAll(cs, key))| ==> ComponentKeys(SeenAll(cs, key))[i] == SomeKey(key)
    ensures ComponentKeys(SeenAll(cs, key)) != [] <==> HasKey(cs)
  {
    if cs != [] {
      SeenComponentKeys(cs[1..], key);
    }
  }

  lemma {:induction false} SeenKeys(ps: seq<Profile>, key: seq<Byte>)
    ensures forall i :: 0 <= i < |AllKeys(SeenProfiles(ps, key))| ==> AllKeys(SeenProfiles(ps, key))[i] == SomeKey(key)
    ensures AllKeys(SeenProfiles(ps, key)) != [] <==> AnyKeyed(ps)
  {
    if ps != [] {
      SeenKeys(ps[1..], key);
      assert SeenProfiles(ps, key)[1..] == SeenProfiles(ps[1..], key);
      if ps[0].Multiple? {
        SeenComponentKeys(ps[0].components, key);
      }
    }
  }

  /** The profiles of a received reference yield the sender's object key, provided one of them carries it. */
  lemma KeyComesBack(ps: seq<Profile>, key: seq<Byte>)
    ensures AbsorbAll(Sync(NoKey, true), AllKeys(SeenProfiles(ps, key)))
         == Sync(if AnyKeyed(ps) then SomeKey(key) else NoKey, true)
  {
    SeenKeys(ps, key);
    AbsorbSame(Sync(NoKey, true), AllKeys(SeenProfiles(ps, key)), SomeKey(key));
  }

  /** Every object key among the components is `k`. */
  predicate KeysAre(cs: seq<Component>, k: Key) {
    forall i :: 0 <= i < |cs| && cs[i].ObjectKey? ==> cs[i].key == k
  }

  /** The profiles that survive the transfer and the collection of the keys. An object keeps its profiles without
      keys of their own; version 1.0 of IIOP must have no components, because the receiver skips them. */
  predicate Restorable(p: Profile, key: seq<Byte>) {
    match p
    case Iiop(version, _, _, k, components) =>
      k == NoKey && if version == 0 then components == [] else KeysAre(components, SomeKey(key))
    case Generic(_, _, _, _, components) => KeysAre(components, SomeKey(key))
    case Unix(_, _, k) => k == NoKey
    case Multiple(components) => KeysAre(components, NoKey)
    case OtherProfile(_, _) => true
  }

  lemma {:induction false} SeenSame(cs: seq<Component>, key: seq<Byte>)
    ensures SeenAll(cs, key) == cs <==> KeysAre(cs, SomeKey(key))
  {
    if cs != [] {
      SeenSame(cs[1..], key);
      var r := SeenAll(cs, key);
      assert r == cs <==> r[0] == cs[0] && r[1..] == cs[1..];
      if KeysAre(cs[1..], SomeKey(key)) {
        forall i | 0 < i < |cs| && cs[i].ObjectKey? ensures cs[i].key == SomeKey(key) {
          assert cs[i] == cs[1..][i - 1];
        }
      }
    }
  }

  lemma ClearSame(cs: seq<Component>)
    ensures ClearComponents(cs) == cs <==> KeysAre(cs, NoKey)
  {
    if ClearComponents(cs) == cs {
      forall i | 0 <= i < |cs| && cs[i].ObjectKey? ensures cs[i].key == NoKey {
        assert ClearComponents(cs)[i] == cs[i];
      }
    }
  }

  lemma {:induction false} ClearSeen(cs: seq<Component>, key: seq<Byte>)
    ensures ClearComponents(SeenAll(cs, key)) == ClearComponents(cs)
  {
    if cs != [] {
      ClearSeen(cs[1..], key);
      var r := SeenAll(cs, key);
      assert r[1..] == SeenAll(cs[1..], key);
      forall i | 0 <= i < |cs| ensures ClearComponents(r)[i] == ClearComponents(cs)[i] {
        if i > 0 {
          assert r[i] == r[1..][i - 1] && cs[i] == cs[1..][i - 1];
          assert ClearComponents(r[1..])[i - 1] == ClearComponents(cs[1..])[i - 1];
        }
      }
    }
  }

  /** Once its key is collected, a received profile is the original exactly if it is of that form. */
  lemma ProfileComesBack(p: Profile, key: seq<Byte>)
    ensures Cleared(SeenProfile(p, key)) == p <==> Restorable(p, key)
  {
    match p {
      case Iiop(_, _, _, _, components) => SeenSame(components, key);
      case Generic(_, _, _, _, components) => SeenSame(components, key);
      case Multiple(components) =>
        ClearSeen(components, key);
        ClearSame(components);
      case _ =>
    }
  }
}

/** Object references written out by hand from sections 13.6 and 15.7 of CORBA 2.6 and from the profiles and components
    this ORB adds: what the marshaller must produce. The object key is 7, 8. */
module KnownReferences {
  import opened Cdr
  import opened TypeCodes
  import opened KnownTypeCodes
  import opened Ior
  import opened IorText

  /** Both digits of a byte, the high one first, in lower case. */
  lemma KnownText()
    ensures HexText([0x1f, 0xa0, 0x09]) == "1fa009"
  {
    assert HexText([0x09]) == "09";
    assert [0xa0, 0x09][1..] == [0x09] && HexText([0xa0, 0x09]) == "a009";
    assert [0x1f, 0xa0, 0x09][1..] == [0xa0, 0x09];
  }

  // ----- one profile of each kind, behind an aligned place -----

  lemma SendWord(e: Enc, base: seq<Cell>, o: Order, items: seq<Item>, n: nat, k: nat, v: int)
    requires Laid(e, base, o, items, n) && (n + k) % 4 == 0 && k < 4
    ensures Laid(PutInt(e, o, 4, v), base, o, items + (Gapped(k) + [Word(v)]), n + k + 4)
  {
    hide *;
    PutWord(e, base, o, items, n, k, v);
    assert items + (Gapped(k) + [Word(v)]) == items + Gapped(k) + [Word(v)];
  }

  lemma SendBlock(e: Enc, base: seq<Cell>, o: Order, items: seq<Item>, n: nat, k: nat, data: seq<Byte>)
    requires Laid(e, base, o, items, n) && (n + k) % 4 == 0 && k < 4
    ensures Laid(PutBlock(e, o, data), base, o, items + (Gapped(k) + [Word(|data|), Raw(data)]), n + k + 4 + |data|)
  {
    BlockIs(e, o, data);
    hide *;
    PutWord(e, base, o, items, n, k, |data|);
    PutBytes(PutInt(e, o, 4, |data|), base, o, items + Gapped(k) + [Word(|data|)], n + k + 4, data);
    assert items + (Gapped(k) + [Word(|data|), Raw(data)]) == items + Gapped(k) + [Word(|data|)] + [Raw(data)];
  }

  lemma BlockIs(e: Enc, o: Order, data: seq<Byte>)
    ensures PutBlock(e, o, data) == Append(PutInt(e, o, 4, |data|), data)
  {
    hide PutInt;
  }

  lemma SendString(e: Enc, base: seq<Cell>, o: Order, items: seq<Item>, n: nat, k: nat, s: CStr)
    requires Laid(e, base, o, items, n) && (n + k) % 4 == 0 && k < 4
    ensures Laid(PutString(e, o, s), base, o, items + (Gapped(k) + [Word(|s| + 1), Raw(s + [0])]), n + k + 4 + |s| + 1)
  {
    hide *;
    PutText(e, base, o, items, n, k, s);
    assert items + (Gapped(k) + [Word(|s| + 1), Raw(s + [0])]) == items + Gapped(k) + [Word(|s| + 1)] + [Raw(s + [0])];
  }

  /** An encapsulation: its length in front, then the flag, then its contents. */
  lemma SendEncaps(e: Enc, base: seq<Cell>, o: Order, items: seq<Item>, n: nat, body: Enc, inner: seq<Item>, m: nat)
    requires Laid(e, base, o, items, n) && n % 4 == 0
    requires OpenEncaps(e, o).out <= body.out && Laid(body, e.out + Pads(4), o, inner, m)
    ensures Laid(CloseEncaps(e, body, o), base, o, items + [Word(m)] + inner, n + 4 + m)
  {
    hide *;
    LaidIs(e, base, o, items, n);
    LaidIs(body, e.out + Pads(4), o, inner, m);
    AlignAligned(|e.out|, 4);
    CloseIs(e, body, o);
    LayPatched(e.out, o, inner, Store(o, 4, m));
    LayOne(base, o, items, Word(m));
    WordCells(o, m);
    LayBehind(base, o, items + [Word(m)], inner);
    IsLaid(CloseEncaps(e, body, o), base, o, items + [Word(m)] + inner, n + 4 + m);
  }

  lemma CloseIs(e: Enc, body: Enc, o: Order)
    requires OpenEncaps(e, o).out <= body.out
    ensures |body.out| >= Align(|e.out|, 4) + 4 && |CloseEncaps(e, body, o).out| == |body.out|
    ensures CloseEncaps(e, body, o).out == Patch(body.out, Align(|e.out|, 4), Store(o, 4, |body.out| - (Align(|e.out|, 4) + 4)))
  {
    hide OpenEncaps, Align, Store, Patch;
  }

  lemma WordCells(o: Order, v: int)
    ensures ItemCells(o, Word(v)) == Cells(Store(o, 4, v))
  {
    hide Store;
  }

  /** The profile's tag, and its encapsulation up to the version number. */
  ghost predicate Begun(e: Enc, o: Order, base: seq<Cell>, tag: int, body: Enc) {
    && Laid(e, base, o, [Word(tag)], 4)
    && body == PutVersion(OpenEncaps(e, o), 2)
    && Laid(body, e.out + Pads(4), o, [Raw([OrderFlag(o)]), Raw([1, 2])], 3)
  }

  lemma Begin(e0: Enc, o: Order, tag: int) returns (e: Enc, body: Enc)
    requires |e0.out| % 4 == 0
    ensures e == PutInt(e0, o, 4, tag) && Begun(e, o, e0.out, tag, body)
  {
    hide *;
    e := TagHead(e0, o, tag);
    body := VersionHead(e, o);
    BegunIs(e, o, e0.out, tag, body);
  }

  lemma TagHead(e0: Enc, o: Order, tag: int) returns (e: Enc)
    requires |e0.out| % 4 == 0
    ensures e == PutInt(e0, o, 4, tag) && Laid(e, e0.out, o, [Word(tag)], 4) && |e.out| % 4 == 0
  {
    hide *;
    LayNone(e0, o);
    e := PutInt(e0, o, 4, tag);
    PutNext(e0, e0.out, o, [], 0, tag);
    assert [] + [Word(tag)] == [Word(tag)];
    LaidIs(e, e0.out, o, [Word(tag)], 4);
  }

  lemma VersionHead(e: Enc, o: Order) returns (body: Enc)
    requires |e.out| % 4 == 0
    ensures body == PutVersion(OpenEncaps(e, o), 2)
    ensures Laid(body, e.out + Pads(4), o, [Raw([OrderFlag(o)]), Raw([1, 2])], 3)
  {
    var two: Version := 2;
    hide *;
    Opened(e, o);
    VersionIs(OpenEncaps(e, o), two);
    body := PutVersion(OpenEncaps(e, o), two);
    PutBytes(OpenEncaps(e, o), e.out + Pads(4), o, [Raw([OrderFlag(o)])], 1, [1, 2]);
    assert [Raw([OrderFlag(o)])] + [Raw([1, 2])] == [Raw([OrderFlag(o)]), Raw([1, 2])];
  }

  lemma BegunIs(e: Enc, o: Order, base: seq<Cell>, tag: int, body: Enc)
    ensures Begun(e, o, base, tag, body) <==>
      && Laid(e, base, o, [Word(tag)], 4)
      && body == PutVersion(OpenEncaps(e, o), 2)
      && Laid(body, e.out + Pads(4), o, [Raw([OrderFlag(o)]), Raw([1, 2])], 3)
  {
  }

  lemma VersionIs(e: Enc, v: Version)
    ensures PutVersion(e, v) == Append(e, [1, v])
  {
  }

  /** The path of a socket, with the port that IPv6 clients may use. */
  lemma KnownUnix(k: Key, port: U16, e: Enc, o: Order)
    requires |e.out| % 4 == 0
    ensures PutProfiles(e, o, [7, 8], [Unix([47], port, k)]).out == Lay(e.out, o,
      [Word(0xBADF_AECA), Word(18), Raw([OrderFlag(o)]), Raw([1, 2]), Gap(1), Word(2), Raw([47, 0]), Half(port), Word(2), Raw([7, 8])])
  {
    hide *;
    var e1, b1 := Begin(e, o, 0xBADF_AECA);
    BegunIs(e1, o, e.out, 0xBADF_AECA, b1);
    var i0 := [Raw([OrderFlag(o)]), Raw([1, 2])];
    var i1 := i0 + (Gapped(1) + [Word(2), Raw([47] + [0])]);
    var base := e1.out + Pads(4);
    SendString(b1, base, o, i0, 3, 1, [47]);
    var b2 := PutString(b1, o, [47]);
    PutHalf(b2, base, o, i1, 10, port);
    var b3 := PutInt(b2, o, 2, port);
    SendBlock(b3, base, o, i1 + [Half(port)], 12, 0, [7, 8]);
    UnixIs(Unix([47], port, k), e, e1, b1, o, [7, 8]);
    UnixItems(o, port);
    Finish(e1, e.out, o, 0xBADF_AECA, PutBlock(b3, o, [7, 8]), i1 + [Half(port)] + (Gapped(0) + [Word(2), Raw([7, 8])]), 18);
  }

  lemma Finish(e1: Enc, base: seq<Cell>, o: Order, tag: int, body: Enc, inner: seq<Item>, m: nat)
    requires Laid(e1, base, o, [Word(tag)], 4)
    requires OpenEncaps(e1, o).out <= body.out && Laid(body, e1.out + Pads(4), o, inner, m)
    ensures CloseEncaps(e1, body, o).out == Lay(base, o, [Word(tag), Word(m)] + inner)
  {
    hide *;
    SendEncaps(e1, base, o, [Word(tag)], 4, body, inner, m);
    LaidIs(CloseEncaps(e1, body, o), base, o, [Word(tag)] + [Word(m)] + inner, 8 + m);
    assert [Word(tag)] + [Word(m)] == [Word(tag), Word(m)];
  }

  lemma UnixIs(p: Profile, e: Enc, e1: Enc, b1: Enc, o: Order, key: seq<Byte>)
    requires p.Unix? && e1 == PutInt(e, o, 4, 0xBADF_AECA) && b1 == PutVersion(OpenEncaps(e1, o), 2)
    ensures
      var b4 := PutBlock(PutInt(PutString(b1, o, p.path), o, 2, p.ipv6Port), o, key);
      OpenEncaps(e1, o).out <= b4.out && PutProfiles(e, o, key, [p]) == CloseEncaps(e1, b4, o)
  {
    hide PutInt, PutString, PutBlock, OpenEncaps, CloseEncaps, PutVersion;
    assert ProfileTag(p) == 0xBADF_AECA;
    assert PutProfiles(PutProfileBody(e1, o, key, p), o, key, []) == PutProfileBody(e1, o, key, p);
    assert [p][1..] == [];
  }

  lemma UnixItems(o: Order, port: int)
    ensures [Word(0xBADF_AECA), Word(18)]
              + ([Raw([OrderFlag(o)]), Raw([1, 2])] + (Gapped(1) + [Word(2), Raw([47] + [0])]) + [Half(port)] + (Gapped(0) + [Word(2), Raw([7, 8])]))
         == [Word(0xBADF_AECA), Word(18), Raw([OrderFlag(o)]), Raw([1, 2]), Gap(1), Word(2), Raw([47, 0]), Half(port), Word(2), Raw([7, 8])]
  {
    assert [47] + [0] == [47, 0];
  }

  lemma ProfileStep(p: Profile, e: Enc, o: Order, key: seq<Byte>, tag: int)
    requires !p.OtherProfile? && tag == ProfileTag(p)
    ensures
      var e1 := PutInt(e, o, 4, tag);
      var body := PutProfileData(OpenEncaps(e1, o), o, key, p);
      OpenEncaps(e1, o).out <= body.out && PutProfiles(e, o, key, [p]) == CloseEncaps(e1, body, o)
  {
    hide PutInt, OpenEncaps, CloseEncaps, PutProfileData, ProfileTag;
    var e1 := PutInt(e, o, 4, tag);
    assert [p][1..] == [];
    assert PutProfiles(PutProfileBody(e1, o, key, p), o, key, []) == PutProfileBody(e1, o, key, p);
  }

  // ----- profiles with components -----

  /** Version, host "hi", port, key and one component with the options of a secure connection. */
  ghost function IiopWire(o: Order, port: int, s: int, r: int, q: int): seq<Item> {
    [Word(0), Word(50), Raw([OrderFlag(o)]), Raw([1, 2]), Gap(1), Word(3), Raw([104, 105, 0]), Gap(1), Half(port), Gap(2), Word(2), Raw([7, 8]),
     Gap(2), Word(1), Word(20), Word(14), Raw([OrderFlag(o)]), Gap(3), Word(s), Word(r), Half(q)]
  }

  lemma KnownIiop(k: Key, port: U16, s: U32, r: U32, q: U16, e: Enc, o: Order)
    requires |e.out| % 4 == 0
    ensures PutProfiles(e, o, [7, 8], [Iiop(2, [104, 105], port, k, [Ssl(s, r, q)])]).out == Lay(e.out, o, IiopWire(o, port, s, r, q))
  {
    var two: Version := 2;
    var p := Iiop(two, [104, 105], port, k, [Ssl(s, r, q)]);
    hide *;
    var e1, b1 := Begin(e, o, 0);
    BegunIs(e1, o, e.out, 0, b1);
    IiopIs(p, OpenEncaps(e1, o), b1, o, [7, 8]);
    ProfileStep(p, e, o, [7, 8], 0);
    var i0 := [Raw([OrderFlag(o)]), Raw([1, 2])];
    var b6, inner := IiopInside(b1, e1.out + Pads(4), o, i0, port, Ssl(s, r, q));
    IiopItems(o, port, s, r, q);
    Finish(e1, e.out, o, 0, b6, inner, 50);
  }

  lemma IiopInside(b1: Enc, base: seq<Cell>, o: Order, items: seq<Item>, port: U16, c: Component) returns (b6: Enc, inner: seq<Item>)
    requires Laid(b1, base, o, items, 3) && c.Ssl?
    ensures b6 == PutComponents(PutBlock(PutInt(PutString(b1, o, [104, 105]), o, 2, port), o, [7, 8]), o, [7, 8], [c])
    ensures inner == items + (Gapped(1) + [Word(3), Raw([104, 105] + [0])]) + (Gapped(1) + [Half(port)])
                       + (Gapped(2) + [Word(2), Raw([7, 8])]) + (Gapped(2) + [Word(1)]) + SslItems(o, c.supports, c.required, c.port)
    ensures Laid(b6, base, o, inner, 50)
  {
    hide *;
    var b3 := IiopHead(b1, base, o, items, port);
    b6, inner := IiopTail(b3, base, o, items + (Gapped(1) + [Word(3), Raw([104, 105] + [0])]) + (Gapped(1) + [Half(port)]), c);
  }

  lemma IiopHead(b1: Enc, base: seq<Cell>, o: Order, items: seq<Item>, port: U16) returns (b3: Enc)
    requires Laid(b1, base, o, items, 3)
    ensures b3 == PutInt(PutString(b1, o, [104, 105]), o, 2, port)
    ensures Laid(b3, base, o, items + (Gapped(1) + [Word(3), Raw([104, 105] + [0])]) + (Gapped(1) + [Half(port)]), 14)
  {
    hide *;
    SendString(b1, base, o, items, 3, 1, [104, 105]);
    b3 := PutInt(PutString(b1, o, [104, 105]), o, 2, port);
    SendHalf(PutString(b1, o, [104, 105]), base, o, items + (Gapped(1) + [Word(3), Raw([104, 105] + [0])]), 11, 1, port);
  }

  lemma IiopTail(b3: Enc, base: seq<Cell>, o: Order, items: seq<Item>, c: Component) returns (b6: Enc, inner: seq<Item>)
    requires Laid(b3, base, o, items, 14) && c.Ssl?
    ensures b6 == PutComponents(PutBlock(b3, o, [7, 8]), o, [7, 8], [c])
    ensures inner == items + (Gapped(2) + [Word(2), Raw([7, 8])]) + (Gapped(2) + [Word(1)]) + SslItems(o, c.supports, c.required, c.port)
    ensures Laid(b6, base, o, inner, 50)
  {
    hide *;
    SendBlock(b3, base, o, items, 14, 2, [7, 8]);
    var b4 := PutBlock(b3, o, [7, 8]);
    var i3 := items + (Gapped(2) + [Word(2), Raw([7, 8])]);
    SendWord(b4, base, o, i3, 22, 2, 1);
    OneComponent(b4, o, [7, 8], c);
    b6 := SendSsl(PutInt(b4, o, 4, 1), base, o, i3 + (Gapped(2) + [Word(1)]), 28, [7, 8], c);
    inner := i3 + (Gapped(2) + [Word(1)]) + SslItems(o, c.supports, c.required, c.port);
  }

  ghost function SslItems(o: Order, s: int, r: int, q: int): seq<Item> {
    [Word(20), Word(14), Raw([OrderFlag(o)]), Gap(3), Word(s), Word(r), Half(q)]
  }

  lemma IiopItems(o: Order, port: int, s: int, r: int, q: int)
    ensures [Word(0), Word(50)]
              + ([Raw([OrderFlag(o)]), Raw([1, 2])] + (Gapped(1) + [Word(3), Raw([104, 105] + [0])]) + (Gapped(1) + [Half(port)])
                 + (Gapped(2) + [Word(2), Raw([7, 8])]) + (Gapped(2) + [Word(1)]) + SslItems(o, s, r, q))
         == IiopWire(o, port, s, r, q)
  {
    assert [104, 105] + [0] == [104, 105, 0];
  }

  lemma SendHalf(e: Enc, base: seq<Cell>, o: Order, items: seq<Item>, n: nat, k: nat, v: int)
    requires Laid(e, base, o, items, n) && (n + k) % 2 == 0 && k < 2
    ensures Laid(PutInt(e, o, 2, v), base, o, items + (Gapped(k) + [Half(v)]), n + k + 2)
  {
    assert Align(|e.out|, 2) == |e.out| + k;
    hide Align, Store, Lay, Gapped;
    LayGap(base, o, items, k);
    LayOne(base, o, items + Gapped(k), Half(v));
    assert items + (Gapped(k) + [Half(v)]) == items + Gapped(k) + [Half(v)];
  }

  lemma IiopIs(p: Profile, e2: Enc, b1: Enc, o: Order, key: seq<Byte>)
    requires p.Iiop? && b1 == PutVersion(e2, p.version)
    ensures ProfileTag(p) == 0
    ensures PutProfileData(e2, o, key, p)
         == PutComponents(PutBlock(PutInt(PutString(b1, o, p.host), o, 2, p.port), o, key), o, key, p.components)
  {
    hide PutInt, PutString, PutBlock, PutVersion, PutComponents;
  }

  lemma OneComponent(e: Enc, o: Order, key: seq<Byte>, c: Component)
    ensures PutComponents(e, o, key, [c]) == PutComponentBody(PutInt(PutInt(e, o, 4, 1), o, 4, ComponentTag(c)), o, key, c)
  {
    hide PutInt, PutComponentBody, ComponentTag;
    assert [c][1..] == [];
    var e2 := PutComponentBody(PutInt(PutInt(e, o, 4, 1), o, 4, ComponentTag(c)), o, key, c);
    assert PutComponentList(e2, o, key, []) == e2;
  }

  lemma SendSsl(e: Enc, base: seq<Cell>, o: Order, items: seq<Item>, n: nat, key: seq<Byte>, c: Component) returns (r: Enc)
    requires Laid(e, base, o, items, n) && n % 4 == 0 && c.Ssl?
    ensures r == PutComponentBody(PutInt(e, o, 4, ComponentTag(c)), o, key, c)
    ensures Laid(r, base, o, items + SslItems(o, c.supports, c.required, c.port), n + 22)
  {
    hide *;
    SslIs(e, o, key, c);
    PutNext(e, base, o, items, n, 20);
    var e1 := PutInt(e, o, 4, 20);
    LaidIs(e1, base, o, items + [Word(20)], n + 4);
    var e5, inner := SslInside(e1, o, c);
    SendEncaps(e1, base, o, items + [Word(20)], n + 4, e5, inner, 14);
    SslTidy(o, items, c.supports, c.required, c.port);
    r := CloseEncaps(e1, e5, o);
  }

  lemma SslInside(e1: Enc, o: Order, c: Component) returns (e5: Enc, inner: seq<Item>)
    requires |e1.out| % 4 == 0 && c.Ssl?
    ensures e5 == PutInt(PutInt(PutInt(OpenEncaps(e1, o), o, 4, c.supports), o, 4, c.required), o, 2, c.port)
    ensures inner == [Raw([OrderFlag(o)])] + (Gapped(3) + [Word(c.supports)]) + [Word(c.required)] + [Half(c.port)]
    ensures Laid(e5, e1.out + Pads(4), o, inner, 14)
  {
    hide *;
    Opened(e1, o);
    var e2 := OpenEncaps(e1, o);
    SendWord(e2, e1.out + Pads(4), o, [Raw([OrderFlag(o)])], 1, 3, c.supports);
    var e3 := PutInt(e2, o, 4, c.supports);
    var i3 := [Raw([OrderFlag(o)])] + (Gapped(3) + [Word(c.supports)]);
    PutNext(e3, e1.out + Pads(4), o, i3, 8, c.required);
    var e4 := PutInt(e3, o, 4, c.required);
    PutHalf(e4, e1.out + Pads(4), o, i3 + [Word(c.required)], 12, c.port);
    e5 := PutInt(e4, o, 2, c.port);
    inner := i3 + [Word(c.required)] + [Half(c.port)];
  }

  lemma SslTidy(o: Order, items: seq<Item>, s: int, r: int, q: int)
    ensures items + [Word(20)] + [Word(14)] + ([Raw([OrderFlag(o)])] + (Gapped(3) + [Word(s)]) + [Word(r)] + [Half(q)])
         == items + SslItems(o, s, r, q)
  {
  }

  lemma SslIs(e: Enc, o: Order, key: seq<Byte>, c: Component)
    requires c.Ssl?
    ensures
      var e1 := PutInt(e, o, 4, 20);
      var body := PutInt(PutInt(PutInt(OpenEncaps(e1, o), o, 4, c.supports), o, 4, c.required), o, 2, c.port);
      && OpenEncaps(e1, o).out <= body.out
      && PutComponentBody(PutInt(e, o, 4, ComponentTag(c)), o, key, c) == CloseEncaps(e1, body, o)
  {
    hide PutInt, OpenEncaps, CloseEncaps;
  }

  /** Protocol "U", host "h", service "/". */
  lemma KnownGeneric(e: Enc, o: Order)
    requires |e.out| % 4 == 0
    ensures PutProfiles(e, o, [7, 8], [Generic(2, [85], [104], [47], [])]).out == Lay(e.out, o,
      [Word(0x4f42_5400), Word(32), Raw([OrderFlag(o)]), Raw([1, 2]), Gap(1), Word(2), Raw([85, 0]), Gap(2), Word(2), Raw([104, 0]),
       Gap(2), Word(2), Raw([47, 0]), Gap(2), Word(0)])
  {
    var two: Version := 2;
    var p := Generic(two, [85], [104], [47], []);
    hide *;
    var e1, b1 := Begin(e, o, 0x4f42_5400);
    BegunIs(e1, o, e.out, 0x4f42_5400, b1);
    GenericIs(p, OpenEncaps(e1, o), b1, o, [7, 8]);
    ProfileStep(p, e, o, [7, 8], 0x4f42_5400);
    GenericItems(o);
    var b5, inner := GenericInside(b1, e1.out + Pads(4), o, [Raw([OrderFlag(o)]), Raw([1, 2])]);
    Finish(e1, e.out, o, 0x4f42_5400, b5, inner, 32);
  }

  lemma GenericInside(b1: Enc, base: seq<Cell>, o: Order, items: seq<Item>) returns (b5: Enc, inner: seq<Item>)
    requires Laid(b1, base, o, items, 3)
    ensures b5 == PutInt(PutString(PutString(PutString(b1, o, [85]), o, [104]), o, [47]), o, 4, 0)
    ensures inner == items + (Gapped(1) + [Word(2), Raw([85] + [0])]) + (Gapped(2) + [Word(2), Raw([104] + [0])])
                       + (Gapped(2) + [Word(2), Raw([47] + [0])]) + (Gapped(2) + [Word(0)])
    ensures Laid(b5, base, o, inner, 32)
  {
    hide *;
    SendString(b1, base, o, items, 3, 1, [85]);
    b5, inner := GenericMiddle(PutString(b1, o, [85]), base, o, items + (Gapped(1) + [Word(2), Raw([85] + [0])]));
  }

  lemma GenericMiddle(b2: Enc, base: seq<Cell>, o: Order, items: seq<Item>) returns (b5: Enc, inner: seq<Item>)
    requires Laid(b2, base, o, items, 10)
    ensures b5 == PutInt(PutString(PutString(b2, o, [104]), o, [47]), o, 4, 0)
    ensures inner == items + (Gapped(2) + [Word(2), Raw([104] + [0])]) + (Gapped(2) + [Word(2), Raw([47] + [0])]) + (Gapped(2) + [Word(0)])
    ensures Laid(b5, base, o, inner, 32)
  {
    hide *;
    SendString(b2, base, o, items, 10, 2, [104]);
    b5, inner := GenericEnd(PutString(b2, o, [104]), base, o, items + (Gapped(2) + [Word(2), Raw([104] + [0])]));
  }

  lemma GenericEnd(b3: Enc, base: seq<Cell>, o: Order, items: seq<Item>) returns (b5: Enc, inner: seq<Item>)
    requires Laid(b3, base, o, items, 18)
    ensures b5 == PutInt(PutString(b3, o, [47]), o, 4, 0)
    ensures inner == items + (Gapped(2) + [Word(2), Raw([47] + [0])]) + (Gapped(2) + [Word(0)])
    ensures Laid(b5, base, o, inner, 32)
  {
    hide *;
    SendString(b3, base, o, items, 18, 2, [47]);
    b5 := PutInt(PutString(b3, o, [47]), o, 4, 0);
    inner := items + (Gapped(2) + [Word(2), Raw([47] + [0])]) + (Gapped(2) + [Word(0)]);
    SendWord(PutString(b3, o, [47]), base, o, items + (Gapped(2) + [Word(2), Raw([47] + [0])]), 26, 2, 0);
  }

  lemma GenericIs(p: Profile, e2: Enc, b1: Enc, o: Order, key: seq<Byte>)
    requires p.Generic? && p.components == [] && b1 == PutVersion(e2, p.version)
    ensures ProfileTag(p) == 0x4f42_5400
    ensures PutProfileData(e2, o, key, p) == PutInt(PutString(PutString(PutString(b1, o, p.proto), o, p.host), o, p.service), o, 4, 0)
  {
    hide PutInt, PutString, PutVersion;
  }

  lemma GenericItems(o: Order)
    ensures [Word(0x4f42_5400), Word(32)]
              + ([Raw([OrderFlag(o)]), Raw([1, 2])] + (Gapped(1) + [Word(2), Raw([85] + [0])]) + (Gapped(2) + [Word(2), Raw([104] + [0])])
                 + (Gapped(2) + [Word(2), Raw([47] + [0])]) + (Gapped(2) + [Word(0)]))
         == [Word(0x4f42_5400), Word(32), Raw([OrderFlag(o)]), Raw([1, 2]), Gap(1), Word(2), Raw([85, 0]), Gap(2), Word(2), Raw([104, 0]),
             Gap(2), Word(2), Raw([47, 0]), Gap(2), Word(0)]
  {
    assert [85] + [0] == [85, 0] && [104] + [0] == [104, 0] && [47] + [0] == [47, 0];
  }

  /** Three components: code sets (native `a`, conversion `b`; native `c`), a secure service "9", and the key. */
  ghost function MultipleWire(o: Order, a: int, b: int, c: int): seq<Item> {
    [Word(1), Word(70), Raw([OrderFlag(o)]), Gap(3), Word(3),
     Word(1), Word(24), Raw([OrderFlag(o)]), Gap(3), Word(a), Word(1), Word(b), Word(c), Word(0),
     Word(0x4f42_5400), Word(10), Raw([OrderFlag(o)]), Gap(3), Word(2), Raw([57, 0]), Gap(2), Word(5), Word(2), Raw([7, 8])]
  }

  lemma KnownMultiple(cs: seq<Component>, a: U32, b: U32, c: U32, e: Enc, o: Order)
    requires |e.out| % 4 == 0
    requires |cs| == 3 && cs[0] == CodeSets(CodeSet(a, [b]), CodeSet(c, [])) && cs[1] == GenericSsl([57]) && cs[2].ObjectKey?
    ensures PutProfiles(e, o, [7, 8], [Multiple(cs)]).out == Lay(e.out, o, MultipleWire(o, a, b, c))
  {
    var p := Multiple(cs);
    hide *;
    var e1 := TagHead(e, o, 1);
    MultipleIs(p, OpenEncaps(e1, o), o, [7, 8]);
    ProfileStep(p, e, o, [7, 8], 1);
    var r, inner := MultipleInside(e1, o, a, b, c, cs);
    MultipleDone(e1, e.out, o, a, b, c, r, inner);
  }

  lemma MultipleDone(e1: Enc, base: seq<Cell>, o: Order, a: U32, b: U32, c: U32, r: Enc, inner: seq<Item>)
    requires Laid(e1, base, o, [Word(1)], 4) && OpenEncaps(e1, o).out <= r.out && Laid(r, e1.out + Pads(4), o, inner, 70)
    requires inner == [Raw([OrderFlag(o)])] + (Gapped(3) + [Word(3)]) + CodeSetItems(o, a, b, c) + ServiceItems(o)
                        + (Gapped(2) + [Word(5), Word(2), Raw([7, 8])])
    ensures CloseEncaps(e1, r, o).out == Lay(base, o, MultipleWire(o, a, b, c))
  {
    hide *;
    MultipleItems(o, a, b, c);
    Finish(e1, base, o, 1, r, inner, 70);
  }

  lemma MultipleInside(e1: Enc, o: Order, a: U32, b: U32, c: U32, cs: seq<Component>) returns (r: Enc, inner: seq<Item>)
    requires |e1.out| % 4 == 0 && |cs| == 3 && cs[0] == CodeSets(CodeSet(a, [b]), CodeSet(c, []))
    requires cs[1] == GenericSsl([57]) && cs[2].ObjectKey?
    ensures r == PutComponentList(PutInt(OpenEncaps(e1, o), o, 4, 3), o, [7, 8], cs)
    ensures inner == [Raw([OrderFlag(o)])] + (Gapped(3) + [Word(3)]) + CodeSetItems(o, a, b, c) + ServiceItems(o)
                       + (Gapped(2) + [Word(5), Word(2), Raw([7, 8])])
    ensures Laid(r, e1.out + Pads(4), o, inner, 70)
  {
    hide *;
    Opened(e1, o);
    SendWord(OpenEncaps(e1, o), e1.out + Pads(4), o, [Raw([OrderFlag(o)])], 1, 3, 3);
    var i1 := [Raw([OrderFlag(o)])] + (Gapped(3) + [Word(3)]);
    r := ThreeComponents(PutInt(OpenEncaps(e1, o), o, 4, 3), e1.out + Pads(4), o, i1, a, b, c, cs);
    inner := i1 + CodeSetItems(o, a, b, c) + ServiceItems(o) + (Gapped(2) + [Word(5), Word(2), Raw([7, 8])]);
  }

  lemma MultipleIs(p: Profile, e2: Enc, o: Order, key: seq<Byte>)
    requires p.Multiple?
    ensures PutProfileData(e2, o, key, p) == PutComponentList(PutInt(e2, o, 4, |p.components|), o, key, p.components)
    ensures ProfileTag(p) == 1
  {
    hide PutInt, PutComponentList;
  }

  ghost function CodeSetItems(o: Order, a: int, b: int, c: int): seq<Item> {
    [Word(1), Word(24), Raw([OrderFlag(o)]), Gap(3), Word(a), Word(1), Word(b), Word(c), Word(0)]
  }

  ghost function ServiceItems(o: Order): seq<Item> {
    [Word(0x4f42_5400), Word(10), Raw([OrderFlag(o)]), Gap(3), Word(2), Raw([57, 0])]
  }

  lemma MultipleItems(o: Order, a: int, b: int, c: int)
    ensures [Word(1), Word(70)] + ([Raw([OrderFlag(o)])] + (Gapped(3) + [Word(3)]) + CodeSetItems(o, a, b, c) + ServiceItems(o)
              + (Gapped(2) + [Word(5), Word(2), Raw([7, 8])]))
         == MultipleWire(o, a, b, c)
  {
  }

  lemma ThreeComponents(e: Enc, base: seq<Cell>, o: Order, items: seq<Item>, a: U32, b: U32, c: U32, cs: seq<Component>) returns (r: Enc)
    requires Laid(e, base, o, items, 8) && |cs| == 3 && cs[0] == CodeSets(CodeSet(a, [b]), CodeSet(c, []))
    requires cs[1] == GenericSsl([57]) && cs[2].ObjectKey?
    ensures r == PutComponentList(e, o, [7, 8], cs)
    ensures Laid(r, base, o, items + CodeSetItems(o, a, b, c) + ServiceItems(o) + (Gapped(2) + [Word(5), Word(2), Raw([7, 8])]), 70)
  {
    hide *;
    var e1 := SendCodeSets(e, base, o, items, 8, [7, 8], cs[0], a, b, c);
    var e2 := SendService(e1, base, o, items + CodeSetItems(o, a, b, c), 40, [7, 8], cs[1]);
    r := SendKey(e2, base, o, items + CodeSetItems(o, a, b, c) + ServiceItems(o), 58, [7, 8], cs[2]);
    ListOfThree(e, e1, e2, r, o, [7, 8], cs);
  }

  lemma ListOfThree(e: Enc, e1: Enc, e2: Enc, r: Enc, o: Order, key: seq<Byte>, cs: seq<Component>)
    requires |cs| == 3
    requires e1 == PutComponentBody(PutInt(e, o, 4, ComponentTag(cs[0])), o, key, cs[0])
    requires e2 == PutComponentBody(PutInt(e1, o, 4, ComponentTag(cs[1])), o, key, cs[1])
    requires r == PutComponentBody(PutInt(e2, o, 4, ComponentTag(cs[2])), o, key, cs[2])
    ensures r == PutComponentList(e, o, key, cs)
  {
    assert cs[1..][1..] == cs[2..] && cs[2..][1..] == [];
    hide *;
    ComponentStep(e, o, key, cs);
    ComponentStep(e1, o, key, cs[1..]);
    ComponentStep(e2, o, key, cs[2..]);
    ComponentStep(r, o, key, []);
  }

  lemma ComponentStep(e: Enc, o: Order, key: seq<Byte>, cs: seq<Component>)
    ensures PutComponentList(e, o, key, cs) ==
      if cs == [] then e
      else PutComponentList(PutComponentBody(PutInt(e, o, 4, ComponentTag(cs[0])), o, key, cs[0]), o, key, cs[1..])
  {
    hide PutInt, PutComponentBody, ComponentTag;
  }

  lemma SendKey(e: Enc, base: seq<Cell>, o: Order, items: seq<Item>, n: nat, key: seq<Byte>, c: Component) returns (r: Enc)
    requires Laid(e, base, o, items, n) && (n + 2) % 4 == 0 && c.ObjectKey?
    ensures r == PutComponentBody(PutInt(e, o, 4, ComponentTag(c)), o, key, c)
    ensures Laid(r, base, o, items + (Gapped(2) + [Word(5), Word(|key|), Raw(key)]), n + 10 + |key|)
  {
    hide *;
    KeyIs(e, o, key, c);
    SendWord(e, base, o, items, n, 2, 5);
    r := PutBlock(PutInt(e, o, 4, 5), o, key);
    KeyJoined(PutInt(e, o, 4, 5), base, o, items, n, key);
  }

  lemma KeyJoined(e1: Enc, base: seq<Cell>, o: Order, items: seq<Item>, n: nat, key: seq<Byte>)
    requires Laid(e1, base, o, items + (Gapped(2) + [Word(5)]), n + 6) && (n + 2) % 4 == 0
    ensures Laid(PutBlock(e1, o, key), base, o, items + (Gapped(2) + [Word(5), Word(|key|), Raw(key)]), n + 10 + |key|)
  {
    hide *;
    KeyTidy(items, key);
    SendBlock(e1, base, o, items + (Gapped(2) + [Word(5)]), n + 6, 0, key);
  }

  lemma KeyTidy(items: seq<Item>, key: seq<Byte>)
    ensures items + (Gapped(2) + [Word(5)]) + (Gapped(0) + [Word(|key|), Raw(key)]) == items + (Gapped(2) + [Word(5), Word(|key|), Raw(key)])
  {
  }

  lemma KeyIs(e: Enc, o: Order, key: seq<Byte>, c: Component)
    requires c.ObjectKey?
    ensures PutComponentBody(PutInt(e, o, 4, ComponentTag(c)), o, key, c) == PutBlock(PutInt(e, o, 4, 5), o, key)
  {
    hide PutInt, PutBlock;
  }

  lemma SendService(e: Enc, base: seq<Cell>, o: Order, items: seq<Item>, n: nat, key: seq<Byte>, c: Component) returns (r: Enc)
    requires Laid(e, base, o, items, n) && n % 4 == 0 && c == GenericSsl([57])
    ensures r == PutComponentBody(PutInt(e, o, 4, ComponentTag(c)), o, key, c)
    ensures Laid(r, base, o, items + ServiceItems(o), n + 18)
  {
    hide *;
    ServiceIs(e, o, key, c);
    ServiceTidy(o, items);
    PutNext(e, base, o, items, n, 0x4f42_5400);
    var e1 := PutInt(e, o, 4, 0x4f42_5400);
    LaidIs(e1, base, o, items + [Word(0x4f42_5400)], n + 4);
    Opened(e1, o);
    SendString(OpenEncaps(e1, o), e1.out + Pads(4), o, [Raw([OrderFlag(o)])], 1, 3, [57]);
    r := CloseEncaps(e1, PutString(OpenEncaps(e1, o), o, [57]), o);
    SendEncaps(e1, base, o, items + [Word(0x4f42_5400)], n + 4, PutString(OpenEncaps(e1, o), o, [57]),
      [Raw([OrderFlag(o)])] + (Gapped(3) + [Word(2), Raw([57] + [0])]), 10);
  }

  lemma ServiceTidy(o: Order, items: seq<Item>)
    ensures items + [Word(0x4f42_5400)] + [Word(10)] + ([Raw([OrderFlag(o)])] + (Gapped(3) + [Word(2), Raw([57] + [0])]))
         == items + ServiceItems(o)
  {
    assert [57] + [0] == [57, 0];
  }

  lemma ServiceIs(e: Enc, o: Order, key: seq<Byte>, c: Component)
    requires c == GenericSsl([57])
    ensures
      var e1 := PutInt(e, o, 4, 0x4f42_5400);
      var body := PutString(OpenEncaps(e1, o), o, [57]);
      && OpenEncaps(e1, o).out <= body.out
      && PutComponentBody(PutInt(e, o, 4, ComponentTag(c)), o, key, c) == CloseEncaps(e1, body, o)
  {
    hide PutInt, OpenEncaps, CloseEncaps, PutString;
  }

  lemma SendCodeSets(e: Enc, base: seq<Cell>, o: Order, items: seq<Item>, n: nat, key: seq<Byte>, x: Component, a: U32, b: U32, c: U32)
    returns (r: Enc)
    requires Laid(e, base, o, items, n) && n % 4 == 0 && x == CodeSets(CodeSet(a, [b]), CodeSet(c, []))
    ensures r == PutComponentBody(PutInt(e, o, 4, ComponentTag(x)), o, key, x)
    ensures Laid(r, base, o, items + CodeSetItems(o, a, b, c), n + 32)
  {
    hide *;
    CodeSetsAre(e, o, key, x, a, b, c);
    PutNext(e, base, o, items, n, 1);
    var e1 := PutInt(e, o, 4, 1);
    LaidIs(e1, base, o, items + [Word(1)], n + 4);
    var body, inner := CodeSetsInside(e1, o, a, b, c);
    CodeSetTidy(o, items, a, b, c);
    r := CloseEncaps(e1, body, o);
    SendEncaps(e1, base, o, items + [Word(1)], n + 4, body, inner, 24);
  }

  lemma CodeSetTidy(o: Order, items: seq<Item>, a: int, b: int, c: int)
    ensures items + [Word(1)] + [Word(24)]
              + ([Raw([OrderFlag(o)])] + (Gapped(3) + [Word(a)]) + [Word(1)] + [Word(b)] + [Word(c)] + [Word(0)])
         == items + CodeSetItems(o, a, b, c)
  {
  }

  lemma CodeSetsAre(e: Enc, o: Order, key: seq<Byte>, x: Component, a: U32, b: U32, c: U32)
    requires x == CodeSets(CodeSet(a, [b]), CodeSet(c, []))
    ensures
      var e1 := PutInt(e, o, 4, 1);
      var body := PutInt(PutInt(PutInt(PutInt(PutInt(OpenEncaps(e1, o), o, 4, a), o, 4, 1), o, 4, b), o, 4, c), o, 4, 0);
      && OpenEncaps(e1, o).out <= body.out
      && PutComponentBody(PutInt(e, o, 4, ComponentTag(x)), o, key, x) == CloseEncaps(e1, body, o)
  {
    hide PutInt, OpenEncaps, CloseEncaps;
    var e3 := PutInt(PutInt(OpenEncaps(PutInt(e, o, 4, 1), o), o, 4, a), o, 4, 1);
    assert [b][1..] == [];
    assert PutWords(PutInt(e3, o, 4, b), o, []) == PutInt(e3, o, 4, b);
    assert PutWords(e3, o, [b]) == PutInt(e3, o, 4, b);
  }

  lemma CodeSetsInside(e1: Enc, o: Order, a: U32, b: U32, c: U32) returns (body: Enc, inner: seq<Item>)
    requires |e1.out| % 4 == 0
    ensures body == PutInt(PutInt(PutInt(PutInt(PutInt(OpenEncaps(e1, o), o, 4, a), o, 4, 1), o, 4, b), o, 4, c), o, 4, 0)
    ensures inner == [Raw([OrderFlag(o)])] + (Gapped(3) + [Word(a)]) + [Word(1)] + [Word(b)] + [Word(c)] + [Word(0)]
    ensures Laid(body, e1.out + Pads(4), o, inner, 24)
  {
    hide *;
    Opened(e1, o);
    var i1 := [Raw([OrderFlag(o)])] + (Gapped(3) + [Word(a)]);
    SendWord(OpenEncaps(e1, o), e1.out + Pads(4), o, [Raw([OrderFlag(o)])], 1, 3, a);
    body := FourWords(PutInt(OpenEncaps(e1, o), o, 4, a), e1.out + Pads(4), o, i1, 8, 1, b, c, 0);
    inner := i1 + [Word(1)] + [Word(b)] + [Word(c)] + [Word(0)];
  }

  lemma FourWords(e: Enc, base: seq<Cell>, o: Order, items: seq<Item>, n: nat, a: int, b: int, c: int, d: int) returns (r: Enc)
    requires Laid(e, base, o, items, n) && n % 4 == 0
    ensures r == PutInt(PutInt(PutInt(PutInt(e, o, 4, a), o, 4, b), o, 4, c), o, 4, d)
    ensures Laid(r, base, o, items + [Word(a)] + [Word(b)] + [Word(c)] + [Word(d)], n + 16)
  {
    hide *;
    PutNext(e, base, o, items, n, a);
    var e1 := PutInt(e, o, 4, a);
    PutNext(e1, base, o, items + [Word(a)], n + 4, b);
    var e2 := PutInt(e1, o, 4, b);
    PutNext(e2, base, o, items + [Word(a)] + [Word(b)], n + 8, c);
    var e3 := PutInt(e2, o, 4, c);
    PutNext(e3, base, o, items + [Word(a)] + [Word(b)] + [Word(c)], n + 12, d);
    r := PutInt(e3, o, 4, d);
  }

  /** A whole reference: the type id, the number of profiles, and the profiles. */
  lemma KnownObject(k: Key, port: U16, e: Enc, o: Order)
    requires |e.out| % 4 == 0
    ensures PutObject(e, o, [65], [7, 8], [Unix([47], port, k)]).out == Lay(e.out, o,
      [Word(2), Raw([65, 0]), Gap(2), Word(1), Word(0xBADF_AECA), Word(18), Raw([OrderFlag(o)]), Raw([1, 2]), Gap(1), Word(2), Raw([47, 0]),
       Half(port), Word(2), Raw([7, 8])])
  {
    var ps := [Unix([47], port, k)];
    hide *;
    ObjectIs(e, o, ps);
    var e1 := ObjectHead(e, o);
    KnownUnix(k, port, e1, o);
    LayBehind(e.out, o, [Word(2), Raw([65, 0]), Gap(2), Word(1)],
      [Word(0xBADF_AECA), Word(18), Raw([OrderFlag(o)]), Raw([1, 2]), Gap(1), Word(2), Raw([47, 0]), Half(port), Word(2), Raw([7, 8])]);
    ObjectItems(o, port);
  }

  lemma ObjectHead(e: Enc, o: Order) returns (e1: Enc)
    requires |e.out| % 4 == 0
    ensures e1 == PutInt(PutString(e, o, [65]), o, 4, 1)
    ensures e1.out == Lay(e.out, o, [Word(2), Raw([65, 0]), Gap(2), Word(1)]) && |e1.out| % 4 == 0
  {
    hide *;
    LayNone(e, o);
    SendString(e, e.out, o, [], 0, 0, [65]);
    var i1 := [] + (Gapped(0) + [Word(2), Raw([65] + [0])]);
    SendWord(PutString(e, o, [65]), e.out, o, i1, 6, 2, 1);
    e1 := PutInt(PutString(e, o, [65]), o, 4, 1);
    LaidIs(e1, e.out, o, i1 + (Gapped(2) + [Word(1)]), 12);
    HeadItems();
  }

  lemma HeadItems()
    ensures [] + (Gapped(0) + [Word(2), Raw([65] + [0])]) + (Gapped(2) + [Word(1)]) == [Word(2), Raw([65, 0]), Gap(2), Word(1)]
  {
    assert [65] + [0] == [65, 0];
  }

  lemma ObjectIs(e: Enc, o: Order, ps: seq<Profile>)
    requires |ps| == 1
    ensures PutObject(e, o, [65], [7, 8], ps) == PutProfiles(PutInt(PutString(e, o, [65]), o, 4, 1), o, [7, 8], ps)
  {
    hide PutProfiles, PutInt, PutString;
  }

  lemma ObjectItems(o: Order, port: int)
    ensures [Word(2), Raw([65, 0]), Gap(2), Word(1)]
              + [Word(0xBADF_AECA), Word(18), Raw([OrderFlag(o)]), Raw([1, 2]), Gap(1), Word(2), Raw([47, 0]), Half(port), Word(2), Raw([7, 8])]
         == [Word(2), Raw([65, 0]), Gap(2), Word(1), Word(0xBADF_AECA), Word(18), Raw([OrderFlag(o)]), Raw([1, 2]), Gap(1), Word(2), Raw([47, 0]),
             Half(port), Word(2), Raw([7, 8])]
  {
  }
}

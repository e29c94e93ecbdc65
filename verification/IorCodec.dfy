/** MateCORBA_marshal_object on a send buffer, and the stringified form of object references. */
module IorCodec {
  import opened Cdr
  import opened TypeCodes
  import opened SendBuffer
  import opened TypeCodeCodec
  import opened Ior

  ghost function Out(buf: Buffer): Enc
    reads buf
  {
    Enc(buf.out, map[])
  }

  /** IOP_ObjectKey_marshal and the bytes of unknown components. */
  method MarshalBlock(buf: Buffer, data: seq<Byte>)
    requires buf.Valid()
    modifies buf
    ensures buf.Valid() && buf.headerSize == old(buf.headerSize) && Keeps(old(buf.marks), buf.marks)
    ensures Out(buf) == PutBlock(old(Out(buf)), buf.order, data)
  {
    hide Buffer.Valid, Store, Align;
    var _ := buf.AppendAligned(Bytes(Store(buf.order, 4, |data|)), 4);
    buf.AppendBytes(data);
  }

  method MarshalInt(buf: Buffer, n: nat, v: nat)
    requires buf.Valid() && n in {2, 4}
    modifies buf
    ensures buf.Valid() && buf.headerSize == old(buf.headerSize) && Keeps(old(buf.marks), buf.marks)
    ensures Out(buf) == PutInt(old(Out(buf)), buf.order, n, v)
  {
    hide Buffer.Valid, Store, Align;
    CdrPut(buf, n, v);
  }

  method MarshalString(buf: Buffer, s: CStr)
    requires buf.Valid()
    modifies buf
    ensures buf.Valid() && buf.headerSize == old(buf.headerSize) && Keeps(old(buf.marks), buf.marks)
    ensures Out(buf) == PutString(old(Out(buf)), buf.order, s)
  {
    hide Buffer.Valid, Store, Align, PutString;
    CdrPutString(buf, s);
  }

  /** The marker and the byte-order flag of an encapsulation. */
  method OpenAt(buf: Buffer) returns (marker: nat, start: nat)
    requires buf.Valid()
    modifies buf
    ensures buf.Valid() && buf.headerSize == old(buf.headerSize) && Keeps(old(buf.marks), buf.marks)
    ensures Out(buf) == OpenEncaps(old(Out(buf)), buf.order)
    ensures marker in buf.marks && buf.marks[marker] == Align(|old(buf.out)|, 4)
    ensures marker !in old(buf.marks)
    ensures start == Align(|old(buf.out)|, 4) + 4 - buf.headerSize
  {
    hide Buffer.Valid, Store, Align;
    ghost var e := Out(buf);
    marker := buf.AppendAligned(Null, 4);
    start := buf.Size();
    buf.AppendBytes([OrderFlag(buf.order)]);
    OpenEncapsCells(e, buf.order);
  }

  /** The length, filled in when the encapsulation is complete. */
  method CloseAt(buf: Buffer, marker: nat, start: nat, ghost e: Enc)
    requires buf.Valid() && OpenEncaps(e, buf.order).out <= buf.out && marker in buf.marks
    requires buf.marks[marker] == Align(|e.out|, 4) && start == Align(|e.out|, 4) + 4 - buf.headerSize
    modifies buf
    ensures buf.Valid() && buf.headerSize == old(buf.headerSize) && buf.marks == old(buf.marks)
    ensures Out(buf) == CloseEncaps(e, old(Out(buf)), buf.order)
  {
    hide Buffer.Valid, Store, Align, OpenEncaps;
    var size := buf.Size();
    buf.FillIn(marker, Store(buf.order, 4, size - start));
  }

  method MarshalWords(buf: Buffer, ws: seq<U32>)
    requires buf.Valid()
    modifies buf
    ensures buf.Valid() && buf.headerSize == old(buf.headerSize) && Keeps(old(buf.marks), buf.marks)
    ensures Out(buf) == PutWords(old(Out(buf)), buf.order, ws)
  {
    hide Buffer.Valid, PutInt;
    for i := 0 to |ws|
      invariant buf.Valid() && buf.headerSize == old(buf.headerSize) && Keeps(old(buf.marks), buf.marks)
      invariant PutWords(Out(buf), buf.order, ws[i..]) == PutWords(old(Out(buf)), buf.order, ws)
    {
      assert ws[i..][0] == ws[i] && ws[i..][1..] == ws[i + 1..];
      MarshalInt(buf, 4, ws[i]);
    }
    assert ws[|ws|..] == [];
  }

  method MarshalCodeSet(buf: Buffer, c: CodeSet)
    requires buf.Valid()
    modifies buf
    ensures buf.Valid() && buf.headerSize == old(buf.headerSize) && Keeps(old(buf.marks), buf.marks)
    ensures Out(buf) == PutCodeSet(old(Out(buf)), buf.order, c)
  {
    hide Buffer.Valid, PutInt, PutWords;
    MarshalInt(buf, 4, c.native);
    MarshalInt(buf, 4, |c.conversions|);
    MarshalWords(buf, c.conversions);
  }

  /** The component's own marshaller, within an encapsulation where it has one. */
  method MarshalComponent(buf: Buffer, key: seq<Byte>, c: Component)
    requires buf.Valid()
    modifies buf
    ensures buf.Valid() && buf.headerSize == old(buf.headerSize) && Keeps(old(buf.marks), buf.marks)
    ensures Out(buf) == PutComponentBody(old(Out(buf)), buf.order, key, c)
  {
    hide Buffer.Valid, PutInt, PutString, PutBlock, PutCodeSet, OpenEncaps, CloseEncaps, Align;
    if c.ObjectKey? {
      MarshalBlock(buf, key);
    } else if c.OtherComponent? {
      MarshalBlock(buf, c.data);
    } else {
      ghost var e := Out(buf);
      var marker, start := OpenAt(buf);
      if c.GenericSsl? {
        MarshalString(buf, c.service);
      } else if c.Ssl? {
        MarshalInt(buf, 4, c.supports);
        MarshalInt(buf, 4, c.required);
        MarshalInt(buf, 2, c.port);
      } else {
        MarshalCodeSet(buf, c.chars);
        MarshalCodeSet(buf, c.wchars);
      }
      CloseAt(buf, marker, start, e);
    }
  }

  /** IOP_components_marshal. */
  method MarshalComponents(buf: Buffer, key: seq<Byte>, cs: seq<Component>)
    requires buf.Valid()
    modifies buf
    ensures buf.Valid() && buf.headerSize == old(buf.headerSize) && Keeps(old(buf.marks), buf.marks)
    ensures Out(buf) == PutComponents(old(Out(buf)), buf.order, key, cs)
  {
    hide Buffer.Valid, PutInt, PutComponentBody;
    MarshalInt(buf, 4, |cs|);
    for i := 0 to |cs|
      invariant buf.Valid() && buf.headerSize == old(buf.headerSize) && Keeps(old(buf.marks), buf.marks)
      invariant PutComponentList(Out(buf), buf.order, key, cs[i..]) == PutComponents(old(Out(buf)), buf.order, key, cs)
    {
      assert cs[i..][0] == cs[i] && cs[i..][1..] == cs[i + 1..];
      MarshalInt(buf, 4, ComponentTag(cs[i]));
      MarshalComponent(buf, key, cs[i]);
    }
    assert cs[|cs|..] == [];
  }

  method MarshalVersion(buf: Buffer, v: Version)
    requires buf.Valid()
    modifies buf
    ensures buf.Valid() && buf.headerSize == old(buf.headerSize) && Keeps(old(buf.marks), buf.marks)
    ensures Out(buf) == PutVersion(old(Out(buf)), v)
  {
    hide Buffer.Valid;
    buf.AppendBytes([1, v]);
  }

  method MarshalProfileData(buf: Buffer, key: seq<Byte>, p: Profile)
    requires buf.Valid() && !p.OtherProfile?
    modifies buf
    ensures buf.Valid() && buf.headerSize == old(buf.headerSize) && Keeps(old(buf.marks), buf.marks)
    ensures Out(buf) == PutProfileData(old(Out(buf)), buf.order, key, p)
  {
    hide Buffer.Valid, PutInt, PutString, PutBlock, PutVersion, PutComponents;
    if p.Iiop? {
      MarshalVersion(buf, p.version);
      MarshalString(buf, p.host);
      MarshalInt(buf, 2, p.port);
      MarshalBlock(buf, key);
      MarshalComponents(buf, key, p.components);
    } else if p.Generic? {
      MarshalVersion(buf, p.version);
      MarshalString(buf, p.proto);
      MarshalString(buf, p.host);
      MarshalString(buf, p.service);
      MarshalComponents(buf, key, p.components);
    } else if p.Unix? {
      MarshalVersion(buf, 2);
      MarshalString(buf, p.path);
      MarshalInt(buf, 2, p.ipv6Port);
      MarshalBlock(buf, key);
    } else {
      MarshalComponents(buf, key, p.components);
    }
  }

  /** IOP_profile_marshal. */
  method MarshalProfile(buf: Buffer, key: seq<Byte>, p: Profile)
    requires buf.Valid()
    modifies buf
    ensures buf.Valid() && buf.headerSize == old(buf.headerSize) && Keeps(old(buf.marks), buf.marks)
    ensures Out(buf) == PutProfileBody(PutInt(old(Out(buf)), buf.order, 4, ProfileTag(p)), buf.order, key, p)
  {
    hide Buffer.Valid, PutInt, PutBlock, PutProfileData, OpenEncaps, CloseEncaps, Align, ProfileTag;
    MarshalInt(buf, 4, ProfileTag(p));
    if p.OtherProfile? {
      MarshalBlock(buf, p.data);
    } else {
      ghost var e := Out(buf);
      var marker, start := OpenAt(buf);
      MarshalProfileData(buf, key, p);
      CloseAt(buf, marker, start, e);
    }
  }

  /** MateCORBA_marshal_object. */
  method MarshalObject(buf: Buffer, typeId: CStr, key: seq<Byte>, ps: seq<Profile>)
    requires buf.Valid()
    modifies buf
    ensures buf.Valid() && buf.headerSize == old(buf.headerSize) && Keeps(old(buf.marks), buf.marks)
    ensures Out(buf) == PutObject(old(Out(buf)), buf.order, typeId, key, ps)
  {
    hide Buffer.Valid, PutInt, PutString, PutProfileBody;
    MarshalString(buf, typeId);
    MarshalInt(buf, 4, |ps|);
    for i := 0 to |ps|
      invariant buf.Valid() && buf.headerSize == old(buf.headerSize) && Keeps(old(buf.marks), buf.marks)
      invariant PutProfiles(Out(buf), buf.order, key, ps[i..]) == PutObject(old(Out(buf)), buf.order, typeId, key, ps)
    {
      assert ps[i..][0] == ps[i] && ps[i..][1..] == ps[i + 1..];
      MarshalProfile(buf, key, ps[i]);
    }
    assert ps[|ps|..] == [];
  }
}

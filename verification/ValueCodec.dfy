/** MateCORBA_marshal_value and MateCORBA_demarshal_value as the ORB runs them: on buffers, with the block
    copies for sequences and arrays of octets, and the receiver's conversions. */
module ValueCodec {
  import opened Cdr
  import opened TypeCodes
  import opened SendBuffer
  import opened RecvBuffer
  import opened TypeCodeCodec
  import opened TypeCodeDecoder
  import opened TypeCodeEquality
  import opened Values

  /** The element kinds that are copied as a block; aliases are not looked through. */
  predicate BlockCopied(t: TypeCode) {
    t.Empty? && t.kind in {8, 9, 10}
  }

  /** The memory of a sequence or array of one-byte elements. */
  function RawBytes(t: TypeCode, vs: seq<Value>): (s: seq<Byte>)
    requires BlockCopied(t) && ElemsHaveType(t, vs)
    ensures |s| == |vs|
  {
    if vs == [] then []
    else
      OctetBits(t, vs[0]);
      [vs[0].bits] + RawBytes(t, vs[1..])
  }

  lemma OctetBits(t: TypeCode, v: Value)
    requires BlockCopied(t) && HasType(t, v)
    ensures v.Num? && v.bits < 256
  {
    Pow256Values();
  }

  /** Copying the block is marshalling its elements one by one. */
  lemma {:induction false} BlockCopy(t: TypeCode, vs: seq<Value>, out: seq<Cell>, o: Order)
    requires BlockCopied(t) && ElemsHaveType(t, vs)
    ensures MarshalElems(t, vs, out, o) == out + Cells(RawBytes(t, vs))
  {
    hide HasType, Marshal;
    if vs == [] {
      assert out + Cells([]) == out;
    } else {
      hide *;
      ElemsStep(t, vs, out, o);
      OctetBits(t, vs[0]);
      MarshalOctet(t, vs[0], out, o);
      BlockCopy(t, vs[1..], out + Cells([vs[0].bits]), o);
      CellsStep(vs[0].bits, RawBytes(t, vs[1..]), out);
    }
  }

  lemma ElemsStep(t: TypeCode, vs: seq<Value>, out: seq<Cell>, o: Order)
    requires BlockCopied(t) && ElemsHaveType(t, vs) && vs != []
    ensures HasType(t, vs[0]) && ElemsHaveType(t, vs[1..])
    ensures MarshalElems(t, vs, out, o) == MarshalElems(t, vs[1..], Marshal(t, vs[0], out, o), o)
    ensures vs[0].Num? && vs[0].bits < 256 && RawBytes(t, vs) == [vs[0].bits] + RawBytes(t, vs[1..])
  {
    hide HasType, Marshal;
    OctetBits(t, vs[0]);
  }

  lemma CellsStep(b: Byte, rest: seq<Byte>, out: seq<Cell>)
    ensures out + Cells([b]) + Cells(rest) == out + Cells([b] + rest)
  {
  }

  lemma MarshalOctet(t: TypeCode, v: Value, out: seq<Cell>, o: Order)
    requires BlockCopied(t) && HasType(t, v)
    ensures v.Num? && v.bits < 256 && Marshal(t, v, out, o) == out + Cells([v.bits])
  {
    OctetBits(t, v);
    PutOctet(out, o, v.bits);
  }

  lemma PutOctet(out: seq<Cell>, o: Order, b: Byte)
    ensures PutNum(out, o, 1, b) == out + Cells([b])
  {
    assert LowBytes(1, b) == [b];
    assert Reverse([b]) == [b];
    assert Align(|out|, 1) == |out|;
    assert out + Pads(0) == out;
  }

  // ----- the sender -----

  /** MateCORBA_marshal_value. */
  method MarshalValue(buf: Buffer, t: TypeCode, v: Value)
    requires buf.Valid() && HasType(t, v)
    modifies buf
    ensures buf.Valid() && buf.headerSize == old(buf.headerSize) && Keeps(old(buf.marks), buf.marks)
    ensures buf.out == Marshal(t, v, old(buf.out), buf.order)
    decreases v, 2
  {
    hide Buffer.Valid, Store, Pow256, PutInt, EncTC, WideBytes, PutString, UnionTag, SwitchValue;
    var x := Unalias(t);
    if PrimSize(x) > 0 {
      MarshalNum(buf, PrimSize(x), v.bits);
    } else if x.Union? {
      MarshalUnion(buf, x, v);
    } else if x.Record? {
      MarshalMemberValues(buf, x.members, v.vs);
    } else if x.Indexed? {
      if !x.fixedSize {
        buf.AlignTo(4);
        buf.AppendBytes(Store(buf.order, 4, |v.vs|));
        PutNumCells(old(buf.out), buf.order, 4, |v.vs|);
      }
      MarshalElements(buf, x.content, v.vs);
    } else if x.Str? {
      if x.wide {
        MarshalWide(buf, v.wstr);
      } else {
        buf.AppendString(v.str);
        StringCells(old(buf.out), buf.order, v.str);
      }
    } else if x.kind == 11 {
      EncodeTypeCode(v.tc, buf);
      MarshalValue(buf, v.tc, v.content);
    } else if x.kind == 12 {
      EncodeTypeCode(v.tc, buf);
    }
  }

  lemma StringCells(out: seq<Cell>, o: Order, s: CStr)
    ensures PutString(Enc(out, map[]), o, s).out
         == out + Pads(Align(|out|, 4) - |out|) + Cells(Store(o, 4, |s| + 1)) + Cells(s + [0])
  {
    hide Store;
  }

  lemma PutNumCells(out: seq<Cell>, o: Order, n: nat, v: nat)
    requires n > 0
    ensures PutNum(out, o, n, v) == out + Pads(Align(|out|, n) - |out|) + Cells(Store(o, n, v))
  {
  }

  /** giop_send_buffer_append_aligned, or a plain append for a single byte. */
  method MarshalNum(buf: Buffer, n: nat, bits: nat)
    requires buf.Valid() && n in {1, 2, 4, 8} && bits < Pow256(n)
    modifies buf
    ensures buf.Valid() && buf.headerSize == old(buf.headerSize) && Keeps(old(buf.marks), buf.marks)
    ensures buf.out == PutNum(old(buf.out), buf.order, n, bits)
  {
    hide Buffer.Valid, Store, Pow256, PutNum;
    if n == 1 {
      Pow256Values();
      PutOctet(buf.out, buf.order, bits);
      buf.AppendBytes([bits]);
    } else {
      PutNumCells(buf.out, buf.order, n, bits);
      var _ := buf.AppendAligned(Bytes(Store(buf.order, n, bits)), n);
    }
  }

  /** The byte order mark, and the characters as they are in memory. */
  method MarshalWide(buf: Buffer, ws: WStr)
    requires buf.Valid()
    modifies buf
    ensures buf.Valid() && buf.headerSize == old(buf.headerSize) && Keeps(old(buf.marks), buf.marks)
    ensures buf.out == PutNum(old(buf.out), buf.order, 4, 2 * (|ws| + 1))
                     + Cells(Store(buf.order, 2, 0xfeff)) + Cells(WideBytes(buf.order, ws))
  {
    hide Buffer.Valid, Store, PutNum, WideBytes;
    var ulval := (|ws| + 1) * 2;
    PutNumCells(buf.out, buf.order, 4, ulval);
    var _ := buf.AppendAligned(Bytes(Store(buf.order, 4, ulval)), 4);
    buf.AppendBytes(Store(buf.order, 2, 0xfeff));
    buf.AppendBytes(WideBytes(buf.order, ws));
  }

  method MarshalUnion(buf: Buffer, x: TypeCode, v: Value)
    requires buf.Valid() && x.Union? && HasType(x, v)
    modifies buf
    ensures buf.Valid() && buf.headerSize == old(buf.headerSize) && Keeps(old(buf.marks), buf.marks)
    ensures buf.out == Marshal(x, v, old(buf.out), buf.order)
    decreases v, 1
  {
    hide Buffer.Valid, UnionTag, SwitchValue;
    assert HasType(x.discriminator, v.disc) && PrimSize(Unalias(x.discriminator)) > 0;
    MarshalValue(buf, x.discriminator, v.disc);
    var subtc := UnionTag(x, SwitchValue(Unalias(x.discriminator), v.disc.bits));
    MarshalValue(buf, subtc.tc, v.body);
  }

  method MarshalMemberValues(buf: Buffer, ms: seq<Member>, vs: seq<Value>)
    requires buf.Valid() && MembersHaveType(ms, vs)
    modifies buf
    ensures buf.Valid() && buf.headerSize == old(buf.headerSize) && Keeps(old(buf.marks), buf.marks)
    ensures buf.out == MarshalMembers(ms, vs, old(buf.out), buf.order)
    decreases vs, 0
  {
    hide Buffer.Valid, Marshal, HasType;
    for i := 0 to |ms|
      invariant buf.Valid() && buf.headerSize == old(buf.headerSize) && Keeps(old(buf.marks), buf.marks)
      invariant MembersHaveType(ms[i..], vs[i..])
      invariant MarshalMembers(ms[i..], vs[i..], buf.out, buf.order) == MarshalMembers(ms, vs, old(buf.out), buf.order)
    {
      assert ms[i..][0] == ms[i] && ms[i..][1..] == ms[i + 1..];
      assert vs[i..][0] == vs[i] && vs[i..][1..] == vs[i + 1..];
      MarshalValue(buf, ms[i].tc, vs[i]);
    }
    assert vs[|ms|..] == [];
  }

  /** The elements of a sequence or array: a block copy, or a loop. */
  method MarshalElements(buf: Buffer, t: TypeCode, vs: seq<Value>)
    requires buf.Valid() && ElemsHaveType(t, vs) && (vs == [] ==> buf.numIndirectsUsed > 0)
    modifies buf
    ensures buf.Valid() && buf.headerSize == old(buf.headerSize) && Keeps(old(buf.marks), buf.marks)
    ensures buf.out == MarshalElems(t, vs, old(buf.out), buf.order)
    decreases vs, 0
  {
    hide Buffer.Valid, Marshal, HasType;
    if BlockCopied(t) {
      BlockCopy(t, vs, buf.out, buf.order);
      buf.AppendBytes(RawBytes(t, vs));
    } else {
      for i := 0 to |vs|
        invariant buf.Valid() && buf.headerSize == old(buf.headerSize) && Keeps(old(buf.marks), buf.marks)
        invariant ElemsHaveType(t, vs[i..])
        invariant MarshalElems(t, vs[i..], buf.out, buf.order) == MarshalElems(t, vs, old(buf.out), buf.order)
      {
        assert vs[i..][0] == vs[i] && vs[i..][1..] == vs[i + 1..];
        MarshalValue(buf, t, vs[i]);
      }
      assert vs[|vs|..] == [];
    }
  }

  // ----- the receiver -----

  /** giop_byteswap: two pointers that move towards the start of the result and the end of the data. */
  method GiopByteSwap(outdata: array<Byte>, data: seq<Byte>)
    requires outdata.Length == |data|
    modifies outdata
    ensures outdata[..] == Reverse(data)
  {
    var source := 0;
    var dest := outdata.Length;
    while dest > 0
      invariant 0 <= dest <= outdata.Length && source == outdata.Length - dest
      invariant forall i :: dest <= i < outdata.Length ==> outdata[i] == Reverse(data)[i]
    {
      dest := dest - 1;
      outdata[dest] := data[source];
      source := source + 1;
    }
  }

  lemma LoadReversed(native: Order, order: Order, s: seq<Byte>)
    requires native != order
    ensures Load(native, Reverse(s)) == Load(order, s)
  {
    ReverseTwice(s);
  }

  /** The floating point kinds: copied, or copied backwards. */
  method GetFloat(c: Input, n: nat) returns (err: bool, bits: nat)
    requires c.Valid() && n in {4, 8}
    modifies c
    ensures c.Valid() && c.cur >= old(c.cur)
    ensures Reports(GetInt(c.Window(), n, Dec(old(c.cur), map[], 0)), err, bits, Dec(c.cur, map[], 0))
  {
    hide Reverse, Load;
    c.cur := Align(c.cur, n);
    if c.cur + n > c.end {
      return true, 0;
    }
    var s := c.mem[c.cur..c.cur + n];
    if c.ConversionNeeded() {
      var a := new Byte[n];
      GiopByteSwap(a, s);
      LoadReversed(c.native, c.order, s);
      bits := Load(c.native, a[..]);
    } else {
      bits := Load(c.native, s);
    }
    c.cur := c.cur + n;
    err := false;
  }

  lemma LoadU16Is(o: Order, s: seq<Byte>)
    requires |s| == 2
    ensures Load(o, s) == LoadU16(o, s)
  {
    assert FromLow(s[1..]) == s[1];
    assert Reverse(s) == [s[1], s[0]] && FromLow(Reverse(s)[1..]) == s[0];
  }

  function OtherOrder(o: Order): Order {
    if o == LittleEndian then BigEndian else LittleEndian
  }

  /** A length kept in a signed variable, and that many bytes. */
  method GetBytes(c: Input) returns (err: bool, s: seq<Byte>)
    requires c.Valid()
    modifies c
    ensures c.Valid() && c.cur >= old(c.cur)
    ensures forall next :: Reports(GetBlock(c.Window(), Dec(old(c.cur), map[], next)), err, s, Dec(c.cur, map[], next))
  {
    hide GetInt;
    Pow256Values();
    var i;
    s := [];
    err, i := c.Get(4);
    assert forall next :: Reports(GetInt(c.Window(), 4, Dec(old(c.cur), map[], next)), err, i, Dec(c.cur, map[], next));
    if err || i >= 0x8000_0000 || c.cur + i > c.end {
      return true, s;
    }
    s := c.mem[c.cur..c.cur + i];
    c.cur := c.cur + i;
  }

  /** The wide string in a block: the mark is read as a native number, and the characters are copied or
      swapped. */
  method WideFromBlock(native: Order, s: seq<Byte>) returns (ws: WStr)
    requires |s| % 2 == 0
    ensures ws == WideString(s)
  {
    hide WideString, WideChars;
    var marker := 0;
    var n := |s|;
    if n >= 2 {
      marker := LoadU16(native, s[..2]);
      if marker != 0xfeff && marker != 0xfffe {
        marker := 0;
      } else {
        n := n - 2;
      }
    }
    if marker == 0 {
      marker := LoadU16(native, [0xfe, 0xff]);
    }
    MarkedOrder(native, s, n, marker);
    var chars;
    if marker == 0xfffe {
      chars := SwapChars(native, s[|s| - n..]);
    } else {
      chars := WideChars(native, s[|s| - n..]);
    }
    ws := UpToZero(chars);
  }

  lemma MarkedOrder(native: Order, s: seq<Byte>, n: nat, marker: nat)
    requires |s| % 2 == 0
    requires
      if |s| >= 2 && LoadU16(native, s[..2]) in {0xfeff, 0xfffe}
      then marker == LoadU16(native, s[..2]) && n == |s| - 2
      else marker == LoadU16(native, [0xfe, 0xff]) && n == |s|
    ensures WideString(s) == UpToZero(WideChars(if marker == 0xfffe then OtherOrder(native) else native, s[|s| - n..]))
  {
  }

  /** The loop that swaps every character. */
  method SwapChars(native: Order, s: seq<Byte>) returns (chars: seq<U16>)
    ensures chars == WideChars(OtherOrder(native), s)
  {
    hide Load, SwapBytes;
    chars := [];
    var k := 0;
    assert s[0..] == s;
    while |s| - k >= 2
      invariant k <= |s|
      invariant chars + WideChars(OtherOrder(native), s[k..]) == WideChars(OtherOrder(native), s)
    {
      var pair := s[k..k + 2];
      assert s[k..][..2] == pair && s[k..][2..] == s[k + 2..];
      LoadU16Is(native, pair);
      LoadU16Is(OtherOrder(native), pair);
      LoadSwapped(native, OtherOrder(native), pair);
      chars := chars + [SwapBytes(2, LoadU16(native, pair))];
      k := k + 2;
    }
  }

  /** MateCORBA_demarshal_value. New TypeCode objects get identities from `next` on. */
  method DemarshalValue(t: TypeCode, c: Input, next: nat) returns (err: bool, v: Value, next': nat)
    requires c.Valid() && c.body == 0
    modifies c
    ensures c.Valid() && c.cur >= old(c.cur)
    ensures Reports(Demarshal(c.Window(), t, Dec(old(c.cur), map[], next)), err, v, Dec(c.cur, map[], next'))
    decreases c.end - c.cur, t, 1
  {
    hide GetInt, GetTC, GetBlock, WideString, UnionTag, SwitchValue;
    ghost var w, st := c.Window(), Dec(c.cur, map[], next);
    v, next' := Nothing, next;
    var x := Unalias(t);
    if PrimSize(x) > 0 {
      var bits;
      err, bits := GetNum(x, c);
      assert Reports(GetInt(w, PrimSize(x), st), err, bits, Dec(c.cur, map[], next));
      v := Num(bits);
    } else if x.Record? {
      var vs;
      err, vs, next' := DemarshalMemberValues(x.members, c, next);
      v := Parts(vs);
    } else if x.Union? {
      err, v, next' := DemarshalUnionValue(x, c, next);
    } else if x.Indexed? {
      var count, vs := x.length, [];
      if !x.fixedSize {
        err, count := c.Get(4);
        assert Reports(GetInt(w, 4, st), err, count, Dec(c.cur, map[], next));
        if err {
          return;
        }
      }
      if x.fixedSize {
        err, vs, next' := DemarshalElementValues(x.content, count, c, next);
      } else {
        err, vs, next' := DemarshalSequence(x.content, count, c, next);
      }
      v := Parts(vs);
    } else if x.Str? {
      var s;
      err, s := GetBytes(c);
      assert Reports(GetBlock(w, st), err, s, Dec(c.cur, map[], next));
      if !err {
        if !x.wide {
          v := Text(CString(s));
        } else if |s| % 2 != 0 {
          err := true;
        } else {
          var ws := WideFromBlock(c.native, s);
          v := Wide(ws);
        }
      }
    } else if !x.Empty? {
      err := true;
    } else if x.kind in {0, 1} {
      err := false;
    } else if x.kind == 11 {
      var tc, content;
      err, tc, next' := GetTypeCode(c, next);
      if err {
        return;
      }
      err, content, next' := DemarshalValue(tc, c, next');
      v := AnyV(tc, content);
    } else if x.kind == 12 {
      var tc;
      err, tc, next' := GetTypeCode(c, next);
      v := TypeCodeV(tc);
    } else {
      err := true;
    }
  }

  method GetNum(x: TypeCode, c: Input) returns (err: bool, bits: nat)
    requires c.Valid() && PrimSize(x) > 0
    modifies c
    ensures c.Valid() && c.cur >= old(c.cur)
    ensures forall next :: Reports(GetInt(c.Window(), PrimSize(x), Dec(old(c.cur), map[], next)), err, bits, Dec(c.cur, map[], next))
  {
    hide Load;
    if x.Empty? && x.kind in {6, 7, 25} {
      err, bits := GetFloat(c, PrimSize(x));
      assert Reports(GetInt(c.Window(), PrimSize(x), Dec(old(c.cur), map[], 0)), err, bits, Dec(c.cur, map[], 0));
    } else {
      err, bits := c.Get(PrimSize(x));
    }
  }

  method GetTypeCode(c: Input, next: nat) returns (err: bool, tc: TypeCode, next': nat)
    requires c.Valid() && c.body == 0
    modifies c
    ensures c.Valid() && c.cur >= old(c.cur)
    ensures Reports(GetTC(c.Window(), Dec(old(c.cur), map[], next)), err, tc, Dec(c.cur, map[], next'))
  {
    hide DecTC;
    err, tc, next' := DecodeTypeCode(c, next);
  }

  method DemarshalUnionValue(x: TypeCode, c: Input, next: nat) returns (err: bool, v: Value, next': nat)
    requires c.Valid() && c.body == 0 && x.Union?
    modifies c
    ensures c.Valid() && c.cur >= old(c.cur)
    ensures Reports(Demarshal(c.Window(), x, Dec(old(c.cur), map[], next)), err, v, Dec(c.cur, map[], next'))
    decreases c.end - c.cur, x, 0
  {
    hide GetInt, GetTC, GetBlock, WideString, UnionTag, SwitchValue;
    var d, body;
    v := Nothing;
    err, d, next' := DemarshalValue(x.discriminator, c, next);
    if err {
      return;
    }
    var disc := Unalias(x.discriminator);
    if !SwitchType(disc) || !d.Num? {
      return true, v, next';
    }
    var sw := SwitchValue(disc, d.bits);
    var subtc := UnionTag(x, sw);
    if subtc.NoMember? {
      return true, v, next';
    }
    UnionTagPart(x, sw);
    err, body, next' := DemarshalValue(subtc.tc, c, next');
    v := UnionV(d, body);
  }

  method DemarshalMemberValues(ms: seq<Member>, c: Input, next: nat) returns (err: bool, vs: seq<Value>, next': nat)
    requires c.Valid() && c.body == 0
    modifies c
    ensures c.Valid() && c.cur >= old(c.cur)
    ensures Reports(DemarshalMembers(c.Window(), ms, Dec(old(c.cur), map[], next)), err, vs, Dec(c.cur, map[], next'))
    decreases c.end - c.cur, ms, 0
  {
    hide Demarshal;
    ghost var w, st := c.Window(), Dec(c.cur, map[], next);
    vs, next' := [], next;
    PrependNil(DemarshalMembers(w, ms, st));
    assert ms[0..] == ms;
    for i := 0 to |ms|
      invariant c.Valid() && c.cur >= old(c.cur) && (c.cur <= c.end || c.cur == old(c.cur))
      invariant DemarshalMembers(w, ms, st) == PrependAll(vs, DemarshalMembers(w, ms[i..], Dec(c.cur, map[], next')))
    {
      assert ms[i..][0] == ms[i] && ms[i..][1..] == ms[i + 1..];
      var v;
      err, v, next' := DemarshalValue(ms[i].tc, c, next');
      if err {
        return;
      }
      PrependMore(vs, v, DemarshalMembers(w, ms[i + 1..], Dec(c.cur, map[], next')));
      vs := vs + [v];
    }
    assert vs + [] == vs;
    err := false;
  }

  /** The values of a block of one-byte elements. */
  function BlockValues(s: seq<Byte>): (vs: seq<Value>)
    ensures |vs| == |s|
  {
    if s == [] then [] else [Num(s[0])] + BlockValues(s[1..])
  }

  /** Checking the end once and copying the block is demarshalling its elements one by one. */
  lemma {:induction false} BlockRead(w: Window, t: TypeCode, count: nat, st: Dec)
    requires BlockCopied(t)
    ensures DemarshalElems(w, t, count, st)
         == if count == 0 then Ok([], st)
            else if st.cur + count > w.end then Fail
            else Ok(BlockValues(w.mem[st.cur..st.cur + count]), st.(cur := st.cur + count))
    decreases count
  {
    hide *;
    ElemsRead(w, t, count, st);
    if count > 0 {
      OctetRead(w, t, st);
      if st.cur + 1 <= w.end {
        BlockRead(w, t, count - 1, st.(cur := st.cur + 1));
        if st.cur + count <= w.end {
          BlockSplit(w.mem, st.cur, count);
        }
      }
    }
  }

  /** One level of the element loop. */
  lemma ElemsRead(w: Window, t: TypeCode, count: nat, st: Dec)
    ensures count == 0 ==> DemarshalElems(w, t, count, st) == Ok([], st)
    ensures count > 0 && Demarshal(w, t, st).Fail? ==> DemarshalElems(w, t, count, st).Fail?
    ensures count > 0 && Demarshal(w, t, st).Ok? ==>
      var first := Demarshal(w, t, st);
      var rest := DemarshalElems(w, t, count - 1, first.st);
      DemarshalElems(w, t, count, st) == if rest.Fail? then Fail else Ok([first.value] + rest.value, rest.st)
  {
    hide Demarshal;
  }

  lemma BlockSplit(mem: seq<Byte>, at: nat, count: nat)
    requires count > 0 && at + count <= |mem|
    ensures BlockValues(mem[at..at + count])
         == [Num(mem[at])] + if count == 1 then [] else BlockValues(mem[at + 1..at + 1 + (count - 1)])
  {
    var s := mem[at..at + count];
    assert s[0] == mem[at] && s[1..] == mem[at + 1..at + count];
  }

  lemma OctetRead(w: Window, t: TypeCode, st: Dec)
    requires BlockCopied(t)
    ensures Demarshal(w, t, st) == if st.cur + 1 > w.end then Fail else Ok(Num(w.mem[st.cur]), st.(cur := st.cur + 1))
  {
    OneByte(w, st);
    hide GetInt;
  }

  lemma OneByte(w: Window, st: Dec)
    ensures GetInt(w, 1, st) == if st.cur + 1 > w.end then Fail else Ok(w.mem[st.cur], st.(cur := st.cur + 1))
  {
    AlignAligned(st.cur, 1);
    if st.cur + 1 <= w.end {
      var s := w.mem[st.cur..st.cur + 1];
      assert s == [w.mem[st.cur]] && Reverse(s) == s && FromLow(s[1..]) == 0;
    }
  }

  /** The elements of a sequence, with the block copy for octets, booleans and characters. */
  method DemarshalSequence(t: TypeCode, count: nat, c: Input, next: nat)
    returns (err: bool, vs: seq<Value>, next': nat)
    requires c.Valid() && c.body == 0
    modifies c
    ensures c.Valid() && c.cur >= old(c.cur)
    ensures Reports(DemarshalElems(c.Window(), t, count, Dec(old(c.cur), map[], next)), err, vs, Dec(c.cur, map[], next'))
    decreases c.end - c.cur, t, 3
  {
    if count > 0 && BlockCopied(t) {
      hide DemarshalElems;
      BlockRead(c.Window(), t, count, Dec(c.cur, map[], next));
      next' := next;
      if c.cur + count > c.end {
        return true, [], next';
      }
      vs := BlockValues(c.mem[c.cur..c.cur + count]);
      c.cur := c.cur + count;
      err := false;
    } else {
      err, vs, next' := DemarshalElementValues(t, count, c, next);
    }
  }

  method DemarshalElementValues(t: TypeCode, count: nat, c: Input, next: nat)
    returns (err: bool, vs: seq<Value>, next': nat)
    requires c.Valid() && c.body == 0
    modifies c
    ensures c.Valid() && c.cur >= old(c.cur)
    ensures Reports(DemarshalElems(c.Window(), t, count, Dec(old(c.cur), map[], next)), err, vs, Dec(c.cur, map[], next'))
    decreases c.end - c.cur, t, 2
  {
    hide Demarshal;
    ghost var w, st := c.Window(), Dec(c.cur, map[], next);
    vs, next' := [], next;
    PrependNil(DemarshalElems(w, t, count, st));
    for i := 0 to count
      invariant c.Valid() && c.cur >= old(c.cur) && (c.cur <= c.end || c.cur == old(c.cur))
      invariant DemarshalElems(w, t, count, st) == PrependAll(vs, DemarshalElems(w, t, count - i, Dec(c.cur, map[], next')))
    {
      var v;
      err, v, next' := DemarshalValue(t, c, next');
      if err {
        return;
      }
      PrependMore(vs, v, DemarshalElems(w, t, count - i - 1, Dec(c.cur, map[], next')));
      vs := vs + [v];
    }
    assert vs + [] == vs;
    err := false;
  }
}

/** tc_enc and tc_dec as the ORB runs them: on a send buffer, a receive buffer, and the lists of
    TypeCodes met so far. */
module TypeCodeCodec {
  import opened Cdr
  import opened TypeCodes
  import opened SendBuffer

  /** `index` is the size field's value when the TypeCode was started. */
  datatype RecursionNode = RecursionNode(tc: TypeCode, index: nat)

  class EncodeContext {
    var prior: seq<RecursionNode>   // newest first

    constructor ()
      ensures prior == []
    {
      prior := [];
    }
  }

  /** The first entry for an object counts. */
  ghost function PriorMap(prior: seq<RecursionNode>, headerSize: nat): map<nat, nat> {
    if prior == [] || prior[0].tc.Empty? then map[]
    else PriorMap(prior[1..], headerSize)[prior[0].tc.id := prior[0].index + headerSize]
  }

  ghost predicate PriorOk(prior: seq<RecursionNode>) {
    forall i :: 0 <= i < |prior| ==> !prior[i].tc.Empty?
  }

  ghost function View(buf: Buffer, ctx: EncodeContext): Enc
    reads buf, ctx
  {
    Enc(buf.out, PriorMap(ctx.prior, buf.headerSize))
  }

  ghost predicate Keeps(marks: map<nat, nat>, marks': map<nat, nat>) {
    forall a :: a in marks ==> a in marks' && marks'[a] == marks[a]
  }

  /** The search for a TypeCode among those met so far, by pointer. */
  method Lookup(prior: seq<RecursionNode>, id: nat, ghost headerSize: nat) returns (found: bool, index: nat)
    requires PriorOk(prior)
    ensures found <==> id in PriorMap(prior, headerSize)
    ensures found ==> index + headerSize == PriorMap(prior, headerSize)[id]
  {
    var k := 0;
    while k < |prior|
      invariant k <= |prior|
      invariant id in PriorMap(prior, headerSize) <==> id in PriorMap(prior[k..], headerSize)
      invariant id in PriorMap(prior, headerSize) ==>
        PriorMap(prior, headerSize)[id] == PriorMap(prior[k..], headerSize)[id]
    {
      assert prior[k..][1..] == prior[k + 1..];
      if prior[k].tc.id == id {
        return true, prior[k].index;
      }
      k := k + 1;
    }
    found, index := false, 0;
  }

  /** CDR_put_ulong and its relatives. */
  method CdrPut(buf: Buffer, n: nat, v: int)
    requires buf.Valid() && n in {1, 2, 4, 8}
    modifies buf
    ensures buf.Valid() && buf.headerSize == old(buf.headerSize) && buf.marks == old(buf.marks)
    ensures forall prior :: PutInt(Enc(old(buf.out), prior), buf.order, n, v) == Enc(buf.out, prior)
  {
    hide Buffer.Valid, LowBytes;
    buf.AlignTo(n);
    buf.AppendBytes(Store(buf.order, n, v));
  }

  method CdrPutString(buf: Buffer, s: CStr)
    requires buf.Valid()
    modifies buf
    ensures buf.Valid() && buf.headerSize == old(buf.headerSize) && buf.marks == old(buf.marks)
    ensures forall prior :: PutString(Enc(old(buf.out), prior), buf.order, s) == Enc(buf.out, prior)
  {
    hide Buffer.Valid, LowBytes;
    buf.AppendString(s);
  }

  /** One level of EncTC, with the alignment done once. */
  lemma EncTCIs(tc: TypeCode, e: Enc, o: Order)
    ensures EncTC(tc, e, o)
         == var e0 := AlignTo(e, 4);
            if tc.Empty? then Append(e0, Store(o, 4, tc.kind))
            else if tc.id in e.prior then
              var e1 := AlignTo(Append(e0, Store(o, 4, TK_RECURSIVE)), 4);
              Append(e1, Store(o, 4, e.prior[tc.id] - |e1.out| - 4))
            else EncParams(tc, Append(e0.(prior := e.prior[tc.id := |e0.out|]), Store(o, 4, KindOf(tc))), o)
  {
    hide *;
    hide Store;
    PutAligned(e, e.prior, o, if tc.Empty? then tc.kind else TK_RECURSIVE);
    if tc.Empty? {
      EncTCEmpty(tc, e, o);
    } else if tc.id in e.prior {
      EncTCAgain(tc, e, o);
      PutAgain(e, o, Append(AlignTo(e, 4), Store(o, 4, TK_RECURSIVE)), e.prior[tc.id]);
    } else {
      EncTCNew(tc, e, o);
      PutAligned(e, e.prior[tc.id := |AlignTo(e, 4).out|], o, KindOf(tc));
    }
  }

  lemma PutAligned(e: Enc, prior: map<nat, nat>, o: Order, v: int)
    ensures PutInt(AlignTo(e, 4).(prior := prior), o, 4, v) == Append(AlignTo(e, 4).(prior := prior), Store(o, 4, v))
    ensures AlignTo(e, 4).(prior := e.prior) == AlignTo(e, 4)
  {
    hide Store;
    AlignTwice(e, 4);
    var e0 := AlignTo(e, 4).(prior := prior);
    assert AlignTo(e0, 4).out == e0.out;
  }

  lemma PutAgain(e: Enc, o: Order, e1: Enc, index: nat)
    requires |e1.out| == |AlignTo(e, 4).out| + 4
    ensures AlignTo(e1, 4) == e1
    ensures PutInt(e1, o, 4, index - |e1.out| - 4) == Append(e1, Store(o, 4, index - |e1.out| - 4))
  {
    hide Store;
    var p := Align(|e.out|, 4);
    assert p % 4 == 0 && Align(p + 4, 4) == p + 4;
    assert Pads(0) == [];
  }

  /** The indirection to a TypeCode that was started when the size field was `index`. */
  method PutIndirection(buf: Buffer, index: nat)
    requires buf.Valid() && Align(|buf.out|, 4) == |buf.out|
    modifies buf
    ensures buf.Valid() && buf.headerSize == old(buf.headerSize) && Keeps(old(buf.marks), buf.marks)
    ensures
      var out1 := old(buf.out) + Cells(Store(buf.order, 4, TK_RECURSIVE));
      var out2 := out1 + Pads(Align(|out1|, 4) - |out1|);
      buf.out == out2 + Cells(Store(buf.order, 4, index + buf.headerSize - |out2| - 4))
  {
    hide Buffer.Valid, Store, Align;
    assert Pads(0) == [];
    var _ := buf.AppendAligned(Bytes(Store(buf.order, 4, TK_RECURSIVE)), 4);
    AlignFour(old(|buf.out|));
    var size := buf.Size();
    var len := index as int - size as int - 4;
    var _ := buf.AppendAligned(Bytes(Store(buf.order, 4, len)), 4);
  }

  lemma AlignFour(n: nat)
    requires Align(n, 4) == n
    ensures Align(n + 4, 4) == n + 4
  {
  }

  /** tc_enc. */
  method TcEnc(tc: TypeCode, buf: Buffer, ctx: EncodeContext)
    requires buf.Valid() && PriorOk(ctx.prior)
    modifies buf, ctx
    ensures buf.Valid() && buf.headerSize == old(buf.headerSize) && Keeps(old(buf.marks), buf.marks) && PriorOk(ctx.prior)
    ensures View(buf, ctx) == EncTC(tc, old(View(buf, ctx)), buf.order)
    decreases tc, 2, 0
  {
    hide Buffer.Valid, Store, EncParams, EncTC, Align;
    ghost var e := View(buf, ctx);
    EncTCIs(tc, e, buf.order);
    buf.AlignTo(4);
    assert View(buf, ctx) == AlignTo(e, 4);
    if !tc.Empty? {
      var found, index := Lookup(ctx.prior, tc.id, buf.headerSize);
      if found {
        PutIndirection(buf, index);
        return;
      }
      var size := buf.Size();
      ctx.prior := [RecursionNode(tc, size)] + ctx.prior;
      assert ctx.prior[1..] == old(ctx.prior);
    }
    buf.AppendBytes(Store(buf.order, 4, KindOf(tc)));
    if !tc.Empty? {
      TcEncParams(tc, buf, ctx);
    }
  }

  /** The simple parameters, or the encapsulation with its length filled in at the end. */
  method TcEncParams(tc: TypeCode, buf: Buffer, ctx: EncodeContext)
    requires buf.Valid() && PriorOk(ctx.prior) && !tc.Empty?
    modifies buf, ctx
    ensures buf.Valid() && buf.headerSize == old(buf.headerSize) && Keeps(old(buf.marks), buf.marks) && PriorOk(ctx.prior)
    ensures View(buf, ctx) == EncParams(tc, old(View(buf, ctx)), buf.order)
    decreases tc, 1, 0
  {
    hide Buffer.Valid, LowBytes, EncBody, OpenEncaps, PutInt;
    if tc.Str? {
      CdrPut(buf, 4, tc.length);
    } else if tc.Fixed? {
      CdrPut(buf, 2, tc.digits);
      CdrPut(buf, 2, tc.scale);
    } else {
      TcEncEncaps(tc, buf, ctx);
    }
  }

  lemma OpenEncapsCells(e: Enc, o: Order)
    ensures OpenEncaps(e, o)
         == e.(out := e.out + Pads(Align(|e.out|, 4) - |e.out|) + Pads(4) + Cells([OrderFlag(o)]))
  {
  }

  lemma EncapsStep(tc: TypeCode, e: Enc, e3: Enc, o: Order)
    requires !tc.Empty? && !tc.Str? && !tc.Fixed? && e3 == EncBody(tc, OpenEncaps(e, o), o)
    ensures
      var marker := Align(|e.out|, 4);
      var len := Cells(Store(o, 4, |e3.out| - (marker + 4)));
      && marker + 4 < |e3.out|
      && EncParams(tc, e, o) == e3.(out := e3.out[..marker] + len + e3.out[marker + 4..])
  {
    hide EncBody, Store, OpenEncaps, Align, EncTC, PutInt;
  }

  /** The TK_COMPLEX case. */
  method TcEncEncaps(tc: TypeCode, buf: Buffer, ctx: EncodeContext)
    requires buf.Valid() && PriorOk(ctx.prior) && !tc.Empty? && !tc.Str? && !tc.Fixed?
    modifies buf, ctx
    ensures buf.Valid() && buf.headerSize == old(buf.headerSize) && Keeps(old(buf.marks), buf.marks) && PriorOk(ctx.prior)
    ensures View(buf, ctx) == EncParams(tc, old(View(buf, ctx)), buf.order)
    decreases tc, 0, 1
  {
    hide Buffer.Valid, Store, EncBody, EncParams, OpenEncaps, PriorMap, PriorOk, Align;
    ghost var e := View(buf, ctx);
    var marker := buf.AppendAligned(Null, 4);
    var tmp := buf.Size();
    buf.AppendBytes([OrderFlag(buf.order)]);
    OpenEncapsCells(e, buf.order);
    TcEncBody(tc, buf, ctx);
    EncapsStep(tc, e, View(buf, ctx), buf.order);
    var size := buf.Size();
    buf.FillIn(marker, Store(buf.order, 4, size - tmp));
  }

  /** tc_enc_tk_objref, _struct, _union, _enum, _sequence, _array, _alias and _except. */
  method TcEncBody(tc: TypeCode, buf: Buffer, ctx: EncodeContext)
    requires buf.Valid() && PriorOk(ctx.prior) && !tc.Empty? && !tc.Str? && !tc.Fixed?
    modifies buf, ctx
    ensures buf.Valid() && buf.headerSize == old(buf.headerSize) && Keeps(old(buf.marks), buf.marks) && PriorOk(ctx.prior)
    ensures View(buf, ctx) == EncBody(tc, old(View(buf, ctx)), buf.order)
    decreases tc, 0, 0
  {
    hide Buffer.Valid, LowBytes, EncTC, EncMembers, PutNames;
    if tc.Indexed? {
      TcEnc(tc.content, buf, ctx);
      CdrPut(buf, 4, tc.length);
    } else {
      CdrPutString(buf, tc.repoId);
      CdrPutString(buf, tc.name);
      if tc.Record? {
        CdrPut(buf, 4, |tc.members|);
        TcEncMembers(tc.members, buf, ctx, 0);
      } else if tc.Union? {
        TcEnc(tc.discriminator, buf, ctx);
        CdrPut(buf, 4, tc.defaultIndex);
        CdrPut(buf, 4, |tc.members|);
        TcEncMembers(tc.members, buf, ctx, KindOf(tc.discriminator));
      } else if tc.Enum? {
        CdrPut(buf, 4, |tc.names|);
        TcEncNames(tc.names, buf, ctx);
      } else if tc.Alias? {
        TcEnc(tc.content, buf, ctx);
      }
    }
  }

  /** The member loops of structures, exceptions and unions. */
  method TcEncMembers(members: seq<Member>, buf: Buffer, ctx: EncodeContext, labelKind: U32)
    requires buf.Valid() && PriorOk(ctx.prior)
    modifies buf, ctx
    ensures buf.Valid() && buf.headerSize == old(buf.headerSize) && Keeps(old(buf.marks), buf.marks) && PriorOk(ctx.prior)
    ensures View(buf, ctx) == EncMembers(members, old(View(buf, ctx)), buf.order, labelKind)
    decreases members, 0, 0
  {
    hide Buffer.Valid, LowBytes, EncTC, PutString, PutInt;
    for i := 0 to |members|
      invariant buf.Valid() && buf.headerSize == old(buf.headerSize) && Keeps(old(buf.marks), buf.marks) && PriorOk(ctx.prior)
      invariant EncMembers(members[i..], View(buf, ctx), buf.order, labelKind)
             == EncMembers(members, old(View(buf, ctx)), buf.order, labelKind)
    {
      assert members[i..][0] == members[i] && members[i..][1..] == members[i + 1..];
      if labelKind != 0 {
        CdrPut(buf, LabelSize(labelKind), members[i].tag);
      }
      CdrPutString(buf, members[i].name);
      TcEnc(members[i].tc, buf, ctx);
    }
    assert members[|members|..] == [];
  }

  method TcEncNames(names: seq<CStr>, buf: Buffer, ctx: EncodeContext)
    requires buf.Valid()
    modifies buf
    ensures buf.Valid() && buf.headerSize == old(buf.headerSize) && Keeps(old(buf.marks), buf.marks)
    ensures View(buf, ctx) == PutNames(old(View(buf, ctx)), buf.order, names)
  {
    hide Buffer.Valid, LowBytes, PutString;
    for i := 0 to |names|
      invariant buf.Valid() && buf.headerSize == old(buf.headerSize) && Keeps(old(buf.marks), buf.marks)
      invariant PutNames(View(buf, ctx), buf.order, names[i..]) == PutNames(old(View(buf, ctx)), buf.order, names)
    {
      assert names[i..][0] == names[i] && names[i..][1..] == names[i + 1..];
      CdrPutString(buf, names[i]);
    }
    assert names[|names|..] == [];
  }

  /** MateCORBA_encode_CORBA_TypeCode. */
  method EncodeTypeCode(tc: TypeCode, buf: Buffer)
    requires buf.Valid()
    modifies buf
    ensures buf.Valid() && buf.headerSize == old(buf.headerSize) && Keeps(old(buf.marks), buf.marks)
    ensures buf.out == EncTC(tc, Enc(old(buf.out), map[]), buf.order).out
  {
    var ctx := new EncodeContext();
    TcEnc(tc, buf, ctx);
  }
}

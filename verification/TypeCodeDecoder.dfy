/** tc_dec as the ORB runs it: on receive buffers, one for each encapsulation, and the list of TypeCodes
    completed so far. */
module TypeCodeDecoder {
  import opened Cdr
  import opened TypeCodes
  import opened RecvBuffer

  /** `index` is where the kind of `tc` was, from the start of the top-level buffer. */
  datatype DecodedNode = DecodedNode(tc: TypeCode, index: nat)

  class DecodeContext {
    var prior: seq<DecodedNode>   // newest first
    var currentIdx: nat           // where the current buffer starts in the top-level one
    var next: nat                 // the identity of the next allocated TypeCode

    constructor (next: nat)
      ensures prior == [] && currentIdx == 0 && this.next == next
    {
      prior, currentIdx, this.next := [], 0, next;
    }
  }

  /** The newest entry for a position counts. */
  ghost function PriorMap(prior: seq<DecodedNode>): map<nat, TypeCode> {
    if prior == [] then map[] else PriorMap(prior[1..])[prior[0].index := prior[0].tc]
  }

  ghost function View(c: Input, ctx: DecodeContext): Dec
    reads c, ctx
  {
    Dec(c.cur, PriorMap(ctx.prior), ctx.next)
  }

  /** The context's idea of where the buffer is agrees with where it is. */
  ghost predicate Consistent(c: Input, ctx: DecodeContext)
    reads c, ctx
  {
    c.Valid() && ctx.currentIdx == c.body && forall i :: 0 <= i < |ctx.prior| ==> ctx.prior[i].index < 0x1_0000_0000
  }

  /** get_rptr. */
  function ReadPtr(c: Input): nat
    requires c.body <= c.cur
    reads c
  {
    c.cur - c.body
  }

  function Mod32(x: int): nat {
    x % 0x1_0000_0000
  }

  /** The comparison of an offset with a registered position. With 32-bit pointers all of it is modulo 2^32;
      with 64-bit ones the two indices are subtracted as 32-bit unsigned numbers, and the rest of the
      subtraction has no wrap-around. */
  predicate Matches(wide: bool, offset: nat, index: nat, currentIdx: nat, rptr: nat) {
    if wide then Signed32(offset) == Mod32(index - currentIdx) - rptr else offset == Mod32(index - currentIdx - rptr)
  }

  /** It finds the position that the offset points to modulo 2^32, if it is allowed to. */
  lemma MatchesTarget(w: Window, offset: nat, index: nat, cur: nat)
    requires index < 0x1_0000_0000 && offset < 0x1_0000_0000 && w.body <= cur < 0x1_0000_0000
    ensures Matches(w.wide, offset, index, w.body, cur - w.body)
      <==> index == Mod32(cur + offset) && Reaches(w, cur, offset)
  {
    assert Mod32(cur + offset) == if cur + offset < 0x1_0000_0000 then cur + offset else cur + offset - 0x1_0000_0000;
    if w.wide {
      assert Mod32(index - w.body) == if index >= w.body then index - w.body else index - w.body + 0x1_0000_0000;
      assert Signed32(offset) == if offset < 0x8000_0000 then offset else offset - 0x1_0000_0000;
    } else {
      assert Mod32(index - cur) == if index >= cur then index - cur else index - cur + 0x1_0000_0000;
    }
  }

  /** The search for the TypeCode that an indirection refers to. */
  method Find(prior: seq<DecodedNode>, currentIdx: nat, offset: nat, c: Input) returns (found: bool, tc: TypeCode)
    requires c.Valid() && currentIdx == c.body && forall i :: 0 <= i < |prior| ==> prior[i].index < 0x1_0000_0000
    requires offset < 0x1_0000_0000 && c.cur < 0x1_0000_0000
    ensures found <==> Mod32(c.cur + offset) in PriorMap(prior) && Reaches(c.Window(), c.cur, offset)
    ensures found ==> tc == PriorMap(prior)[Mod32(c.cur + offset)]
  {
    hide Reaches, Matches;
    var rptr := ReadPtr(c);
    ghost var target := Mod32(c.cur + offset);
    var k := 0;
    while k < |prior|
      invariant k <= |prior|
      invariant target in PriorMap(prior) && Reaches(c.Window(), c.cur, offset)
           <==> target in PriorMap(prior[k..]) && Reaches(c.Window(), c.cur, offset)
      invariant target in PriorMap(prior) && Reaches(c.Window(), c.cur, offset) ==>
        PriorMap(prior)[target] == PriorMap(prior[k..])[target]
    {
      assert prior[k..][1..] == prior[k + 1..];
      MatchesTarget(c.Window(), offset, prior[k].index, c.cur);
      if Matches(c.wide, offset, prior[k].index, currentIdx, rptr) {
        return true, prior[k].tc;
      }
      k := k + 1;
    }
    found, tc := false, Empty(0);
  }

  /** What a decoding method reports: the function's result, with the buffer and context as its new state. */
  ghost predicate Reports<T>(r: Parsed<T>, err: bool, value: T, st: Dec) {
    if err then r.Fail? else r == Ok(value, st)
  }

  /** What follows the kind of a TypeCode that is neither an indirection nor empty. */
  ghost function DecParams(w: Window, kind: U32, s1: Dec): Parsed<TypeCode>
    requires !EmptyKind(kind)
  {
    if kind == TK_STRING || kind == TK_WSTRING then
      var (length, s2) :- GetInt(w, 4, s1);
      if length >= 0x1_0000_0000 then Fail
      else Ok(Str(s1.next, kind == TK_WSTRING, length), s2.(next := s1.next + 1))
    else if kind == TK_FIXED then
      var (digits, s2) :- GetInt(w, 2, s1);
      var (scale, s3) :- GetInt(w, 2, s2);
      if digits >= 0x1_0000 || scale >= 0x1_0000 then Fail
      else Ok(Fixed(s1.next, digits, Signed16(scale)), s3.(next := s1.next + 1))
    else if ComplexKind(kind) then DecEncaps(w, kind, s1)
    else Fail
  }

  ghost function DecEncaps(w: Window, kind: U32, s1: Dec): Parsed<TypeCode>
    requires ComplexKind(kind)
  {
    var (len, s2) :- GetInt(w, 4, s1);
    if len == 0 || s2.cur + len > w.end then Fail
    else
      var encaps := Win(w.mem, s2.cur + len, FlagOrder(w.mem[s2.cur]), s2.cur, w.wide);
      var (t, s3) :- DecBody(encaps, kind, s1.next, s2.(cur := s2.cur + 1, next := s1.next + 1));
      Ok(t, s3.(cur := s2.cur + len))
  }

  function Signed16(x: U16): I16 {
    if x < 0x8000 then x else x - 0x1_0000
  }

  lemma DecTCParams(w: Window, st: Dec, kind: U32, s1: Dec)
    requires GetInt(w, 4, st) == Ok(kind, s1) && kind < TK_LAST && !EmptyKind(kind)
    ensures DecTC(w, st) ==
      match DecParams(w, kind, s1)
      case Fail => Fail
      case Ok(t, s) => Ok(t, Register(s, s1.cur - 4, t))
  {
    hide DecBody, GetInt, FlagOrder, ComplexKind, Register;
  }

  /** tc_dec. */
  method TcDec(c: Input, ctx: DecodeContext) returns (err: bool, t: TypeCode)
    requires Consistent(c, ctx)
    modifies c, ctx
    ensures Consistent(c, ctx) && c.cur >= old(c.cur) && ctx.currentIdx == old(ctx.currentIdx)
    ensures Reports(DecTC(c.Window(), old(View(c, ctx))), err, t, View(c, ctx))
    decreases c.end - c.cur, 0, 0
  {
    hide DecBody, DecParams, GetInt, GetString;
    Pow256Values();
    ghost var st := View(c, ctx);
    var lkind, offset, found;
    err, lkind := c.Get(4);
    ghost var s1 := View(c, ctx);
    assert Reports(GetInt(c.Window(), 4, st), err, lkind, s1);
    t := Empty(0);
    if err {
      return;
    }
    if lkind >= TK_LAST {
      if lkind != TK_RECURSIVE {
        return true, t;
      }
      err, offset := c.Get(4);
      assert Reports(GetInt(c.Window(), 4, s1), err, offset, View(c, ctx));
      if err {
        return;
      }
      found, t := Find(ctx.prior, ctx.currentIdx, offset, c);
      return !found, t;
    }
    var index := ctx.currentIdx + ReadPtr(c) - 4;
    if EmptyKind(lkind) {
      t := Empty(lkind);
    } else {
      DecTCParams(c.Window(), st, lkind, s1);
      err, t := TcDecParams(c, ctx, lkind);
      if err {
        return;
      }
    }
    ghost var before := ctx.prior;
    ctx.prior := [DecodedNode(t, index)] + ctx.prior;
    assert ctx.prior[1..] == before;
  }

  /** The TK_SIMPLE and TK_COMPLEX cases; the new TypeCode gets its identity first. */
  method TcDecParams(c: Input, ctx: DecodeContext, kind: U32) returns (err: bool, t: TypeCode)
    requires Consistent(c, ctx) && !EmptyKind(kind) && c.cur % 4 == 0
    modifies c, ctx
    ensures Consistent(c, ctx) && c.cur >= old(c.cur) && ctx.currentIdx == old(ctx.currentIdx)
    ensures Reports(DecParams(c.Window(), kind, old(View(c, ctx))), err, t, View(c, ctx))
    decreases c.end - c.cur, 2, 0
  {
    hide DecEncaps, GetInt;
    Pow256Values();
    ghost var st := View(c, ctx);
    var id := ctx.next;
    t := Empty(0);
    if kind == TK_STRING || kind == TK_WSTRING {
      var length;
      err, length := c.Get(4);
      assert Reports(GetInt(c.Window(), 4, st), err, length, View(c, ctx));
      if !err {
        t := Str(id, kind == TK_WSTRING, length);
        ctx.next := id + 1;
      }
    } else if kind == TK_FIXED {
      var digits, scale;
      err, digits := c.Get(2);
      ghost var s2 := View(c, ctx);
      assert Reports(GetInt(c.Window(), 2, st), err, digits, s2);
      if err {
        return;
      }
      err, scale := c.Get(2);
      assert Reports(GetInt(c.Window(), 2, s2), err, scale, View(c, ctx));
      if !err {
        t := Fixed(id, digits, Signed16(scale));
        ctx.next := id + 1;
      }
    } else if ComplexKind(kind) {
      err, t := TcDecEncaps(c, ctx, kind);
    } else {
      err := true;
    }
  }

  /** giop_recv_buffer_use_encaps_buf, the kind's own decoder, and the way back. */
  method TcDecEncaps(c: Input, ctx: DecodeContext, kind: U32) returns (err: bool, t: TypeCode)
    requires Consistent(c, ctx) && ComplexKind(kind) && c.cur % 4 == 0
    modifies c, ctx
    ensures Consistent(c, ctx) && c.cur >= old(c.cur) && ctx.currentIdx == old(ctx.currentIdx)
    ensures Reports(DecEncaps(c.Window(), kind, old(View(c, ctx))), err, t, View(c, ctx))
    decreases c.end - c.cur, 1, 0
  {
    hide DecBody, Load;
    Pow256Values();
    ghost var st := View(c, ctx);
    assert Align(c.cur, 4) == c.cur;
    t := Empty(0);
    var id := ctx.next;
    ctx.next := id + 1;
    var tmpIndex := ctx.currentIdx;
    ctx.currentIdx := ctx.currentIdx + ReadPtr(c) + 4;
    var len;
    err, len := c.Get(4);
    assert Reports(GetInt(c.Window(), 4, st), err, len, View(c, ctx).(next := id));
    if err || len == 0 || c.cur + len > c.end {
      ctx.currentIdx := tmpIndex;
      return true, t;
    }
    var ptr := c.cur;
    c.cur := c.cur + len;
    var encaps := new Input(c.mem, ptr, ptr + 1, ptr + len, FlagOrder(c.mem[ptr]), c.native, c.wide);
    err, t := TcDecBody(encaps, ctx, kind, id);
    ctx.currentIdx := tmpIndex;
  }

  lemma DecBodyRest(w: Window, kind: U32, id: nat, st: Dec, repoId: CStr, name: CStr, s1: Dec, s2: Dec)
    requires ComplexKind(kind) && kind != TK_SEQUENCE && kind != TK_ARRAY
    requires GetString(w, st) == Ok(repoId, s1) && GetString(w, s1) == Ok(name, s2)
    ensures DecBody(w, kind, id, st) == DecRest(w, kind, id, repoId, name, s2)
  {
    hide DecTC, DecRest, GetString;
  }

  /** tc_dec_tk_sequence and _array, and the repository id and name of the other kinds. */
  method TcDecBody(c: Input, ctx: DecodeContext, kind: U32, id: nat) returns (err: bool, t: TypeCode)
    requires Consistent(c, ctx) && ComplexKind(kind)
    modifies c, ctx
    ensures Consistent(c, ctx) && c.cur >= old(c.cur) && ctx.currentIdx == old(ctx.currentIdx)
    ensures Reports(DecBody(c.Window(), kind, id, old(View(c, ctx))), err, t, View(c, ctx))
    decreases c.end - c.cur, 1, 0
  {
    hide DecTC, DecRest, GetInt, GetString;
    Pow256Values();
    ghost var w, st := c.Window(), View(c, ctx);
    if kind == TK_SEQUENCE || kind == TK_ARRAY {
      var content, length;
      err, content := TcDec(c, ctx);
      t := content;
      if !err {
        ghost var s1 := View(c, ctx);
        err, length := c.Get(4);
        assert Reports(GetInt(w, 4, s1), err, length, View(c, ctx));
        if !err {
          t := Indexed(id, kind == TK_ARRAY, content, length);
        }
      }
      return;
    }
    var repoId, name;
    t := Empty(0);
    err, repoId := c.GetStr();
    ghost var s1 := View(c, ctx);
    assert Reports(GetString(w, st), err, repoId, s1);
    if err {
      return;
    }
    err, name := c.GetStr();
    assert Reports(GetString(w, s1), err, name, View(c, ctx));
    if err {
      return;
    }
    DecBodyRest(w, kind, id, st, repoId, name, s1, View(c, ctx));
    err, t := TcDecRest(c, ctx, kind, id, repoId, name);
  }

  /** tc_dec_tk_objref, _struct, _union, _enum, _alias and _except after the name. */
  method TcDecRest(c: Input, ctx: DecodeContext, kind: U32, id: nat, repoId: CStr, name: CStr)
    returns (err: bool, t: TypeCode)
    requires Consistent(c, ctx) && ComplexKind(kind) && kind != TK_SEQUENCE && kind != TK_ARRAY
    modifies c, ctx
    ensures Consistent(c, ctx) && c.cur >= old(c.cur) && ctx.currentIdx == old(ctx.currentIdx)
    ensures Reports(DecRest(c.Window(), kind, id, repoId, name, old(View(c, ctx))), err, t, View(c, ctx))
    decreases c.end - c.cur, 1, 0
  {
    hide DecTC, DecMembers, GetNames, GetInt, LabelKind;
    Pow256Values();
    ghost var w, st := c.Window(), View(c, ctx);
    t := Empty(0);
    if kind == TK_OBJREF {
      return false, ObjRef(id, repoId, name);
    } else if kind == TK_ALIAS {
      err, t := TcDec(c, ctx);
      t := Alias(id, repoId, name, t);
    } else if kind == TK_UNION {
      err, t := TcDecUnion(c, ctx, id, repoId, name);
    } else {
      var count, members, names;
      err, count := c.Get(4);
      assert Reports(GetInt(w, 4, st), err, count, View(c, ctx));
      if err {
        return;
      }
      if kind == TK_ENUM {
        err, names := TcDecNames(c, ctx, count);
        t := Enum(id, repoId, name, names);
      } else {
        err, members := TcDecMembers(c, ctx, count, 0);
        t := Record(id, kind == TK_EXCEPT, repoId, name, members);
      }
    }
  }

  method TcDecUnion(c: Input, ctx: DecodeContext, id: nat, repoId: CStr, name: CStr) returns (err: bool, t: TypeCode)
    requires Consistent(c, ctx)
    modifies c, ctx
    ensures Consistent(c, ctx) && c.cur >= old(c.cur) && ctx.currentIdx == old(ctx.currentIdx)
    ensures Reports(DecRest(c.Window(), TK_UNION, id, repoId, name, old(View(c, ctx))), err, t, View(c, ctx))
    decreases c.end - c.cur, 0, 1
  {
    hide DecTC, DecMembers, GetNames, GetInt, LabelKind;
    Pow256Values();
    ghost var w := c.Window();
    var disc, defaultIndex, count, members;
    err, disc := TcDec(c, ctx);
    t := Empty(0);
    if err {
      return;
    }
    ghost var s3 := View(c, ctx);
    err, defaultIndex := c.Get(4);
    ghost var s4 := View(c, ctx);
    assert Reports(GetInt(w, 4, s3), err, defaultIndex, s4);
    if err {
      return;
    }
    err, count := c.Get(4);
    assert Reports(GetInt(w, 4, s4), err, count, View(c, ctx));
    if err || !LabelKind(KindOf(disc)) {
      return true, t;
    }
    err, members := TcDecMembers(c, ctx, count, KindOf(disc));
    t := Union(id, repoId, name, disc, Signed32(defaultIndex), members);
  }

  /** A loop has read `done`, and `r` is what is still to come. */
  ghost function PrependAll<T>(done: seq<T>, r: Parsed<seq<T>>): Parsed<seq<T>> {
    if r.Fail? then Fail else Ok(done + r.value, r.st)
  }

  lemma PrependNil<T>(r: Parsed<seq<T>>)
    ensures PrependAll([], r) == r
  {
    assert r.Ok? ==> [] + r.value == r.value;
  }

  lemma PrependMore<T>(done: seq<T>, x: T, r: Parsed<seq<T>>)
    ensures PrependAll(done + [x], r) == PrependAll(done, PrependAll([x], r))
  {
    if r.Ok? {
      assert done + [x] + r.value == done + ([x] + r.value);
    }
  }

  /** The enumerator loop. */
  method TcDecNames(c: Input, ctx: DecodeContext, count: nat) returns (err: bool, names: seq<CStr>)
    requires Consistent(c, ctx)
    modifies c
    ensures Consistent(c, ctx) && c.cur >= old(c.cur)
    ensures Reports(GetNames(c.Window(), old(View(c, ctx)), count), err, names, View(c, ctx))
  {
    hide GetString;
    ghost var w := c.Window();
    names := [];
    PrependNil(GetNames(w, View(c, ctx), count));
    for i := 0 to count
      invariant Consistent(c, ctx) && c.cur >= old(c.cur) && |names| == i
      invariant GetNames(w, old(View(c, ctx)), count) == PrependAll(names, GetNames(w, View(c, ctx), count - i))
    {
      var name;
      ghost var s0 := View(c, ctx);
      err, name := c.GetStr();
      assert Reports(GetString(w, s0), err, name, View(c, ctx));
      if err {
        return;
      }
      PrependMore(names, name, GetNames(w, View(c, ctx), count - i - 1));
      names := names + [name];
    }
    assert names + [] == names;
    err := false;
  }

  /** The member loops. */
  method TcDecMembers(c: Input, ctx: DecodeContext, count: nat, labelKind: U32) returns (err: bool, members: seq<Member>)
    requires Consistent(c, ctx)
    modifies c, ctx
    ensures Consistent(c, ctx) && c.cur >= old(c.cur) && ctx.currentIdx == old(ctx.currentIdx)
    ensures Reports(DecMembers(c.Window(), old(View(c, ctx)), count, labelKind), err, members, View(c, ctx))
    decreases c.end - c.cur, 0, 0
  {
    hide GetString, DecTC, DecLabel;
    ghost var w := c.Window();
    members := [];
    PrependNil(DecMembers(w, View(c, ctx), count, labelKind));
    for i := 0 to count
      invariant Consistent(c, ctx) && c.cur >= old(c.cur) && |members| == i && ctx.currentIdx == old(ctx.currentIdx)
      invariant DecMembers(w, old(View(c, ctx)), count, labelKind)
             == PrependAll(members, DecMembers(w, View(c, ctx), count - i, labelKind))
    {
      var tag, name, tc;
      ghost var s0 := View(c, ctx);
      err, tag := TcDecLabel(c, ctx, labelKind);
      ghost var s1 := View(c, ctx);
      if err {
        return;
      }
      err, name := c.GetStr();
      ghost var s2 := View(c, ctx);
      assert Reports(GetString(w, s1), err, name, s2);
      if err {
        return;
      }
      err, tc := TcDec(c, ctx);
      if err {
        return;
      }
      PrependMore(members, Member(tag, name, tc), DecMembers(w, View(c, ctx), count - i - 1, labelKind));
      members := members + [Member(tag, name, tc)];
    }
    assert members + [] == members;
    err := false;
  }

  method TcDecLabel(c: Input, ctx: DecodeContext, labelKind: U32) returns (err: bool, tag: I32)
    requires Consistent(c, ctx)
    modifies c
    ensures Consistent(c, ctx) && c.cur >= old(c.cur)
    ensures Reports(DecLabel(c.Window(), old(View(c, ctx)), labelKind), err, tag, View(c, ctx))
  {
    hide GetInt, LabelValue;
    if labelKind == 0 {
      return false, 0;
    }
    var raw;
    err, raw := c.Get(LabelSize(labelKind));
    assert Reports(GetInt(c.Window(), LabelSize(labelKind), old(View(c, ctx))), err, raw, View(c, ctx));
    tag := LabelValue(labelKind, raw);
  }

  /** MateCORBA_decode_CORBA_TypeCode. */
  method DecodeTypeCode(c: Input, next: nat) returns (err: bool, t: TypeCode, next': nat)
    requires c.Valid() && c.body == 0
    modifies c
    ensures c.Valid() && c.cur >= old(c.cur)
    ensures match DecTC(c.Window(), Dec(old(c.cur), map[], next))
            case Fail => err
            case Ok(t', st') => !err && t == t' && c.cur == st'.cur && next' == st'.next
  {
    hide DecTC;
    var ctx := new DecodeContext(next);
    err, t := TcDec(c, ctx);
    next' := ctx.next;
  }
}

/** The skeleton generator of the IDL compiler: a sorted operation list is compiled into nested
    character switches, which the generated get_skel_small function runs on the request's operation name. */
module SkelDispatch {
  import opened Idents

  /** One entry of the operation list: the interface that declares it, its name, and its index in
      that interface's method table. */
  datatype OpInfo = OpInfo(ifaceId: nat, opname: Ident, idx: nat)

  /** The generated code. `Switch` is `switch (opname[level]) { cases; default: break; }`;
      every case ends in `break`. */
  datatype Switch = Switch(level: nat, cases: seq<Case>)

  /** The body of one case: a nested switch, or an optional `if (strcmp (opname + level + 1, tail)) break;`
      followed by `return` of the skeleton. */
  datatype Case =
    | Nested(ch: char, inner: Switch)
    | Leaf(ch: char, tail: Tail, target: OpInfo)

  datatype Tail = NoCompare | CompareTo(rest: Ident)

  /** `Fell` is control reaching the end of the switch, where the generated function returns NULL.
      `BadRead` is a read of opname beyond its terminator. */
  datatype Outcome = Returned(op: OpInfo) | Fell | BadRead

  datatype Generated = Generated(sw: Switch) | SameNameTwice

  /** The interpreter of the generated code. */
  function Run(sw: Switch, s: Ident): Outcome {
    if sw.level > |s| then BadRead else RunCases(sw.cases, sw.level, s)
  }

  function RunCases(cases: seq<Case>, level: nat, s: Ident): Outcome
    requires level <= |s|
  {
    if cases == [] then Fell
    else if cases[0].ch == CharAt(s, level) then RunCase(cases[0], level, s)
    else RunCases(cases[1..], level, s)
  }

  function RunCase(c: Case, level: nat, s: Ident): Outcome
    requires level <= |s|
  {
    match c
    case Nested(_, inner) => Run(inner, s)
    case Leaf(_, NoCompare, target) => Returned(target)
    case Leaf(_, CompareTo(rest), target) =>
      if level + 1 > |s| then BadRead
      else if Strcmp(s[level + 1..], rest) != 0 then Fell
      else Returned(target)
  }

  /** C accepts a switch only when its case labels are pairwise distinct. */
  ghost predicate LabelsDistinct(sw: Switch) {
    && (forall i, j :: 0 <= i < j < |sw.cases| ==> sw.cases[i].ch != sw.cases[j].ch)
    && forall c | c in sw.cases :: c.Nested? ==> LabelsDistinct(c.inner)
  }

  ghost predicate Sorted(ops: seq<OpInfo>) {
    forall i, j :: 0 <= i < j < |ops| ==> Strcmp(ops[i].opname, ops[j].opname) <= 0
  }

  ghost predicate DistinctNames(ops: seq<OpInfo>) {
    forall i, j :: 0 <= i < j < |ops| ==> ops[i].opname != ops[j].opname
  }

  ghost predicate SharePrefix(ops: seq<OpInfo>, prefix: string) {
    forall i :: 0 <= i < |ops| ==> prefix <= ops[i].opname
  }

  /** The dispatch promise: the result is the operation named `s`, or NULL when there is none. */
  ghost predicate Answers(out: Outcome, ops: seq<OpInfo>, s: Ident) {
    match out
    case Returned(op) => op in ops && op.opname == s
    case Fell => forall i :: 0 <= i < |ops| ==> ops[i].opname != s
    case BadRead => false
  }

  ghost function MaxLen(ops: seq<OpInfo>): (m: nat)
    ensures forall i :: 0 <= i < |ops| ==> |ops[i].opname| <= m
  {
    if ops == [] then 0
    else
      var m := MaxLen(ops[1..]);
      assert forall i :: 1 <= i < |ops| ==> ops[i] == ops[1..][i - 1];
      if m < |ops[0].opname| then |ops[0].opname| else m
  }

  /** Adding a case whose label is new leaves every other character's behaviour alone. */
  lemma {:induction false} RunCasesAppend(cases: seq<Case>, x: Case, level: nat, s: Ident)
    requires level <= |s|
    requires forall i :: 0 <= i < |cases| ==> cases[i].ch != x.ch
    ensures CharAt(s, level) == x.ch ==> RunCases(cases + [x], level, s) == RunCase(x, level, s)
    ensures CharAt(s, level) != x.ch ==> RunCases(cases + [x], level, s) == RunCases(cases, level, s)
  {
    if cases == [] {
      assert ([x])[1..] == [];
    } else {
      assert (cases + [x])[1..] == cases[1..] + [x];
      RunCasesAppend(cases[1..], x, level, s);
    }
  }

  /** Extending the prefix by the character that a group shares. */
  lemma GroupSharesPrefix(sub: seq<OpInfo>, prefix: Ident, ch: char)
    requires ch != NUL
    requires SharePrefix(sub, prefix)
    requires forall i :: 0 <= i < |sub| ==> CharAt(sub[i].opname, |prefix|) == ch
    ensures SharePrefix(sub, prefix + [ch])
  {
    forall i | 0 <= i < |sub| ensures prefix + [ch] <= sub[i].opname {
      assert sub[i].opname[..|prefix|] == prefix;
    }
  }

  /** A one-operation group: the leaf returns the operation exactly on its own name. */
  lemma LeafAnswers(op: OpInfo, prefix: Ident, s: Ident)
    requires prefix <= op.opname && prefix <= s
    requires CharAt(op.opname, |prefix|) == CharAt(s, |prefix|)
    ensures
      var level := |prefix|;
      var tail := if |op.opname| > level then CompareTo(op.opname[level + 1..]) else NoCompare;
      Answers(RunCase(Leaf(CharAt(op.opname, level), tail, op), level, s), [op], s)
  {
    var level := |prefix|;
    assert op.opname[..level] == prefix == s[..level];
    if |op.opname| == level {
      assert op.opname == prefix == s;
    } else {
      StrcmpTotal(s[level + 1..], op.opname[level + 1..]);
      assert s == s[..level] + [s[level]] + s[level + 1..];
      assert op.opname == op.opname[..level] + [op.opname[level]] + op.opname[level + 1..];
    }
  }

  /** Two operations whose names end at the same place after the same prefix have the same name. */
  lemma TerminatedGroup(sub: seq<OpInfo>, prefix: Ident)
    requires SharePrefix(sub, prefix)
    requires |sub| > 1
    requires forall i :: 0 <= i < |sub| ==> CharAt(sub[i].opname, |prefix|) == NUL
    ensures !DistinctNames(sub)
  {
    forall i | 0 <= i < |sub| ensures sub[i].opname == prefix {
      assert sub[i].opname[..|prefix|] == prefix;
      if |prefix| < |sub[i].opname| {
        assert false;
      }
    }
    assert sub[0].opname == sub[1].opname;
  }

  /** Sorted names with a common prefix are grouped by the character after it. */
  lemma CharsOrdered(ops: seq<OpInfo>, prefix: Ident)
    requires Sorted(ops) && SharePrefix(ops, prefix)
    ensures forall i, j :: 0 <= i < j < |ops| ==> CharAt(ops[i].opname, |prefix|) <= CharAt(ops[j].opname, |prefix|)
  {
    forall i, j | 0 <= i < j < |ops|
      ensures CharAt(ops[i].opname, |prefix|) <= CharAt(ops[j].opname, |prefix|)
    {
      assert ops[i].opname[..|prefix|] == prefix == ops[j].opname[..|prefix|];
      StrcmpAtPrefix(ops[i].opname, ops[j].opname, |prefix|);
    }
  }

  /** `cases` compiles the first `n` operations, and no later operation shares a label with them. */
  ghost predicate Covers(cases: seq<Case>, ops: seq<OpInfo>, n: nat, prefix: Ident)
    requires n <= |ops| && SharePrefix(ops, prefix)
  {
    && DistinctNames(ops[..n])
    && LabelsDistinct(Switch(|prefix|, cases))
    && (forall i, k :: 0 <= i < |cases| && n <= k < |ops| ==> cases[i].ch != CharAt(ops[k].opname, |prefix|))
    && (forall i, k :: 0 <= i < n <= k < |ops| ==> CharAt(ops[i].opname, |prefix|) != CharAt(ops[k].opname, |prefix|))
    && (forall s: Ident | prefix <= s :: Answers(RunCases(cases, |prefix|, s), ops[..n], s))
  }

  /** `x` compiles the group ops[start..stop], all of whose names have `x.ch` after the prefix. */
  ghost predicate CompilesGroup(x: Case, ops: seq<OpInfo>, prefix: Ident)
    requires SharePrefix(ops, prefix)
  {
    && DistinctNames(ops)
    && (x.Nested? ==> LabelsDistinct(x.inner))
    && (forall i :: 0 <= i < |ops| ==> CharAt(ops[i].opname, |prefix|) == x.ch)
    && (forall s: Ident | prefix <= s && CharAt(s, |prefix|) == x.ch :: Answers(RunCase(x, |prefix|, s), ops, s))
  }

  /** One more group of operations gets one more case. */
  lemma AddCase(ops: seq<OpInfo>, start: nat, stop: nat, prefix: Ident, cases: seq<Case>, x: Case)
    requires Sorted(ops) && SharePrefix(ops, prefix)
    requires start < stop <= |ops|
    requires Covers(cases, ops, start, prefix)
    requires SharePrefix(ops[start..stop], prefix) && CompilesGroup(x, ops[start..stop], prefix)
    requires stop < |ops| ==> CharAt(ops[stop].opname, |prefix|) != x.ch
    ensures Covers(cases + [x], ops, stop, prefix)
  {
    var level := |prefix|;
    assert forall i :: start <= i < stop ==> ops[i] == ops[start..stop][i - start];
    assert CharAt(ops[start].opname, level) == x.ch;
    CharsOrdered(ops, prefix);
    DistinctAppend(ops, start, stop, level, x.ch);
    forall s: Ident | prefix <= s
      ensures Answers(RunCases(cases + [x], level, s), ops[..stop], s)
    {
      AddCaseAnswers(ops, start, stop, prefix, cases, x, s);
    }
  }

  lemma AddCaseAnswers(ops: seq<OpInfo>, start: nat, stop: nat, prefix: Ident, cases: seq<Case>, x: Case, s: Ident)
    requires start < stop <= |ops|
    requires SharePrefix(ops, prefix) && prefix <= s
    requires forall i :: 0 <= i < |cases| ==> cases[i].ch != x.ch
    requires forall i :: 0 <= i < start ==> CharAt(ops[i].opname, |prefix|) != x.ch
    requires forall i :: start <= i < stop ==> CharAt(ops[i].opname, |prefix|) == x.ch
    requires Answers(RunCases(cases, |prefix|, s), ops[..start], s)
    requires CharAt(s, |prefix|) == x.ch ==> Answers(RunCase(x, |prefix|, s), ops[start..stop], s)
    ensures Answers(RunCases(cases + [x], |prefix|, s), ops[..stop], s)
  {
    RunCasesAppend(cases, x, |prefix|, s);
    assert ops[..stop] == ops[..start] + ops[start..stop];
    assert forall i :: 0 <= i < start ==> ops[..stop][i] == ops[..start][i];
    assert forall i :: start <= i < stop ==> ops[..stop][i] == ops[start..stop][i - start];
  }

  /** A group of one becomes a leaf. */
  lemma LeafCompiles(sub: seq<OpInfo>, prefix: Ident)
    requires |sub| == 1 && SharePrefix(sub, prefix)
    ensures
      var level := |prefix|;
      var tail := if |sub[0].opname| > level then CompareTo(sub[0].opname[level + 1..]) else NoCompare;
      CompilesGroup(Leaf(CharAt(sub[0].opname, level), tail, sub[0]), sub, prefix)
  {
    assert sub == [sub[0]];
    forall s: Ident | prefix <= s && CharAt(s, |prefix|) == CharAt(sub[0].opname, |prefix|)
      ensures Answers(RunCase(Leaf(CharAt(sub[0].opname, |prefix|),
                                   if |sub[0].opname| > |prefix| then CompareTo(sub[0].opname[|prefix| + 1..]) else NoCompare,
                                   sub[0]), |prefix|, s), sub, s)
    {
      LeafAnswers(sub[0], prefix, s);
    }
  }

  /** A larger group becomes a nested switch one character further on. */
  lemma NestedCompiles(sub: seq<OpInfo>, prefix: Ident, ch: char, inner: Switch)
    requires ch != NUL && SharePrefix(sub, prefix) && DistinctNames(sub)
    requires forall i :: 0 <= i < |sub| ==> CharAt(sub[i].opname, |prefix|) == ch
    requires LabelsDistinct(inner)
    requires forall s: Ident | prefix + [ch] <= s :: Answers(Run(inner, s), sub, s)
    ensures CompilesGroup(Nested(ch, inner), sub, prefix)
  {
    forall s: Ident | prefix <= s && CharAt(s, |prefix|) == ch
      ensures Answers(RunCase(Nested(ch, inner), |prefix|, s), sub, s)
    {
      assert s[..|prefix|] == prefix;
      assert prefix + [ch] <= s;
    }
  }

  /** cbe_skel_interface_print_relayers: compiles the operations that share `prefix` into a switch on
      the character after it. Whatever the list, generation ends; it fails exactly when a name occurs
      twice, and otherwise the switch answers every operation name that starts with `prefix`. */
  method PrintRelayers(oplist: seq<OpInfo>, curlevel: nat, ghost prefix: Ident) returns (r: Generated)
    requires |prefix| == curlevel
    requires Sorted(oplist) && SharePrefix(oplist, prefix)
    ensures r.Generated? <==> DistinctNames(oplist)
    ensures r.Generated? ==> r.sw.level == curlevel && LabelsDistinct(r.sw)
    ensures r.Generated? ==> forall s: Ident | prefix <= s :: Answers(Run(r.sw, s), oplist, s)
    decreases if curlevel <= MaxLen(oplist) then MaxLen(oplist) + 1 - curlevel else 0, 1
  {
    var cases: seq<Case> := [];
    var cur := 0;
    while cur < |oplist|
      invariant cur <= |oplist|
      invariant Covers(cases, oplist, cur, prefix)
    {
      hide Covers, CompilesGroup, DistinctNames, LabelsDistinct, Answers, Run, RunCases, MaxLen, Sorted;
      if curlevel > |oplist[cur].opname| {   // the generator would skip it
        assert false;
      }
      var curchar := CharAt(oplist[cur].opname, curlevel);
      ghost var start := cur;
      var sub: seq<OpInfo>;
      sub, cur := NextGroup(oplist, cur, curlevel, prefix);
      SubListMaxLen(oplist, start, cur);
      var distinct, x := PrintCase(sub, curlevel, curchar, prefix);
      if !distinct {
        DistinctOfSlice(oplist, start, cur);
        return SameNameTwice;
      }
      AddCase(oplist, start, cur, prefix, cases, x);
      cases := cases + [x];
    }
    assert oplist[..cur] == oplist;
    r := Generated(Switch(curlevel, cases));
  }

  /** The generator's inner loop: the longest run of operations with the same next character. */
  method NextGroup(oplist: seq<OpInfo>, start: nat, curlevel: nat, ghost prefix: Ident)
    returns (sub: seq<OpInfo>, stop: nat)
    requires start < |oplist| && |prefix| == curlevel && Sorted(oplist) && SharePrefix(oplist, prefix)
    ensures start < stop <= |oplist| && sub == oplist[start..stop]
    ensures Sorted(sub) && SharePrefix(sub, prefix)
    ensures forall i :: 0 <= i < |sub| ==> CharAt(sub[i].opname, curlevel) == CharAt(oplist[start].opname, curlevel)
    ensures stop < |oplist| ==> CharAt(oplist[stop].opname, curlevel) != CharAt(oplist[start].opname, curlevel)
  {
    var curchar := CharAt(oplist[start].opname, curlevel);
    sub, stop := [], start;
    while stop < |oplist| && CharAt(oplist[stop].opname, curlevel) == curchar
      invariant start <= stop <= |oplist|
      invariant stop == start ==> CharAt(oplist[stop].opname, curlevel) == curchar
      invariant sub == oplist[start..stop]
      invariant forall i :: 0 <= i < |sub| ==> CharAt(sub[i].opname, curlevel) == curchar
    {
      sub := sub + [oplist[stop]];
      stop := stop + 1;
    }
  }

  /** The body of the generator's loop: one case for the group `sub`. */
  method PrintCase(sub: seq<OpInfo>, curlevel: nat, curchar: char, ghost prefix: Ident)
    returns (distinct: bool, x: Case)
    requires |prefix| == curlevel
    requires |sub| > 0 && Sorted(sub) && SharePrefix(sub, prefix)
    requires forall i :: 0 <= i < |sub| ==> CharAt(sub[i].opname, curlevel) == curchar
    ensures distinct == DistinctNames(sub)
    ensures distinct ==> CompilesGroup(x, sub, prefix) && x.ch == curchar
    decreases if curlevel <= MaxLen(sub) then MaxLen(sub) + 1 - curlevel else 0, 0
  {
    var opi := sub[0];
    if |sub| > 1 {
      if curchar != NUL {
        GroupSharesPrefix(sub, prefix, curchar);
        var inner := PrintRelayers(sub, curlevel + 1, prefix + [curchar]);
        if inner.SameNameTwice? {
          return false, Leaf(curchar, NoCompare, opi);
        }
        NestedCompiles(sub, prefix, curchar, inner.sw);
        return true, Nested(curchar, inner.sw);
      } else {
        TerminatedGroup(sub, prefix);
        return false, Leaf(curchar, NoCompare, opi);
      }
    } else {
      LeafCompiles(sub, prefix);
      var tail := if |opi.opname| - curlevel > 0 then CompareTo(opi.opname[curlevel + 1..]) else NoCompare;
      return true, Leaf(curchar, tail, opi);
    }
  }

  lemma DistinctOfSlice(ops: seq<OpInfo>, start: nat, stop: nat)
    requires start <= stop <= |ops|
    requires !DistinctNames(ops[start..stop])
    ensures !DistinctNames(ops)
  {
    var i, j :| 0 <= i < j < stop - start && ops[start..stop][i].opname == ops[start..stop][j].opname;
    assert ops[start + i].opname == ops[start + j].opname;
  }

  lemma DistinctAppend(ops: seq<OpInfo>, start: nat, stop: nat, level: nat, ch: char)
    requires start <= stop <= |ops|
    requires forall i :: 0 <= i < |ops| ==> level <= |ops[i].opname|
    requires DistinctNames(ops[..start])
    requires DistinctNames(ops[start..stop])
    requires forall i :: 0 <= i < start ==> CharAt(ops[i].opname, level) != ch
    requires forall i :: start <= i < stop ==> CharAt(ops[i].opname, level) == ch
    ensures DistinctNames(ops[..stop])
  {
    forall i, j | 0 <= i < j < stop ensures ops[..stop][i].opname != ops[..stop][j].opname {
      if j < start {
        assert ops[..start][i].opname != ops[..start][j].opname;
      } else if i >= start {
        assert ops[start..stop][i - start].opname != ops[start..stop][j - start].opname;
      }
    }
  }

  lemma {:induction false} SubListMaxLen(ops: seq<OpInfo>, start: nat, stop: nat)
    requires start <= stop <= |ops|
    ensures MaxLen(ops[start..stop]) <= MaxLen(ops)
  {
    MaxLenAttained(ops[start..stop]);
  }

  lemma {:induction false} MaxLenAttained(ops: seq<OpInfo>)
    ensures ops != [] ==> exists i :: 0 <= i < |ops| && MaxLen(ops) == |ops[i].opname|
    ensures ops == [] ==> MaxLen(ops) == 0
  {
    if ops != [] {
      MaxLenAttained(ops[1..]);
      if MaxLen(ops) == |ops[0].opname| {
      } else {
        var i :| 0 <= i < |ops[1..]| && MaxLen(ops[1..]) == |ops[1..][i].opname|;
        assert ops[i + 1] == ops[1..][i];
      }
    }
  }
}

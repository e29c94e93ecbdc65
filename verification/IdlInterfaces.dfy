/** Interfaces as the IDL compiler's back end walks them: the traversal over base interfaces, and the
    three places that number an interface's methods (stubs, method table, skeleton operation list). */
module IdlInterfaces {
  import opened Idents
  import opened SkelDispatch

  /** One item of an interface body. An attribute declaration names several attributes. */
  datatype Decl =
    | Operation(name: Ident)
    | Attribute(readonly: bool, names: seq<Ident>)
    | OtherDecl

  datatype Interface = Interface(bases: seq<nat>, body: seq<Decl>)

  type Program = map<nat, Interface>

  ghost predicate Closed(prog: Program) {
    forall i, b | i in prog && b in prog[i].bases :: b in prog
  }

  /** An interface is declared after its bases: `rank` is a witness that inheritance has no cycle. */
  ghost predicate Ranked(prog: Program, rank: map<nat, nat>) {
    && Closed(prog)
    && prog.Keys <= rank.Keys
    && forall i, b | i in prog && b in prog[i].bases :: rank[b] < rank[i]
  }

  /** A chain of direct bases from path[0] to its last element. */
  ghost predicate BasePath(prog: Program, path: seq<nat>) {
    && path != []
    && path[0] in prog
    && forall k :: 0 <= k < |path| - 1 ==> path[k] in prog && path[k + 1] in prog[path[k]].bases
  }

  ghost predicate Ancestor(prog: Program, p: nat, a: nat) {
    exists path :: BasePath(prog, path) && path[0] == p && path[|path| - 1] == a
  }

  ghost predicate NoDuplicates(s: seq<nat>) {
    forall i, j :: 0 <= i < j < |s| ==> s[i] != s[j]
  }

  /** Every direct base of a listed interface is listed before it. */
  ghost predicate BasesFirst(prog: Program, order: seq<nat>) {
    forall j, b | 0 <= j < |order| && order[j] in prog && b in prog[order[j]].bases :: b in order[..j]
  }

  lemma AncestorSelf(prog: Program, p: nat)
    requires p in prog
    ensures Ancestor(prog, p, p)
  {
    assert BasePath(prog, [p]);
  }

  lemma AncestorStep(prog: Program, p: nat, b: nat, a: nat)
    requires p in prog && b in prog[p].bases && Ancestor(prog, b, a)
    ensures Ancestor(prog, p, a)
  {
    var path :| BasePath(prog, path) && path[0] == b && path[|path| - 1] == a;
    var longer := [p] + path;
    forall k | 0 <= k < |longer| - 1 ensures longer[k] in prog && longer[k + 1] in prog[longer[k]].bases {
      if k > 0 {
        assert longer[k] == path[k - 1] && longer[k + 1] == path[k];
      }
    }
    assert longer[|longer| - 1] == a;
  }

  lemma PathTail(prog: Program, path: seq<nat>)
    requires BasePath(prog, path) && |path| > 1
    requires Closed(prog)
    ensures BasePath(prog, path[1..])
  {
    var tail := path[1..];
    assert path[0 + 1] in prog[path[0]].bases;
    forall k | 0 <= k < |tail| - 1 ensures tail[k] in prog && tail[k + 1] in prog[tail[k]].bases {
      assert path[(k + 1) + 1] in prog[path[k + 1]].bases;
    }
  }

  /** A list closed under direct bases is closed under ancestors. */
  lemma {:induction false} OrderHoldsPath(prog: Program, order: seq<nat>, path: seq<nat>)
    requires Closed(prog) && BasesFirst(prog, order) && BasePath(prog, path)
    requires path[0] in order || (forall b | b in prog[path[0]].bases :: b in order)
    ensures |path| > 1 ==> path[|path| - 1] in order
  {
    if |path| > 1 {
      assert path[1] in order by {
        if path[0] in order {
          var j :| 0 <= j < |order| && order[j] == path[0];
          assert path[1] in order[..j];
        }
      }
      if |path| > 2 {
        PathTail(prog, path);
        OrderHoldsPath(prog, order, path[1..]);
      }
    }
  }

  /** What a traversal has done to the marks and the callbacks: `seen` holds the interfaces it may
      leave marked without a callback. */
  ghost predicate Traversal(prog: Program, p: nat, visited0: set<nat>, order0: seq<nat>,
                            visited: set<nat>, order: seq<nat>, seen: set<nat>)
  {
    && visited0 <= visited <= prog.Keys
    && order0 <= order && NoDuplicates(order) && BasesFirst(prog, order)
    && (forall x :: x in order ==> x in visited)
    && (forall x :: x in visited && x !in visited0 && x !in seen ==> x in order)
    && (forall x :: x in order && x !in order0 ==> Ancestor(prog, p, x))
  }

  lemma TraversalStep(prog: Program, rank: map<nat, nat>, p: nat, b: nat, visited0: set<nat>, order0: seq<nat>,
                      v1: set<nat>, o1: seq<nat>, v2: set<nat>, o2: seq<nat>)
    requires Ranked(prog, rank) && p in prog && b in prog[p].bases
    requires Traversal(prog, p, visited0, order0, v1, o1, {p}) && p !in o1
    requires Traversal(prog, b, v1, o1, v2, o2, {})
    ensures Traversal(prog, p, visited0, order0, v2, o2, {p}) && p !in o2
  {
    forall x | x in o2 && x !in order0 ensures Ancestor(prog, p, x) && x != p {
      if x !in o1 {
        AncestorStep(prog, p, b, x);
        AncestorRank(prog, rank, b, x);
      }
    }
    forall x | x in v2 && x !in visited0 && x !in {p} ensures x in o2 {
      if x in v1 {
        assert x in o1;
      }
    }
    assert order0 <= o2;
  }

  lemma TraversalEnd(prog: Program, p: nat, visited0: set<nat>, order0: seq<nat>, v: set<nat>, o: seq<nat>)
    requires p in prog && p in v && p !in o
    requires Traversal(prog, p, visited0, order0, v, o, {p})
    requires forall i :: 0 <= i < |prog[p].bases| ==> prog[p].bases[i] in o
    ensures Traversal(prog, p, visited0, order0, v, o + [p], {})
  {
    AncestorSelf(prog, p);
    var order := o + [p];
    forall j, b | 0 <= j < |order| && order[j] in prog && b in prog[order[j]].bases ensures b in order[..j] {
      if j < |o| {
        assert order[j] == o[j] && order[..j] == o[..j];
      } else {
        assert order[..j] == o;
      }
    }
  }

  /** IDL_tree_traverse_helper. `order` is the sequence of callbacks made so far; interfaces that are
      visited but not yet called back are still being traversed further up the recursion. */
  method TraverseHelper(prog: Program, p: nat, includeSelf: bool, visited0: set<nat>, order0: seq<nat>,
                        ghost rank: map<nat, nat>)
    returns (visited: set<nat>, order: seq<nat>)
    requires Ranked(prog, rank) && p in prog
    requires Traversal(prog, p, visited0, order0, visited0, order0, {})
    requires forall x :: x in visited0 && x !in order0 ==> rank[p] < rank[x]
    requires !includeSelf ==> p !in visited0
    ensures Traversal(prog, p, visited0, order0, visited, order, if includeSelf then {} else {p})
    ensures if includeSelf then p in order else p !in order && forall b | b in prog[p].bases :: b in order
    decreases prog.Keys - visited0
  {
    visited, order := visited0, order0;
    if p in visited {
      return;
    }
    visited := visited + {p};
    var bases := prog[p].bases;
    for k := 0 to |bases|
      invariant p in visited && p !in order
      invariant Traversal(prog, p, visited0, order0, visited, order, {p})
      invariant forall i :: 0 <= i < k ==> bases[i] in order
    {
      ghost var v1, o1 := visited, order;
      visited, order := TraverseHelper(prog, bases[k], true, visited, order, rank);
      TraversalStep(prog, rank, p, bases[k], visited0, order0, v1, o1, visited, order);
    }
    if includeSelf {
      TraversalEnd(prog, p, visited0, order0, visited, order);
      order := order + [p];
    }
  }

  lemma {:induction false} PathRank(prog: Program, rank: map<nat, nat>, path: seq<nat>)
    requires Ranked(prog, rank) && BasePath(prog, path)
    ensures path[|path| - 1] in prog && rank[path[|path| - 1]] <= rank[path[0]]
    ensures |path| > 1 ==> rank[path[|path| - 1]] < rank[path[0]]
  {
    if |path| > 1 {
      assert path[1] in prog[path[0]].bases;
      PathTail(prog, path);
      PathRank(prog, rank, path[1..]);
    }
  }

  lemma AncestorRank(prog: Program, rank: map<nat, nat>, p: nat, a: nat)
    requires Ranked(prog, rank) && Ancestor(prog, p, a)
    ensures a in prog && rank[a] <= rank[p]
    ensures a != p ==> rank[a] < rank[p]
  {
    var path :| BasePath(prog, path) && path[0] == p && path[|path| - 1] == a;
    PathRank(prog, rank, path);
  }

  /** IDL_tree_traverse_parents_full on an interface: the callback runs once for each ancestor (and
      for the interface itself when asked), bases before the interfaces that inherit them. */
  method TraverseParents(prog: Program, p: nat, includeSelf: bool, ghost rank: map<nat, nat>)
    returns (order: seq<nat>)
    requires Ranked(prog, rank) && p in prog
    ensures NoDuplicates(order) && BasesFirst(prog, order)
    ensures forall a :: a in order <==> Ancestor(prog, p, a) && (includeSelf || a != p)
    ensures includeSelf ==> |order| > 0 && order[|order| - 1] == p
  {
    var visited;
    visited, order := TraverseHelper(prog, p, includeSelf, {}, [], rank);
    forall a | Ancestor(prog, p, a) && (includeSelf || a != p) ensures a in order {
      var path :| BasePath(prog, path) && path[0] == p && path[|path| - 1] == a;
      OrderHoldsPath(prog, order, path);
    }
    forall a | a in order ensures Ancestor(prog, p, a) && (includeSelf || a != p) {
    }
    if includeSelf {
      LastIsSelf(prog, rank, p, order);
    }
  }

  lemma LastIsSelf(prog: Program, rank: map<nat, nat>, p: nat, order: seq<nat>)
    requires Ranked(prog, rank) && p in order && NoDuplicates(order) && BasesFirst(prog, order)
    requires forall a :: a in order ==> Ancestor(prog, p, a)
    ensures order[|order| - 1] == p
  {
    var last := order[|order| - 1];
    assert last in order;
    if last != p {
      assert Ancestor(prog, p, last);
      var path :| BasePath(prog, path) && path[0] == p && path[|path| - 1] == last;
      var before := path[|path| - 2];
      var init := path[..|path| - 1];
      assert BasePath(prog, init) && init[0] == p && init[|init| - 1] == before;
      if |init| > 1 {
        OrderHoldsPath(prog, order, init);
      }
      assert false;
    }
  }

  /** The operation names one body item contributes: an attribute is read through _get_ and, unless it
      is read-only, written through _set_ right after. */
  function DeclOps(d: Decl): seq<Ident> {
    match d
    case Operation(name) => [name]
    case Attribute(readonly, names) => AttrOps(readonly, names)
    case OtherDecl => []
  }

  function AttrOps(readonly: bool, names: seq<Ident>): seq<Ident> {
    if names == [] then []
    else
      (if readonly then ["_get_" + names[0]] else ["_get_" + names[0], "_set_" + names[0]])
      + AttrOps(readonly, names[1..])
  }

  /** The method table of an interface body; a method's number is its index here. */
  function Methods(body: seq<Decl>): seq<Ident> {
    if body == [] then [] else DeclOps(body[0]) + Methods(body[1..])
  }

  /** The body declares a method of that name: an operation, the getter of an attribute, or the setter of one that
      is not read-only. */
  ghost predicate Declares(d: Decl, m: Ident) {
    match d
    case Operation(name) => m == name
    case Attribute(readonly, names) => exists n :: n in names && (m == "_get_" + n || (!readonly && m == "_set_" + n))
    case OtherDecl => false
  }

  ghost predicate Declared(body: seq<Decl>, m: Ident) {
    exists k :: 0 <= k < |body| && Declares(body[k], m)
  }

  lemma {:induction false} AttrDeclared(readonly: bool, names: seq<Ident>, m: Ident)
    ensures m in AttrOps(readonly, names) <==> exists n :: n in names && (m == "_get_" + n || (!readonly && m == "_set_" + n))
  {
    if names != [] {
      AttrDeclared(readonly, names[1..], m);
      assert names == [names[0]] + names[1..];
      if m in AttrOps(readonly, names) && m !in AttrOps(readonly, names[1..]) {
        assert names[0] in names && (m == "_get_" + names[0] || (!readonly && m == "_set_" + names[0]));
      }
    }
  }

  /** The method table of a body holds exactly the methods that it declares. */
  lemma {:induction false} MethodsDeclared(body: seq<Decl>, m: Ident)
    ensures m in Methods(body) <==> Declared(body, m)
  {
    if body != [] {
      MethodsDeclared(body[1..], m);
      if body[0].Attribute? {
        AttrDeclared(body[0].readonly, body[0].names, m);
      }
      assert m in DeclOps(body[0]) <==> Declares(body[0], m);
      if Declared(body[1..], m) {
        var k :| 0 <= k < |body[1..]| && Declares(body[1..][k], m);
        assert body[k + 1] == body[1..][k];
      }
      if Declared(body, m) && !Declares(body[0], m) {
        var k :| 0 <= k < |body| && Declares(body[k], m);
        assert body[k] == body[1..][k - 1];
      }
    }
  }

  /** They are in the order of the declarations, each getter before its setter. */
  lemma MethodsInOrder(body: seq<Decl>)
    requires body == [Operation("f"), Attribute(false, ["a", "b"]), OtherDecl, Attribute(true, ["c"])]
    ensures Methods(body) == ["f", "_get_a", "_set_a", "_get_b", "_set_b", "_get_c"]
  {
    var a, b, c := "a", "b", "c";
    assert [c][1..] == [] && [b][1..] == [] && [a, b][1..] == [b];
    assert AttrOps(true, []) == [];
    assert AttrOps(true, [c]) == ["_get_" + c] + [];
    assert "_get_" + c == "_get_c";
    assert AttrOps(false, [b]) == ["_get_" + b, "_set_" + b];
    assert AttrOps(false, [a, b]) == ["_get_" + a, "_set_" + a, "_get_" + b, "_set_" + b];
    assert "_get_" + a == "_get_a" && "_set_" + a == "_set_a" && "_get_" + b == "_get_b" && "_set_" + b == "_set_b";
    assert body[1..][1..][1..] == [Attribute(true, [c])] && [Attribute(true, [c])][1..] == [];
    assert Methods([Attribute(true, [c])]) == ["_get_c"];
    assert Methods(body[1..][1..]) == ["_get_c"];
  }

  lemma {:induction false} MethodsAppend(body: seq<Decl>, d: Decl)
    ensures Methods(body + [d]) == Methods(body) + DeclOps(d)
  {
    if body == [] {
      assert ([d])[1..] == [];
    } else {
      assert (body + [d])[1..] == body[1..] + [d];
      MethodsAppend(body[1..], d);
    }
  }

  lemma {:induction false} AttrOpsAppend(readonly: bool, names: seq<Ident>, n: Ident)
    ensures AttrOps(readonly, names + [n])
         == AttrOps(readonly, names) + if readonly then ["_get_" + n] else ["_get_" + n, "_set_" + n]
  {
    if names == [] {
      assert ([n])[1..] == [];
    } else {
      assert (names + [n])[1..] == names[1..] + [n];
      AttrOpsAppend(readonly, names[1..], n);
    }
  }

  /** Methods `from` onwards of interface `iface`, as operation-list entries. */
  function Numbered(iface: nat, names: seq<Ident>): (r: seq<OpInfo>)
    ensures |r| == |names|
  {
    seq(|names|, i requires 0 <= i < |names| => OpInfo(iface, names[i], i))
  }

  lemma NumberedAppend(iface: nat, names: seq<Ident>, n: Ident)
    ensures Numbered(iface, names + [n]) == Numbered(iface, names) + [OpInfo(iface, n, |names|)]
  {
  }

  /** g_slist_insert_sorted with the operation-name comparison. */
  method InsertSorted(oplist: seq<OpInfo>, op: OpInfo) returns (r: seq<OpInfo>)
    requires Sorted(oplist)
    ensures Sorted(r) && multiset(r) == multiset(oplist) + multiset{op}
  {
    var k := 0;
    while k < |oplist| && Strcmp(op.opname, oplist[k].opname) > 0
      invariant k <= |oplist|
      invariant forall i :: 0 <= i < k ==> Strcmp(op.opname, oplist[i].opname) > 0
    {
      k := k + 1;
    }
    InsertedSorted(oplist, op, k);
    r := oplist[..k] + [op] + oplist[k..];
  }

  lemma InsertedSorted(oplist: seq<OpInfo>, op: OpInfo, k: nat)
    requires Sorted(oplist) && k <= |oplist|
    requires forall i :: 0 <= i < k ==> Strcmp(op.opname, oplist[i].opname) > 0
    requires k < |oplist| ==> Strcmp(op.opname, oplist[k].opname) <= 0
    ensures var r := oplist[..k] + [op] + oplist[k..];
      Sorted(r) && multiset(r) == multiset(oplist) + multiset{op}
  {
    hide Strcmp;
    var r := oplist[..k] + [op] + oplist[k..];
    InsertedOnce(oplist, op, k);
    forall i, j | 0 <= i < j < |r| ensures Strcmp(r[i].opname, r[j].opname) <= 0 {
      InsertedInOrder(oplist, op, k, i, j);
    }
  }

  lemma InsertedOnce(oplist: seq<OpInfo>, op: OpInfo, k: nat)
    requires k <= |oplist|
    ensures multiset(oplist[..k] + [op] + oplist[k..]) == multiset(oplist) + multiset{op}
  {
    assert oplist == oplist[..k] + oplist[k..];
  }

  lemma InsertedInOrder(oplist: seq<OpInfo>, op: OpInfo, k: nat, i: nat, j: nat)
    requires Sorted(oplist) && k <= |oplist| && i < j <= |oplist|
    requires forall i :: 0 <= i < k ==> Strcmp(op.opname, oplist[i].opname) > 0
    requires k < |oplist| ==> Strcmp(op.opname, oplist[k].opname) <= 0
    ensures var r := oplist[..k] + [op] + oplist[k..];
      Strcmp(r[i].opname, r[j].opname) <= 0
  {
    hide Strcmp;
    var r := oplist[..k] + [op] + oplist[k..];
    if j < k {
      assert r[i] == oplist[i] && r[j] == oplist[j];
    } else if j == k {
      assert r[i] == oplist[i] && r[j] == op;
      StrcmpTotal(op.opname, oplist[i].opname);
    } else if i == k {
      assert r[i] == op && r[j] == oplist[j - 1];
      if j - 1 > k {
        StrcmpTransitive(op.opname, oplist[k].opname, oplist[j - 1].opname);
      }
    } else {
      assert r[j] == oplist[j - 1];
      assert r[i] == if i < k then oplist[i] else oplist[i - 1];
    }
  }

  /** `oplist` is `oplist0` with the operations `names` of `iface` sorted in. */
  ghost predicate SortedIn(oplist: seq<OpInfo>, oplist0: seq<OpInfo>, iface: nat, names: seq<Ident>) {
    Sorted(oplist) && multiset(oplist) == multiset(oplist0) + multiset(Numbered(iface, names))
  }

  /** One more operation, with the next index. */
  method AddOp(iface: nat, name: Ident, idx: nat, oplist: seq<OpInfo>, ghost oplist0: seq<OpInfo>, ghost names: seq<Ident>)
    returns (r: seq<OpInfo>)
    requires SortedIn(oplist, oplist0, iface, names) && idx == |names|
    ensures SortedIn(r, oplist0, iface, names + [name])
  {
    NumberedAppend(iface, names, name);
    r := InsertSorted(oplist, OpInfo(iface, name, idx));
  }

  /** cbe_skel_interface_add_relayer: the operations of one interface join the sorted list, each with
      the number it has in that interface's method table. */
  method AddRelayer(iface: nat, body: seq<Decl>, oplist0: seq<OpInfo>) returns (oplist: seq<OpInfo>)
    requires Sorted(oplist0)
    ensures Sorted(oplist)
    ensures multiset(oplist) == multiset(oplist0) + multiset(Numbered(iface, Methods(body)))
  {
    hide SortedIn, Methods, AttrOps, Numbered;
    oplist := oplist0;
    var idx := 0;
    assert body[..0] == [];
    NothingAdded(oplist0, iface);
    for k := 0 to |body|
      invariant idx == |Methods(body[..k])|
      invariant SortedIn(oplist, oplist0, iface, Methods(body[..k]))
    {
      assert body[..k + 1] == body[..k] + [body[k]];
      MethodsAppend(body[..k], body[k]);
      match body[k] {
        case Operation(name) =>
          oplist := AddOp(iface, name, idx, oplist, oplist0, Methods(body[..k]));
          idx := idx + 1;
        case Attribute(readonly, attrs) =>
          oplist, idx := AddAttributes(iface, readonly, attrs, idx, oplist, oplist0, Methods(body[..k]));
        case OtherDecl =>
          assert Methods(body[..k]) + [] == Methods(body[..k]);
      }
    }
    assert body[..|body|] == body;
    AllAdded(oplist, oplist0, iface, Methods(body));
  }

  lemma NothingAdded(oplist: seq<OpInfo>, iface: nat)
    requires Sorted(oplist)
    ensures SortedIn(oplist, oplist, iface, []) && Methods([]) == []
  {
    assert Numbered(iface, []) == [];
  }

  lemma AllAdded(oplist: seq<OpInfo>, oplist0: seq<OpInfo>, iface: nat, names: seq<Ident>)
    requires SortedIn(oplist, oplist0, iface, names)
    ensures Sorted(oplist) && multiset(oplist) == multiset(oplist0) + multiset(Numbered(iface, names))
  {
  }

  /** One attribute declaration: an entry to get each attribute, and one to set it right after. */
  method AddAttributes(iface: nat, readonly: bool, attrs: seq<Ident>, idx0: nat, oplist1: seq<OpInfo>,
                       ghost oplist0: seq<OpInfo>, ghost names: seq<Ident>)
    returns (oplist: seq<OpInfo>, idx: nat)
    requires SortedIn(oplist1, oplist0, iface, names) && idx0 == |names|
    ensures SortedIn(oplist, oplist0, iface, names + AttrOps(readonly, attrs)) && idx == |names + AttrOps(readonly, attrs)|
  {
    hide SortedIn;
    oplist, idx := oplist1, idx0;
    ghost var all := names;
    for a := 0 to |attrs|
      invariant all == names + AttrOps(readonly, attrs[..a]) && idx == |all|
      invariant SortedIn(oplist, oplist0, iface, all)
    {
      assert attrs[..a + 1] == attrs[..a] + [attrs[a]];
      AttrOpsAppend(readonly, attrs[..a], attrs[a]);
      oplist := AddOp(iface, "_get_" + attrs[a], idx, oplist, oplist0, all);
      idx := idx + 1;
      all := all + ["_get_" + attrs[a]];
      if !readonly {
        oplist := AddOp(iface, "_set_" + attrs[a], idx, oplist, oplist0, all);
        idx := idx + 1;
        all := all + ["_set_" + attrs[a]];
      }
    }
    assert attrs[..|attrs|] == attrs;
  }

  /** The operations of all listed interfaces. */
  ghost function AllOps(prog: Program, order: seq<nat>): seq<OpInfo>
    requires forall a :: a in order ==> a in prog
  {
    if order == [] then []
    else AllOps(prog, order[..|order| - 1]) + Numbered(order[|order| - 1], Methods(prog[order[|order| - 1]].body))
  }

  lemma {:induction false} AllOpsMembers(prog: Program, order: seq<nat>, op: OpInfo)
    requires forall a :: a in order ==> a in prog
    ensures op in AllOps(prog, order) <==>
      && op.ifaceId in order
      && op.idx < |Methods(prog[op.ifaceId].body)|
      && op.opname == Methods(prog[op.ifaceId].body)[op.idx]
  {
    if order != [] {
      var last := order[|order| - 1];
      AllOpsMembers(prog, order[..|order| - 1], op);
      var names := Methods(prog[last].body);
      assert order == order[..|order| - 1] + [last];
      if op.ifaceId == last && op.idx < |names| && op.opname == names[op.idx] {
        assert Numbered(last, names)[op.idx] == op;
      }
    }
  }

  /** Every operation is listed once. */
  lemma {:induction false} AllOpsOnce(prog: Program, order: seq<nat>, op: OpInfo)
    requires forall a :: a in order ==> a in prog
    requires NoDuplicates(order)
    ensures multiset(AllOps(prog, order))[op] <= 1
  {
    if order != [] {
      var last := order[|order| - 1];
      var init := order[..|order| - 1];
      AllOpsOnce(prog, init, op);
      AllOpsMembers(prog, init, op);
      if op.ifaceId == last {
        assert last !in init;
      }
      NumberedOnce(last, Methods(prog[last].body), op);
    }
  }

  lemma {:induction false} NumberedOnce(iface: nat, names: seq<Ident>, op: OpInfo)
    ensures multiset(Numbered(iface, names))[op] <= 1
    ensures op in Numbered(iface, names) ==> op.ifaceId == iface && op.idx < |names|
  {
    if names != [] {
      var init := names[..|names| - 1];
      assert names == init + [names[|names| - 1]];
      NumberedAppend(iface, init, names[|names| - 1]);
      NumberedOnce(iface, init, op);
    }
  }

  lemma CountedTwice(ops: seq<OpInfo>, i: nat, j: nat)
    requires i < j < |ops| && ops[i] == ops[j]
    ensures multiset(ops)[ops[i]] >= 2
  {
    assert ops == ops[..j] + ops[j..];
    assert ops[..j][i] in multiset(ops[..j]) && ops[j..][0] in multiset(ops[j..]);
  }

  /** Distinctness of names depends only on which operations are listed, and how often. */
  lemma {:induction false} DistinctByMultiset(ops: seq<OpInfo>)
    requires forall op :: multiset(ops)[op] <= 1
    ensures DistinctNames(ops) <==>
      forall x, y | x in ops && y in ops :: x.opname == y.opname ==> x == y
  {
    if DistinctNames(ops) {
      forall x, y | x in ops && y in ops && x.opname == y.opname ensures x == y {
        var i :| 0 <= i < |ops| && ops[i] == x;
        var j :| 0 <= j < |ops| && ops[j] == y;
      }
    } else {
      var i, j :| 0 <= i < j < |ops| && ops[i].opname == ops[j].opname;
      if ops[i] == ops[j] {
        CountedTwice(ops, i, j);
      }
    }
  }

  /** What a caller of the generated dispatcher may rely on. */
  ghost predicate Dispatches(prog: Program, p: nat, out: Outcome, s: Ident)
    requires Closed(prog)
  {
    match out
    case Returned(op) =>
      && Ancestor(prog, p, op.ifaceId) && op.ifaceId in prog
      && op.opname == s
      && op.idx < |Methods(prog[op.ifaceId].body)| && Methods(prog[op.ifaceId].body)[op.idx] == s
    case Fell =>
      forall a | a in prog && Ancestor(prog, p, a) :: s !in Methods(prog[a].body)
    case BadRead => false
  }

  /** No two methods of the interface and its ancestors have the same name. */
  ghost predicate NoClash(prog: Program, p: nat) {
    forall a, b | a in prog && b in prog && Ancestor(prog, p, a) && Ancestor(prog, p, b) ::
      forall i, j | 0 <= i < |Methods(prog[a].body)| && 0 <= j < |Methods(prog[b].body)| ::
        Methods(prog[a].body)[i] == Methods(prog[b].body)[j] ==> a == b && i == j
  }

  /** The dispatcher finds exactly what the interface and its ancestors declare: operations, getters, and setters of
      attributes that are not read-only. */
  lemma DispatchesDeclared(prog: Program, p: nat, out: Outcome, s: Ident)
    requires Closed(prog) && Dispatches(prog, p, out, s)
    ensures out.Returned? <==> exists a :: a in prog && Ancestor(prog, p, a) && Declared(prog[a].body, s)
    ensures out.Returned? ==> Declared(prog[out.op.ifaceId].body, s)
  {
    forall a | a in prog ensures s in Methods(prog[a].body) <==> Declared(prog[a].body, s) {
      MethodsDeclared(prog[a].body, s);
    }
  }

  /** cbe_skel_interface_print_relayer: the dispatcher of a whole interface. */
  method PrintRelayer(prog: Program, p: nat, ghost rank: map<nat, nat>) returns (g: Generated)
    requires Ranked(prog, rank) && p in prog
    ensures g.Generated? <==> NoClash(prog, p)
    ensures g.Generated? ==> LabelsDistinct(g.sw)
    ensures g.Generated? ==> forall s: Ident :: Dispatches(prog, p, Run(g.sw, s), s)
  {
    var order := TraverseParents(prog, p, true, rank);
    forall a | a in order ensures a in prog {
      AncestorRank(prog, rank, p, a);
    }
    var oplist: seq<OpInfo> := [];
    for k := 0 to |order|
      invariant Sorted(oplist)
      invariant multiset(oplist) == multiset(AllOps(prog, order[..k]))
    {
      assert order[..k + 1][..k] == order[..k];
      oplist := AddRelayer(order[k], prog[order[k]].body, oplist);
    }
    assert order[..|order|] == order;
    g := PrintRelayers(oplist, 0, "");
    ListedOps(prog, p, order, oplist);
    if g.Generated? {
      forall s: Ident ensures Dispatches(prog, p, Run(g.sw, s), s) {
        AnswersDispatch(prog, p, order, oplist, Run(g.sw, s), s);
      }
    }
  }

  lemma SameMembers(a: seq<OpInfo>, b: seq<OpInfo>, op: OpInfo)
    requires multiset(a) == multiset(b)
    ensures op in a <==> op in b
  {
    assert op in a <==> op in multiset(a);
    assert op in b <==> op in multiset(b);
  }

  lemma AnswersDispatch(prog: Program, p: nat, order: seq<nat>, oplist: seq<OpInfo>, out: Outcome, s: Ident)
    requires Closed(prog) && forall a :: a in order ==> a in prog
    requires forall a :: a in order <==> Ancestor(prog, p, a)
    requires multiset(oplist) == multiset(AllOps(prog, order))
    requires Answers(out, oplist, s)
    ensures Dispatches(prog, p, out, s)
  {
    forall op ensures op in oplist <==> op in AllOps(prog, order) {
      SameMembers(oplist, AllOps(prog, order), op);
    }
    match out {
      case Returned(op) =>
        AllOpsMembers(prog, order, op);
      case Fell =>
        forall a | a in prog && Ancestor(prog, p, a) ensures s !in Methods(prog[a].body) {
          if s in Methods(prog[a].body) {
            var i :| 0 <= i < |Methods(prog[a].body)| && Methods(prog[a].body)[i] == s;
            var op := OpInfo(a, s, i);
            AllOpsMembers(prog, order, op);
          }
        }
    }
  }

  lemma ListedOps(prog: Program, p: nat, order: seq<nat>, oplist: seq<OpInfo>)
    requires Closed(prog) && (forall a :: a in order ==> a in prog) && NoDuplicates(order)
    requires forall a :: a in order <==> Ancestor(prog, p, a)
    requires multiset(oplist) == multiset(AllOps(prog, order))
    ensures DistinctNames(oplist) <==> NoClash(prog, p)
  {
    forall op ensures multiset(oplist)[op] <= 1 {
      AllOpsOnce(prog, order, op);
    }
    DistinctByMultiset(oplist);
    forall op ensures op in oplist <==> op in AllOps(prog, order) {
      SameMembers(oplist, AllOps(prog, order), op);
    }
    if DistinctNames(oplist) {
      forall a, b, i, j | a in prog && b in prog && Ancestor(prog, p, a) && Ancestor(prog, p, b)
        && 0 <= i < |Methods(prog[a].body)| && 0 <= j < |Methods(prog[b].body)|
        && Methods(prog[a].body)[i] == Methods(prog[b].body)[j]
        ensures a == b && i == j
      {
        var x, y := OpInfo(a, Methods(prog[a].body)[i], i), OpInfo(b, Methods(prog[b].body)[j], j);
        AllOpsMembers(prog, order, x);
        AllOpsMembers(prog, order, y);
        assert x in oplist && y in oplist;
      }
    }
    if NoClash(prog, p) {
      forall x, y | x in oplist && y in oplist && x.opname == y.opname ensures x == y {
        AllOpsMembers(prog, order, x);
        AllOpsMembers(prog, order, y);
        assert x in AllOps(prog, order) && y in AllOps(prog, order);
      }
    }
  }

  // ----- the other two places that number methods -----

  /** The parts of an IDL file the back end walks. */
  datatype IdlTree =
    | Module(defs: seq<IdlTree>)
    | InterfaceDcl(id: nat, body: seq<Decl>)
    | OtherTree

  /** An interface's entry in the interface list: its method table under construction. */
  datatype MethodTable = MethodTable(iface: nat, methods: seq<Ident>)

  /** A stub passes method number `idx` of `iface` to the ORB. */
  datatype Stub = Stub(iface: nat, idx: nat, opname: Ident)

  function TablesOf(t: IdlTree): seq<MethodTable> {
    match t
    case Module(defs) => TablesOfAll(defs)
    case InterfaceDcl(id, body) => [MethodTable(id, Methods(body))]
    case OtherTree => []
  }

  function TablesOfAll(ts: seq<IdlTree>): seq<MethodTable> {
    if ts == [] then [] else TablesOf(ts[0]) + TablesOfAll(ts[1..])
  }

  /** The stubs a list of method tables calls for: one a method, numbered as in its table. */
  ghost function StubsOf(tables: seq<MethodTable>): seq<Stub> {
    if tables == [] then []
    else StubsOf(tables[..|tables| - 1]) + TableStubs(tables[|tables| - 1])
  }

  ghost function TableStubs(t: MethodTable): (r: seq<Stub>)
    ensures |r| == |t.methods|
  {
    seq(|t.methods|, i requires 0 <= i < |t.methods| => Stub(t.iface, i, t.methods[i]))
  }

  lemma {:induction false} TablesAppend(ts: seq<IdlTree>, t: IdlTree)
    ensures TablesOfAll(ts + [t]) == TablesOfAll(ts) + TablesOf(t)
  {
    if ts == [] {
      assert ([t])[1..] == [];
    } else {
      assert (ts + [t])[1..] == ts[1..] + [t];
      TablesAppend(ts[1..], t);
    }
  }

  lemma {:induction false} StubsAppend(a: seq<MethodTable>, b: seq<MethodTable>)
    ensures StubsOf(a + b) == StubsOf(a) + StubsOf(b)
  {
    if b == [] {
      assert a + b == a;
    } else {
      var b0 := b[..|b| - 1];
      assert (a + b)[..|a + b| - 1] == a + b0;
      StubsAppend(a, b0);
    }
  }

  /** cc_build_interfaces: every interface gets an entry, and every method is appended to the last one. */
  method BuildInterfaces(list0: seq<MethodTable>, t: IdlTree) returns (list: seq<MethodTable>)
    ensures list == list0 + TablesOf(t)
    decreases t
  {
    list := list0;
    match t {
      case Module(defs) =>
        for k := 0 to |defs|
          invariant list == list0 + TablesOfAll(defs[..k])
        {
          assert defs[..k + 1] == defs[..k] + [defs[k]];
          TablesAppend(defs[..k], defs[k]);
          list := BuildInterfaces(list, defs[k]);
        }
        assert defs[..|defs|] == defs;
      case InterfaceDcl(id, body) =>
        list := list + [MethodTable(id, [])];
        for k := 0 to |body|
          invariant list == list0 + [MethodTable(id, Methods(body[..k]))]
        {
          assert body[..k + 1] == body[..k] + [body[k]];
          MethodsAppend(body[..k], body[k]);
          list := BuildMethods(list, body[k]);
        }
        assert body[..|body|] == body;
      case OtherTree =>
    }
  }

  /** cc_build_interfaces on an operation or attribute declaration. */
  method BuildMethods(list0: seq<MethodTable>, d: Decl) returns (list: seq<MethodTable>)
    requires list0 != []
    ensures var last := list0[|list0| - 1];
      list == list0[|list0| - 1 := MethodTable(last.iface, last.methods + DeclOps(d))]
  {
    list := list0;
    var last := |list0| - 1;
    match d {
      case Operation(name) =>
        list := list[last := MethodTable(list[last].iface, list[last].methods + [name])];
      case Attribute(readonly, names) =>
        assert list0[last].methods + [] == list0[last].methods;
        for a := 0 to |names|
          invariant list == list0[last := MethodTable(list0[last].iface, list0[last].methods + AttrOps(readonly, names[..a]))]
        {
          assert names[..a + 1] == names[..a] + [names[a]];
          AttrOpsAppend(readonly, names[..a], names[a]);
          list := list[last := MethodTable(list[last].iface, list[last].methods + ["_get_" + names[a]])];
          if !readonly {
            list := list[last := MethodTable(list[last].iface, list[last].methods + ["_set_" + names[a]])];
          }
          assert list[last].methods == list0[last].methods + AttrOps(readonly, names[..a + 1]);
        }
        assert names[..|names|] == names;
      case OtherDecl =>
        assert list[last].methods + [] == list[last].methods;
    }
  }

  /** cs_output_stubs: the stub of every method carries the method's index in its interface's table. */
  method OutputStubs(t: IdlTree, out0: seq<Stub>) returns (out: seq<Stub>)
    ensures out == out0 + StubsOf(TablesOf(t))
    decreases t
  {
    hide StubsOf;
    StubsOfNone();
    out := out0;
    match t {
      case Module(defs) =>
        for k := 0 to |defs|
          invariant out == out0 + StubsOf(TablesOfAll(defs[..k]))
        {
          assert defs[..k + 1] == defs[..k] + [defs[k]];
          TablesAppend(defs[..k], defs[k]);
          StubsAppend(TablesOfAll(defs[..k]), TablesOf(defs[k]));
          out := OutputStubs(defs[k], out);
        }
        assert defs[..|defs|] == defs;
      case InterfaceDcl(id, body) => out := OutputInterface(id, body, out);
      case OtherTree =>
        assert out0 + [] == out0;
    }
  }

  lemma StubsOfNone()
    ensures StubsOf([]) == []
  {
  }

  method OutputInterface(id: nat, body: seq<Decl>, out0: seq<Stub>) returns (out: seq<Stub>)
    ensures out == out0 + StubsOf([MethodTable(id, Methods(body))])
  {
    hide TableStubs, StubsOf;
    out := out0;
    var realIdx := 0;
    assert body[..0] == [];
    NoStubs(id);
    assert out0 + [] == out0;
    for k := 0 to |body|
      invariant realIdx == |Methods(body[..k])|
      invariant out == out0 + TableStubs(MethodTable(id, Methods(body[..k])))
    {
      assert body[..k + 1] == body[..k] + [body[k]];
      MethodsAppend(body[..k], body[k]);
      out, realIdx := OutputStub(id, body[k], realIdx, out, out0, Methods(body[..k]));
    }
    assert body[..|body|] == body;
    StubsOfOne(MethodTable(id, Methods(body)));
  }

  lemma NoStubs(id: nat)
    ensures TableStubs(MethodTable(id, [])) == []
  {
  }

  lemma OneMoreStub(iface: nat, done: seq<Ident>, name: Ident)
    ensures TableStubs(MethodTable(iface, done + [name])) == TableStubs(MethodTable(iface, done)) + [Stub(iface, |done|, name)]
  {
  }

  lemma StubsOfOne(t: MethodTable)
    ensures StubsOf([t]) == TableStubs(t)
  {
    assert ([t])[..0] == [];
  }

  /** cs_output_stubs and cs_output_stub on one declaration, counting in `idx0`. */
  method OutputStub(iface: nat, d: Decl, idx0: nat, out1: seq<Stub>, ghost out0: seq<Stub>, ghost done: seq<Ident>)
    returns (out: seq<Stub>, idx: nat)
    requires idx0 == |done| && out1 == out0 + TableStubs(MethodTable(iface, done))
    ensures idx == |done + DeclOps(d)|
    ensures out == out0 + TableStubs(MethodTable(iface, done + DeclOps(d)))
  {
    hide TableStubs;
    out, idx := out1, idx0;
    match d {
      case Operation(name) =>
        OneMoreStub(iface, done, name);
        out, idx := out + [Stub(iface, idx, name)], idx + 1;
      case Attribute(readonly, names) => out, idx := OutputAttributes(iface, readonly, names, idx, out, out0, done);
      case OtherDecl =>
        assert done + [] == done;
    }
  }

  method OutputAttributes(iface: nat, readonly: bool, names: seq<Ident>, idx0: nat, out1: seq<Stub>,
                          ghost out0: seq<Stub>, ghost done: seq<Ident>)
    returns (out: seq<Stub>, idx: nat)
    requires idx0 == |done| && out1 == out0 + TableStubs(MethodTable(iface, done))
    ensures idx == |done + AttrOps(readonly, names)|
    ensures out == out0 + TableStubs(MethodTable(iface, done + AttrOps(readonly, names)))
  {
    hide TableStubs;
    out, idx := out1, idx0;
    ghost var all := done;
    for a := 0 to |names|
      invariant all == done + AttrOps(readonly, names[..a]) && idx == |all|
      invariant out == out0 + TableStubs(MethodTable(iface, all))
    {
      assert names[..a + 1] == names[..a] + [names[a]];
      AttrOpsAppend(readonly, names[..a], names[a]);
      OneMoreStub(iface, all, "_get_" + names[a]);
      out, idx := out + [Stub(iface, idx, "_get_" + names[a])], idx + 1;
      all := all + ["_get_" + names[a]];
      if !readonly {
        OneMoreStub(iface, all, "_set_" + names[a]);
        out, idx := out + [Stub(iface, idx, "_set_" + names[a])], idx + 1;
        all := all + ["_set_" + names[a]];
      }
    }
    assert names[..|names|] == names;
  }

  /** The three numberings agree: for every interface of the file, the stub numbered k, row k of the
      method table and the skeleton entry numbered k carry the same name. */
  lemma NumberingsAgree(tables: seq<MethodTable>, t: MethodTable, k: nat)
    requires t in tables && k < |t.methods|
    ensures Stub(t.iface, k, t.methods[k]) in StubsOf(tables)
    ensures OpInfo(t.iface, t.methods[k], k) in Numbered(t.iface, t.methods)
  {
    var i :| 0 <= i < |tables| && tables[i] == t;
    assert tables == tables[..i] + [t] + tables[i + 1..];
    StubsAppend(tables[..i] + [t], tables[i + 1..]);
    StubsAppend(tables[..i], [t]);
    StubsOfOne(t);
    assert TableStubs(t)[k] == Stub(t.iface, k, t.methods[k]);
    assert Numbered(t.iface, t.methods)[k] == OpInfo(t.iface, t.methods[k], k);
  }
}

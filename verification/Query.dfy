/** Filter expressions: building them with `&`, `|`, `~` and where-dicts, emitting them
    as post-order node arrays, and rebuilding them on the other side of the FFI. */
module Query {
  import opened Bytes
  import opened Values

  datatype LeafOp =
    | Eq | Ne | Lt | Le | Gt | Ge | In | IsNull | IsNotNull | StartsWith | Contains | Like | ILike

  datatype LogicOp = And | Or | Not

  datatype Expr =
    | Leaf(leafOp: LeafOp, column: string, values: seq<PropValue>)
    | Logic(op: LogicOp, children: seq<Expr>)

  /** The truth of one comparison on the row at hand. */
  type Truth = (LeafOp, string, seq<PropValue>) -> bool

  predicate Eval(e: Expr, truth: Truth)
    decreases e, 0
  {
    match e
    case Leaf(op, column, values) => truth(op, column, values)
    case Logic(And, es) => forall i :: 0 <= i < |es| ==> Eval(es[i], truth)
    case Logic(Or, es) => exists i :: 0 <= i < |es| && Eval(es[i], truth)
    case Logic(Not, es) => |es| == 1 && !Eval(es[0], truth)
  }

  // ----- building -----

  predicate Is(op: LogicOp, e: Expr) {
    e.Logic? && e.op == op
  }

  function Parts(op: LogicOp, e: Expr): seq<Expr> {
    if Is(op, e) then e.children else [e]
  }

  method FlattenSame(op: LogicOp, a: Expr, b: Expr) returns (parts: seq<Expr>)
    ensures parts == Parts(op, a) + Parts(op, b)
  {
    parts := [];
    var pair := [a, b];
    for i := 0 to 2
      invariant parts == (if i > 0 then Parts(op, a) else []) + (if i > 1 then Parts(op, b) else [])
    {
      if pair[i].Logic? && pair[i].op == op {
        parts := parts + pair[i].children;
      } else {
        parts := parts + [pair[i]];
      }
    }
  }

  function Both(op: LogicOp, a: Expr, b: Expr): Expr {
    Logic(op, Parts(op, a) + Parts(op, b))
  }

  function Invert(a: Expr): Expr {
    Logic(Not, [a])
  }

  /** Flattening keeps the meaning of the operators, for every row. */
  lemma OperatorMeaning(a: Expr, b: Expr, truth: Truth)
    ensures Eval(Both(And, a, b), truth) <==> Eval(a, truth) && Eval(b, truth)
    ensures Eval(Both(Or, a, b), truth) <==> Eval(a, truth) || Eval(b, truth)
    ensures Eval(Invert(a), truth) <==> !Eval(a, truth)
  {
    EvalConcat(Parts(And, a), Parts(And, b), truth);
    EvalConcat(Parts(Or, a), Parts(Or, b), truth);
    PartsMeaning(a, truth);
    PartsMeaning(b, truth);
  }

  lemma PartsMeaning(e: Expr, truth: Truth)
    ensures Eval(Logic(And, Parts(And, e)), truth) <==> Eval(e, truth)
    ensures Eval(Logic(Or, Parts(Or, e)), truth) <==> Eval(e, truth)
  {
    if !Is(And, e) {
      assert Parts(And, e)[0] == e;
    }
    if !Is(Or, e) {
      assert Parts(Or, e)[0] == e;
    }
  }

  lemma EvalConcat(xs: seq<Expr>, ys: seq<Expr>, truth: Truth)
    ensures Eval(Logic(And, xs + ys), truth) <==> Eval(Logic(And, xs), truth) && Eval(Logic(And, ys), truth)
    ensures Eval(Logic(Or, xs + ys), truth) <==> Eval(Logic(Or, xs), truth) || Eval(Logic(Or, ys), truth)
  {
    var zs := xs + ys;
    assert forall i :: 0 <= i < |xs| ==> zs[i] == xs[i];
    assert forall i :: 0 <= i < |ys| ==> zs[|xs| + i] == ys[i];
  }

  /** No AND has an AND child and no OR an OR child, anywhere. */
  predicate Flat(e: Expr) {
    e.Logic? ==>
      forall i :: 0 <= i < |e.children| ==> Flat(e.children[i]) && (e.op != Not ==> !Is(e.op, e.children[i]))
  }

  lemma OperatorsKeepFlat(a: Expr, b: Expr)
    requires Flat(a) && Flat(b)
    ensures Flat(Both(And, a, b)) && Flat(Both(Or, a, b)) && Flat(Invert(a))
  {
  }

  function EqLeaf(kv: (string, PropValue)): Expr {
    Leaf(Eq, kv.0, [kv.1])
  }

  /** `_where_expr` on a dict, in its iteration order: none for an empty dict, else a flat
      conjunction of the equalities. */
  method WhereExpr(where: seq<(string, PropValue)>) returns (r: Option<Expr>)
    ensures r.None? <==> where == []
    ensures r.Some? ==> Flat(r.value)
    ensures r.Some? ==> forall truth: Truth ::
      Eval(r.value, truth) <==> forall i :: 0 <= i < |where| ==> truth(Eq, where[i].0, [where[i].1])
  {
    if where == [] {
      return None;
    }
    var combined := EqLeaf(where[0]);
    for i := 1 to |where|
      invariant Flat(combined)
      invariant forall truth: Truth ::
        Eval(combined, truth) <==> forall j :: 0 <= j < i ==> truth(Eq, where[j].0, [where[j].1])
    {
      var e := EqLeaf(where[i]);
      OperatorsKeepFlat(combined, e);
      forall truth: Truth
        ensures Eval(Both(And, combined, e), truth) <==>
                Eval(combined, truth) && truth(Eq, where[i].0, [where[i].1])
      {
        OperatorMeaning(combined, e, truth);
      }
      var parts := FlattenSame(And, combined, e);
      combined := Logic(And, parts);
    }
    return Some(combined);
  }

  // ----- emitting -----

  datatype NodeOp = L(leaf: LeafOp) | G(logic: LogicOp)

  /** One node of a filter on the wire. */
  datatype Node = Node(op: NodeOp, column: Option<string>, values: seq<PropValue>, children: seq<nat>)

  function Size(e: Expr): nat
    decreases e
  {
    if e.Leaf? then 1 else SizeAll(e.children, |e.children|) + 1
  }

  /** The size of the first `k` of `es`; likewise `k` below. */
  function SizeAll(es: seq<Expr>, k: nat): nat
    requires k <= |es|
    decreases es, k
  {
    if k == 0 then 0 else SizeAll(es, k - 1) + Size(es[k - 1])
  }

  /** The nodes `e` adds to a list that already holds `base` nodes. */
  function Emitted(e: Expr, base: nat): (r: seq<Node>)
    ensures |r| == Size(e) > 0
    decreases e
  {
    match e
    case Leaf(op, column, values) => [Node(L(op), Some(column), values, [])]
    case Logic(op, es) => EmittedAll(es, |es|, base) + [Node(G(op), None, [], Roots(es, |es|, base))]
  }

  function EmittedAll(es: seq<Expr>, k: nat, base: nat): (r: seq<Node>)
    requires k <= |es|
    ensures |r| == SizeAll(es, k)
    decreases es, k
  {
    if k == 0 then [] else EmittedAll(es, k - 1, base) + Emitted(es[k - 1], base + SizeAll(es, k - 1))
  }

  /** Where the root of child `i` ends up. */
  function Root(es: seq<Expr>, i: nat, base: nat): nat
    requires i < |es|
  {
    SizePositive(es[i]);
    base + SizeAll(es, i + 1) - 1
  }

  function Roots(es: seq<Expr>, k: nat, base: nat): (r: seq<nat>)
    requires k <= |es|
  {
    seq(k, i requires 0 <= i < k => Root(es, i, base))
  }

  lemma SizePositive(e: Expr)
    ensures Size(e) > 0
  {
  }

  /** The list shared by one `_emit` recursion. */
  class NodeList {
    var nodes: seq<Node>

    constructor ()
      ensures nodes == []
    {
      nodes := [];
    }

    /** Appends without disturbing earlier nodes, and returns the index of the root. */
    method Emit(e: Expr) returns (index: nat)
      modifies this
      ensures nodes == old(nodes) + Emitted(e, |old(nodes)|)
      ensures index == |nodes| - 1
      decreases e
    {
      match e
      case Leaf(op, column, values) =>
        nodes := nodes + [Node(L(op), Some(column), values, [])];
        index := |nodes| - 1;
      case Logic(op, es) =>
        var indices := [];
        ghost var base := |nodes|;
        for i := 0 to |es|
          invariant indices == Roots(es, i, base)
          invariant nodes == old(nodes) + EmittedAll(es, i, base)
        {
          var root := Emit(es[i]);
          indices := indices + [root];
        }
        nodes := nodes + [Node(G(op), None, [], indices)];
        index := |nodes| - 1;
    }
  }

  // ----- rebuilding -----

  /** What each operator asks of its values. */
  predicate ValuesFit(op: LeafOp, values: seq<PropValue>) {
    match op
    case In => true
    case IsNull => true
    case IsNotNull => true
    case StartsWith => |values| == 1 && values[0].Str?
    case Like => |values| == 1 && values[0].Str?
    case ILike => |values| == 1 && values[0].Str?
    case _ => |values| == 1
  }

  predicate NodeFits(n: Node) {
    match n.op
    case L(op) => n.column.Some? && ValuesFit(op, n.values)
    case G(Not) => |n.children| == 1
    case G(_) => true
  }

  predicate NoDuplicates(cs: seq<nat>) {
    forall a, b :: 0 <= a < b < |cs| ==> cs[a] != cs[b]
  }

  /** Every child names a full slot, and none twice. */
  predicate CanTake(built: seq<Option<Expr>>, cs: seq<nat>) {
    NoDuplicates(cs) && forall k :: 0 <= k < |cs| ==> cs[k] < |built| && built[cs[k]].Some?
  }

  function Taken(built: seq<Option<Expr>>, cs: seq<nat>): seq<Expr>
    requires CanTake(built, cs)
  {
    seq(|cs|, k requires 0 <= k < |cs| => built[cs[k]].value)
  }

  function Emptied(built: seq<Option<Expr>>, cs: seq<nat>): seq<Option<Expr>> {
    seq(|built|, j requires 0 <= j < |built| => if j in cs then None else built[j])
  }

  /** The expression a node stands for. Only AND, OR and NOT look at the children. */
  function Assemble(n: Node, children: seq<Expr>): Expr
    requires NodeFits(n)
  {
    match n.op
    case L(op) => Leaf(op, n.column.value, if op == IsNull || op == IsNotNull then [] else n.values)
    case G(op) => Logic(op, children)
  }

  /** One node: take its children, then add its own slot. */
  function Place(built: seq<Option<Expr>>, n: Node): (r: Option<seq<Option<Expr>>>)
    ensures r.Some? ==> |r.value| == |built| + 1
  {
    if CanTake(built, n.children) && NodeFits(n)
    then Some(Emptied(built, n.children) + [Some(Assemble(n, Taken(built, n.children)))])
    else None
  }

  /** The slots after placing `nodes` one by one. */
  function Feed(built: seq<Option<Expr>>, nodes: seq<Node>): (r: Option<seq<Option<Expr>>>)
    ensures r.Some? ==> |r.value| == |built| + |nodes|
    decreases |nodes|
  {
    if nodes == [] then Some(built)
    else match Feed(built, nodes[..|nodes| - 1])
      case None => None
      case Some(mid) => Place(mid, nodes[|nodes| - 1])
  }

  function Slots(nodes: seq<Node>): (r: Option<seq<Option<Expr>>>)
    ensures r.Some? ==> |r.value| == |nodes|
  {
    Feed([], nodes)
  }

  datatype Rebuilt = Invalid | NoFilter | Filter(expr: Expr)

  function Rebuild(nodes: seq<Node>): Rebuilt {
    if nodes == [] then NoFilter
    else match Slots(nodes)
      case None => Invalid
      case Some(slots) =>
        var last := |nodes| - 1;
        if exists j :: 0 <= j < last && slots[j].Some? then Invalid
        else if slots[last].None? then NoFilter
        else Filter(slots[last].value)
  }

  lemma {:induction false} SlotsFail(nodes: seq<Node>, i: nat)
    requires i <= |nodes| && Slots(nodes[..i]).None?
    ensures Slots(nodes).None?
    decreases |nodes| - i
  {
    if i < |nodes| {
      assert nodes[..i + 1][..i] == nodes[..i];
      SlotsFail(nodes, i + 1);
    } else {
      assert nodes[..i] == nodes;
    }
  }

  /** The inner loop of `build_expr`: moving a node's children out of their slots. */
  method TakeChildren(slots: seq<Option<Expr>>, cs: seq<nat>)
    returns (ok: bool, children: seq<Expr>, built: seq<Option<Expr>>)
    ensures ok <==> CanTake(slots, cs)
    ensures ok ==> children == Taken(slots, cs) && built == Emptied(slots, cs)
  {
    children, built := [], slots;
    for k := 0 to |cs|
      invariant CanTake(slots, cs[..k])
      invariant children == Taken(slots, cs[..k])
      invariant built == Emptied(slots, cs[..k])
    {
      var c := cs[k];
      assert cs[..k + 1] == cs[..k] + [c];
      if c >= |built| || built[c].None? {
        return false, [], [];
      }
      children := children + [built[c].value];
      built := built[c := None];
    }
    assert cs[..|cs|] == cs;
    ok := true;
  }

  /** `build_expr`. */
  method BuildExpr(nodes: seq<Node>) returns (r: Rebuilt)
    ensures r == Rebuild(nodes)
  {
    if nodes == [] {
      return NoFilter;
    }
    var built: seq<Option<Expr>> := [];
    for i := 0 to |nodes|
      invariant Slots(nodes[..i]) == Some(built)
    {
      var n := nodes[i];
      assert nodes[..i + 1][..i] == nodes[..i];
      var ok, children, rest := TakeChildren(built, n.children);
      if !ok || !NodeFits(n) {
        SlotsFail(nodes, i + 1);
        return Invalid;
      }
      built := rest + [Some(Assemble(n, children))];
    }
    assert nodes[..|nodes|] == nodes;
    var root := built[|nodes| - 1];
    if exists j :: 0 <= j < |nodes| - 1 && built[j].Some? {
      return Invalid;
    }
    return if root.None? then NoFilter else Filter(root.value);
  }

  // ----- the round trip -----

  /** Leaves with the values their operator takes, and one child under NOT: what the
      column methods and operators produce. */
  predicate WellFormed(e: Expr) {
    match e
    case Leaf(op, _, values) => ValuesFit(op, values) && (op == IsNull || op == IsNotNull ==> values == [])
    case Logic(op, es) => (op == Not ==> |es| == 1) && forall i :: 0 <= i < |es| ==> WellFormed(es[i])
  }

  /** `r` extends `built` by the slots of `e`, all empty but the last. */
  predicate After(built: seq<Option<Expr>>, e: Expr, r: seq<Option<Expr>>) {
    && |r| == |built| + Size(e) && built <= r
    && (forall j :: |built| <= j < |r| - 1 ==> r[j].None?)
    && r[|r| - 1] == Some(e)
  }

  /** The slots of child `i` are empty but for its root. */
  predicate ChildSlots(es: seq<Expr>, i: nat, base: nat, r: seq<Option<Expr>>)
    requires i < |es|
  {
    && Root(es, i, base) < |r| && r[Root(es, i, base)] == Some(es[i])
    && forall j :: base + SizeAll(es, i) <= j < Root(es, i, base) ==> r[j].None?
  }

  /** `r` extends `built` by the slots of the first `k` of `es`. */
  predicate AfterAll(built: seq<Option<Expr>>, es: seq<Expr>, k: nat, r: seq<Option<Expr>>)
    requires k <= |es|
  {
    && |r| == |built| + SizeAll(es, k) && built <= r
    && forall i :: 0 <= i < k ==> ChildSlots(es, i, |built|, r)
  }

  lemma {:induction false} SizeAllGrows(es: seq<Expr>, i: nat, j: nat)
    requires i < j <= |es|
    ensures SizeAll(es, i + 1) <= SizeAll(es, j)
    decreases j
  {
    if i < j - 1 {
      SizeAllGrows(es, i, j - 1);
    }
  }

  lemma RootsDistinct(es: seq<Expr>, base: nat)
    ensures NoDuplicates(Roots(es, |es|, base))
  {
    forall i, j | 0 <= i < j < |es| ensures Root(es, i, base) < Root(es, j, base) {
      SizeAllGrows(es, i, j);
      SizePositive(es[j]);
    }
  }

  /** The child a slot belongs to. */
  lemma {:induction false} Locate(es: seq<Expr>, k: nat, p: nat) returns (i: nat)
    requires k <= |es| && p < SizeAll(es, k)
    ensures i < k && SizeAll(es, i) <= p < SizeAll(es, i + 1)
    decreases k
  {
    if SizeAll(es, k - 1) <= p {
      i := k - 1;
    } else {
      i := Locate(es, k - 1, p);
    }
  }

  lemma EmptiedRoots(built: seq<Option<Expr>>, es: seq<Expr>, mid: seq<Option<Expr>>, j: nat)
    requires AfterAll(built, es, |es|, mid) && |built| <= j < |mid|
    ensures mid[j].None? || j in Roots(es, |es|, |built|)
  {
    var i := Locate(es, |es|, j - |built|);
    assert ChildSlots(es, i, |built|, mid);
    assert Roots(es, |es|, |built|)[i] == Root(es, i, |built|);
  }

  lemma RootsTakeable(built: seq<Option<Expr>>, es: seq<Expr>, mid: seq<Option<Expr>>)
    requires AfterAll(built, es, |es|, mid)
    ensures var cs := Roots(es, |es|, |built|);
      CanTake(mid, cs) && Taken(mid, cs) == es && forall j :: 0 <= j < |built| ==> j !in cs
  {
    var cs := Roots(es, |es|, |built|);
    RootsDistinct(es, |built|);
    forall i | 0 <= i < |es| ensures |built| <= cs[i] < |mid| && mid[cs[i]] == Some(es[i]) {
      SizePositive(es[i]);
      assert ChildSlots(es, i, |built|, mid);
    }
  }

  /** Taking the roots empties every slot and returns the children in order. */
  lemma PlaceLogic(built: seq<Option<Expr>>, op: LogicOp, es: seq<Expr>, mid: seq<Option<Expr>>)
    requires AfterAll(built, es, |es|, mid) && WellFormed(Logic(op, es))
    ensures var n := Node(G(op), None, [], Roots(es, |es|, |built|));
      Place(mid, n).Some? && After(built, Logic(op, es), Place(mid, n).value)
  {
    var cs := Roots(es, |es|, |built|);
    RootsTakeable(built, es, mid);
    var rest := Emptied(mid, cs);
    forall j | |built| <= j < |mid| ensures rest[j].None? {
      EmptiedRoots(built, es, mid, j);
    }
    assert built <= rest;
  }

  lemma AfterNext(built: seq<Option<Expr>>, es: seq<Expr>, k: nat, mid: seq<Option<Expr>>, r: seq<Option<Expr>>)
    requires k < |es| && AfterAll(built, es, k, mid) && After(mid, es[k], r)
    ensures AfterAll(built, es, k + 1, r)
  {
    forall i | 0 <= i < k ensures ChildSlots(es, i, |built|, r) {
      assert ChildSlots(es, i, |built|, mid);
    }
    assert ChildSlots(es, k, |built|, r);
  }

  lemma {:induction false} FeedConcat(built: seq<Option<Expr>>, xs: seq<Node>, ys: seq<Node>)
    requires Feed(built, xs).Some?
    ensures Feed(built, xs + ys) == Feed(Feed(built, xs).value, ys)
    decreases |ys|
  {
    if ys == [] {
      assert xs + ys == xs;
    } else {
      var n := |ys| - 1;
      assert (xs + ys)[..|xs| + n] == xs + ys[..n];
      FeedConcat(built, xs, ys[..n]);
    }
  }

  lemma FeedOne(built: seq<Option<Expr>>, n: Node)
    ensures Feed(built, [n]) == Place(built, n)
  {
    assert [n][..0] == [];
  }

  /** Feeding an emitted expression fills one slot and leaves the others of its own empty. */
  lemma {:induction false} FeedEmitted(built: seq<Option<Expr>>, e: Expr, nodes: seq<Node>) returns (r: seq<Option<Expr>>)
    requires WellFormed(e) && nodes == Emitted(e, |built|)
    ensures Feed(built, nodes) == Some(r) && After(built, e, r)
    decreases e
  {
    match e
    case Leaf(op, column, values) =>
      var n := Node(L(op), Some(column), values, []);
      FeedOne(built, n);
      r := Place(built, n).value;
    case Logic(op, es) =>
      var inner := EmittedAll(es, |es|, |built|);
      var mid := FeedEmittedAll(built, es, |es|, inner);
      PlaceLogic(built, op, es, mid);
      var n := Node(G(op), None, [], Roots(es, |es|, |built|));
      r := Place(mid, n).value;
      FeedOne(mid, n);
      FeedChain(built, inner, mid, [n], r, nodes);
  }

  lemma {:induction false} FeedEmittedAll(built: seq<Option<Expr>>, es: seq<Expr>, k: nat, nodes: seq<Node>)
    returns (r: seq<Option<Expr>>)
    requires k <= |es| && forall i :: 0 <= i < |es| ==> WellFormed(es[i])
    requires nodes == EmittedAll(es, k, |built|)
    ensures Feed(built, nodes) == Some(r) && AfterAll(built, es, k, r)
    decreases es, k
  {
    if k == 0 {
      r := built;
    } else {
      var xs := EmittedAll(es, k - 1, |built|);
      var mid := FeedEmittedAll(built, es, k - 1, xs);
      var ys := Emitted(es[k - 1], |mid|);
      assert nodes == xs + ys;
      r := FeedEmitted(mid, es[k - 1], ys);
      AfterNext(built, es, k - 1, mid, r);
      FeedChain(built, xs, mid, ys, r, nodes);
    }
  }

  lemma {:induction false} FeedChain(
    built: seq<Option<Expr>>, xs: seq<Node>, mid: seq<Option<Expr>>, ys: seq<Node>, r: seq<Option<Expr>>, zs: seq<Node>)
    requires Feed(built, xs) == Some(mid) && Feed(mid, ys) == Some(r) && zs == xs + ys
    ensures Feed(built, zs) == Some(r)
  {
    FeedConcat(built, xs, ys);
  }

  /** Rebuilding an emitted filter gives the filter back. */
  lemma {:induction false} RoundTrip(e: Expr)
    requires WellFormed(e)
    ensures Rebuild(Emitted(e, 0)) == Filter(e)
  {
    var r := FeedEmitted([], e, Emitted(e, 0));
    RebuildRoot(Emitted(e, 0), e, r);
  }

  lemma RebuildRoot(nodes: seq<Node>, e: Expr, r: seq<Option<Expr>>)
    requires Slots(nodes) == Some(r) && After([], e, r)
    ensures Rebuild(nodes) == Filter(e)
  {
    SizePositive(e);
  }

  // ----- which arrays are accepted -----

  predicate Used(nodes: seq<Node>, j: nat) {
    exists i :: 0 <= i < |nodes| && j in nodes[i].children
  }

  /** The documented contract on the first nodes: children are earlier nodes, and no node
      is used twice. */
  predicate Contract(nodes: seq<Node>) {
    forall i :: 0 <= i < |nodes| ==>
      && NodeFits(nodes[i])
      && NoDuplicates(nodes[i].children)
      && forall c :: c in nodes[i].children ==> c < i && !Used(nodes[..i], c)
  }

  lemma UsedSnoc(nodes: seq<Node>, n: Node, j: nat)
    ensures Used(nodes + [n], j) <==> Used(nodes, j) || j in n.children
  {
    var all := nodes + [n];
    assert all[|nodes|] == n;
    assert forall i :: 0 <= i < |nodes| ==> all[i] == nodes[i];
  }

  lemma ContractSnoc(nodes: seq<Node>, n: Node)
    ensures Contract(nodes + [n]) <==>
      && Contract(nodes) && NodeFits(n) && NoDuplicates(n.children)
      && forall c :: c in n.children ==> c < |nodes| && !Used(nodes, c)
  {
    var all := nodes + [n];
    assert all[|nodes|] == n && all[..|nodes|] == nodes;
    assert forall i :: 0 <= i < |nodes| ==> all[i] == nodes[i] && all[..i] == nodes[..i];
  }

  lemma {:induction false} SlotsExactly(nodes: seq<Node>)
    ensures Slots(nodes).Some? <==> Contract(nodes)
    ensures Slots(nodes).Some? ==> FullAreUnused(nodes, Slots(nodes).value)
    decreases |nodes|
  {
    if nodes != [] {
      var init, n := nodes[..|nodes| - 1], nodes[|nodes| - 1];
      SlotsExactly(init);
      ContractSnoc(init, n);
      assert init + [n] == nodes;
      if Slots(init).Some? {
        PlaceExactly(init, n, Slots(init).value);
      }
    }
  }

  predicate FullAreUnused(nodes: seq<Node>, slots: seq<Option<Expr>>) {
    |slots| == |nodes| && forall j :: 0 <= j < |nodes| ==> (slots[j].Some? <==> !Used(nodes, j))
  }

  lemma PlaceExactly(init: seq<Node>, n: Node, built: seq<Option<Expr>>)
    requires Contract(init) && FullAreUnused(init, built)
    ensures Place(built, n).Some? <==>
      NodeFits(n) && NoDuplicates(n.children) && forall c :: c in n.children ==> c < |init| && !Used(init, c)
    ensures Place(built, n).Some? ==> FullAreUnused(init + [n], Place(built, n).value)
  {
    assert forall k :: 0 <= k < |n.children| ==> n.children[k] in n.children;
    if Place(built, n).Some? {
      forall j | 0 <= j <= |init| ensures Place(built, n).value[j].Some? <==> !Used(init + [n], j) {
        UsedSnoc(init, n, j);
        if j == |init| {
          NothingAhead(init, j);
        }
      }
    }
  }

  lemma NothingAhead(nodes: seq<Node>, j: nat)
    requires Contract(nodes) && j >= |nodes|
    ensures !Used(nodes, j)
  {
  }

  /** The decoder accepts exactly the arrays in which every child is an earlier node, every
      node but the last is used exactly once, and each node has the parts its operator needs. */
  lemma AcceptsExactlyTheContract(nodes: seq<Node>)
    requires nodes != []
    ensures Rebuild(nodes).Filter? <==> Contract(nodes) && forall j :: 0 <= j < |nodes| - 1 ==> Used(nodes, j)
    ensures !Rebuild(nodes).NoFilter?
  {
    SlotsExactly(nodes);
    if Slots(nodes).Some? {
      var last := |nodes| - 1;
      assert nodes == nodes[..last] + [nodes[last]];
      ContractSnoc(nodes[..last], nodes[last]);
      NothingAhead(nodes[..last], last);
      UsedSnoc(nodes[..last], nodes[last], last);
    }
  }

  /** Bottom-up truth values of the nodes. */
  function NodeTruths(nodes: seq<Node>, truth: Truth): (r: seq<bool>)
    ensures |r| == |nodes|
  {
    if nodes == [] then []
    else
      var init, n := nodes[..|nodes| - 1], nodes[|nodes| - 1];
      var below := NodeTruths(init, truth);
      below + [NodeTruth(n, below, truth)]
  }

  predicate NodeTruth(n: Node, below: seq<bool>, truth: Truth) {
    match n.op
    case L(op) =>
      n.column.Some? && truth(op, n.column.value, if op == IsNull || op == IsNotNull then [] else n.values)
    case G(And) => forall k :: 0 <= k < |n.children| ==> n.children[k] < |below| && below[n.children[k]]
    case G(Or) => exists k :: 0 <= k < |n.children| && n.children[k] < |below| && below[n.children[k]]
    case G(Not) => |n.children| == 1 && n.children[0] < |below| && !below[n.children[0]]
  }

  lemma {:induction false} SlotTruths(nodes: seq<Node>, truth: Truth)
    requires Slots(nodes).Some?
    ensures forall j :: 0 <= j < |nodes| && Slots(nodes).value[j].Some? ==>
      (Eval(Slots(nodes).value[j].value, truth) <==> NodeTruths(nodes, truth)[j])
    decreases |nodes|
  {
    if nodes != [] {
      var init, n := nodes[..|nodes| - 1], nodes[|nodes| - 1];
      SlotTruths(init, truth);
      var built, below := Slots(init).value, NodeTruths(init, truth);
      AssembledTruth(n, Taken(built, n.children), below, truth);
    }
  }

  lemma AssembledTruth(n: Node, children: seq<Expr>, below: seq<bool>, truth: Truth)
    requires NodeFits(n) && |children| == |n.children|
    requires forall k :: 0 <= k < |children| ==>
      n.children[k] < |below| && (Eval(children[k], truth) <==> below[n.children[k]])
    ensures Eval(Assemble(n, children), truth) <==> NodeTruth(n, below, truth)
  {
  }

  /** Whatever array is accepted, the expression rebuilt from it has, on every row, the
      truth value computed bottom-up over the array. */
  lemma {:induction false} RebuiltMeaning(nodes: seq<Node>, truth: Truth)
    requires Rebuild(nodes).Filter?
    ensures Eval(Rebuild(nodes).expr, truth) <==> NodeTruths(nodes, truth)[|nodes| - 1]
  {
    SlotTruths(nodes, truth);
  }

  /** A comparison node may name children: they count as used and are then dropped. */
  lemma LeafChildrenAreDropped()
    ensures
      var inner := Node(L(IsNull), Some("a"), [], []);
      var outer := Node(L(IsNull), Some("b"), [], [0]);
      Rebuild([inner, outer]) == Filter(Leaf(IsNull, "b", []))
  {
    var inner := Node(L(IsNull), Some("a"), [], []);
    var outer := Node(L(IsNull), Some("b"), [], [0]);
    var a := Leaf(IsNull, "a", []);
    FeedOne([], inner);
    assert [] + [Some(a)] == [Some(a)];
    assert Emptied([Some(a)], [0]) == [None];
    FeedConcat([], [inner], [outer]);
    FeedOne([Some(a)], outer);
    assert [inner] + [outer] == [inner, outer];
  }
}

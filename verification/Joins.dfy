/** Joins between graph nodes and relational rows. */
module Joins {
  import opened Bytes
  import opened Values
  import opened Tables
  import opened Schemas
  import opened RowStates
  import opened RowStore

  type NodeId = x: int | 0 <= x < 0x1_0000_0000_0000_0000

  datatype NodeRecord = NodeRecord(tag: string, properties: map<string, PropValue>)

  type Graph = map<NodeId, NodeRecord>

  datatype JoinedNode = JoinedNode(id: NodeId, node: Option<NodeRecord>, row: Option<Row>)
  datatype JoinedNodeRows = JoinedNodeRows(id: NodeId, node: Option<NodeRecord>, rows: seq<Row>)

  function GetNode(graph: Graph, id: NodeId): Option<NodeRecord> {
    if id in graph then Some(graph[id]) else None
  }

  predicate FitsInt(id: NodeId) {
    id <= I64_MAX
  }

  function NodeIdValue(id: NodeId): Option<PropValue> {
    if FitsInt(id) then Some(Int(id)) else None
  }

  predicate AllFit(nodes: seq<NodeId>) {
    forall i :: 0 <= i < |nodes| ==> FitsInt(nodes[i])
  }

  /** An id in the graph is joined with the record stored under it, any other with none. */
  lemma NodeOfId(graph: Graph, id: NodeId)
    ensures id in graph ==> GetNode(graph, id) == Some(graph[id])
    ensures id !in graph ==> GetNode(graph, id) == None
  {
  }

  /** `node` is the record of the node that column `c` of the row names, if it names one. */
  ghost predicate Joined(s: Schema, graph: Graph, row: Row, c: string, node: Option<NodeRecord>) {
    (forall id: NodeId :: FitsInt(id) && id in graph && Get(s, row, c) == Some(Int(id)) ==> node == Some(graph[id]))
    && (node.Some? ==> exists id: NodeId :: id in graph && FitsInt(id) && Get(s, row, c) == Some(Int(id)))
  }

  // ----- by primary key -----

  /** Pairs every requested node with the row whose integer primary key is its id. */
  method JoinNodesWithTable(store: Store, graph: Graph, nodes: seq<NodeId>) returns (r: Option<seq<JoinedNode>>)
    requires store.Readable()
    ensures r.Some? <==> PkKind(store.schema) == IntKey && AllFit(nodes)
    ensures r.Some? ==> |r.value| == |nodes|
    ensures r.Some? ==> forall i :: 0 <= i < |nodes| ==>
      r.value[i].id == nodes[i] && r.value[i].node == GetNode(graph, nodes[i])
      && RowsWith(store.schema, store.base, store.schema.pk, Int(nodes[i]), Listed(r.value[i].row))
  {
    if store.schema.columns[store.schema.pk].kind != IntColumn {
      return None;
    }
    var out: seq<JoinedNode> := [];
    for i := 0 to |nodes|
      invariant |out| == i && AllFit(nodes[..i])
      invariant forall j :: 0 <= j < i ==>
        out[j].id == nodes[j] && out[j].node == GetNode(graph, nodes[j]) && out[j].row == Found(store.base, Int(nodes[j]))
    {
      var val := NodeIdValue(nodes[i]);
      if val.None? {
        return None;
      }
      var row := store.GetRow(val.value);
      out := out + [JoinedNode(nodes[i], GetNode(graph, nodes[i]), row)];
    }
    forall i | 0 <= i < |nodes|
      ensures RowsWith(store.schema, store.base, store.schema.pk, Int(nodes[i]), Listed(out[i].row))
    {
      OnlyRow(store.schema, store.base, Int(nodes[i]));
    }
    r := Some(out);
  }

  // ----- by a foreign key -----

  /** The foreign key of a row, when it is an integer. */
  function ForeignKey(s: Schema, row: Row, c: string): Option<int64> {
    match Get(s, row, c)
    case Some(Int(i)) => Some(i)
    case _ => None
  }

  /** The rows among the first `n` whose foreign key is `fk`. */
  function WithKey(s: Schema, c: string, rows: seq<Row>, n: nat, fk: int64): seq<Row>
    requires n <= |rows|
  {
    if n == 0 then []
    else
      var front := WithKey(s, c, rows, n - 1, fk);
      if ForeignKey(s, rows[n - 1], c) == Some(fk) then front + [rows[n - 1]] else front
  }

  function GroupOf(groups: map<int64, seq<Row>>, fk: int64): seq<Row> {
    if fk in groups then groups[fk] else []
  }

  /** One pass over the table collects the rows of every requested key. */
  method GroupRows(store: Store, c: string, targets: set<int64>) returns (groups: map<int64, seq<Row>>)
    requires store.Readable()
    ensures forall fk :: fk in targets ==> RowsWith(store.schema, store.base, c, Int(fk), GroupOf(groups, fk))
  {
    var rows := store.ScanAll();
    groups := map[];
    for i := 0 to |rows|
      invariant Grouped(store.schema, c, rows, i, targets, groups)
    {
      var fk := ForeignKey(store.schema, rows[i], c);
      if fk.Some? && fk.value in targets {
        groups := groups[fk.value := GroupOf(groups, fk.value) + [rows[i]]];
      }
    }
    forall fk | fk in targets ensures RowsWith(store.schema, store.base, c, Int(fk), GroupOf(groups, fk)) {
      WithKeyExact(store.schema, store.base, c, rows, fk);
    }
  }

  /** The groups hold the rows among the first `n` of every requested key. */
  ghost predicate Grouped(s: Schema, c: string, rows: seq<Row>, n: nat, targets: set<int64>, groups: map<int64, seq<Row>>) {
    n <= |rows| && forall fk :: fk in targets ==> GroupOf(groups, fk) == WithKey(s, c, rows, n, fk)
  }

  lemma {:induction false} WithKeyRows(s: Schema, c: string, rows: seq<Row>, n: nat, fk: int64)
    requires n <= |rows| && Ascending(rows)
    ensures Ascending(WithKey(s, c, rows, n, fk))
    ensures forall row :: row in WithKey(s, c, rows, n, fk) <==> row in rows[..n] && ForeignKey(s, row, c) == Some(fk)
  {
    if n > 0 {
      var front := WithKey(s, c, rows, n - 1, fk);
      WithKeyRows(s, c, rows, n - 1, fk);
      assert rows[..n] == rows[..n - 1] + [rows[n - 1]];
      forall i | 0 <= i < |front| ensures Before(front[i].pk, rows[n - 1].pk) {
        assert front[i] in front;
        var j :| 0 <= j < n - 1 && rows[..n - 1][j] == front[i];
      }
    }
  }

  lemma WithKeyExact(s: Schema, base: Base, c: string, rows: seq<Row>, fk: int64)
    requires AllRows(base, rows)
    ensures RowsWith(s, base, c, Int(fk), WithKey(s, c, rows, |rows|, fk))
  {
    WithKeyRows(s, c, rows, |rows|, fk);
    assert rows[..|rows|] == rows;
    forall row ensures ForeignKey(s, row, c) == Some(fk) <==> Get(s, row, c) == Some(Int(fk)) {
    }
  }

  /** One entry: the id asked for, its node, and exactly the rows that refer to it, in
      primary-key order. */
  ghost predicate EntryFor(s: Schema, base: Base, graph: Graph, c: string, id: NodeId, e: JoinedNodeRows) {
    FitsInt(id) && e.id == id && e.node == GetNode(graph, id) && RowsWith(s, base, c, Int(id), e.rows)
  }

  /** Joins nodes to the rows whose integer column `c` refers to them: one entry per requested
      id, in request order, repeated ids included. An unindexed column is scanned once for all
      ids; the result does not depend on whether there is an index. */
  method JoinNodesByColumn(store: Store, graph: Graph, nodes: seq<NodeId>, c: string) returns (r: Option<seq<JoinedNodeRows>>)
    requires store.Readable()
    ensures r.Some? <==> c in store.schema.columns && store.schema.columns[c].kind == IntColumn && AllFit(nodes)
    ensures r.Some? ==> |r.value| == |nodes|
    ensures r.Some? ==> forall i :: 0 <= i < |nodes| ==> EntryFor(store.schema, store.base, graph, c, nodes[i], r.value[i])
  {
    if c !in store.schema.columns || store.schema.columns[c].kind != IntColumn {
      return None;
    }
    if nodes == [] {
      return Some([]);
    }
    var grouped := c !in store.schema.indexed;
    var groups: map<int64, seq<Row>> := map[];
    if grouped {
      groups := GroupRows(store, c, set id | id in nodes && FitsInt(id) :: id);
    }
    r := JoinEach(store, graph, nodes, c, grouped, groups);
  }

  /** Entry by entry, `out` is the join of the first `n` ids. */
  ghost predicate JoinedTo(s: Schema, base: Base, graph: Graph, c: string, nodes: seq<NodeId>, n: nat, out: seq<JoinedNodeRows>) {
    |out| == n <= |nodes| && forall i :: 0 <= i < n ==> EntryFor(s, base, graph, c, nodes[i], out[i])
  }

  method JoinEach(store: Store, graph: Graph, nodes: seq<NodeId>, c: string, grouped: bool, groups: map<int64, seq<Row>>)
    returns (r: Option<seq<JoinedNodeRows>>)
    requires store.Readable() && c in store.schema.columns && store.schema.columns[c].kind == IntColumn
    requires grouped || c in store.schema.indexed
    requires grouped ==> forall id :: id in nodes && FitsInt(id) ==> RowsWith(store.schema, store.base, c, Int(id), GroupOf(groups, id))
    ensures r.Some? <==> AllFit(nodes)
    ensures r.Some? ==> JoinedTo(store.schema, store.base, graph, c, nodes, |nodes|, r.value)
  {
    var out: seq<JoinedNodeRows> := [];
    for i := 0 to |nodes|
      invariant JoinedTo(store.schema, store.base, graph, c, nodes, i, out)
    {
      if NodeIdValue(nodes[i]).None? {
        return None;
      }
      assert nodes[i] in nodes;
      var rows := RowsFor(store, c, nodes[i], grouped, groups);
      var entry := JoinedNodeRows(nodes[i], GetNode(graph, nodes[i]), rows);
      assert EntryFor(store.schema, store.base, graph, c, nodes[i], entry);
      out := out + [entry];
    }
    r := Some(out);
  }

  /** The rows of one id, from the groups or through the index. */
  method RowsFor(store: Store, c: string, id: NodeId, grouped: bool, groups: map<int64, seq<Row>>) returns (rows: seq<Row>)
    requires store.Readable() && FitsInt(id) && c in store.schema.columns && store.schema.columns[c].kind == IntColumn
    requires if grouped then RowsWith(store.schema, store.base, c, Int(id), GroupOf(groups, id)) else c in store.schema.indexed
    ensures RowsWith(store.schema, store.base, c, Int(id), rows)
  {
    if grouped {
      return GroupOf(groups, id);
    }
    var found := store.IndexLookupEq(c, Int(id));
    rows := found.value;
  }

  // ----- and back -----

  /** The node a row refers to through column `c`. */
  function Referenced(s: Schema, graph: Graph, row: Row, c: string): Option<NodeRecord> {
    match Get(s, row, c)
    case Some(Int(i)) => if i >= 0 then GetNode(graph, i) else None
    case _ => None
  }

  method JoinRowsWithNodes(s: Schema, graph: Graph, rows: seq<Row>, c: string) returns (out: seq<(Row, Option<NodeRecord>)>)
    ensures |out| == |rows|
    ensures forall i :: 0 <= i < |rows| ==> out[i] == (rows[i], Referenced(s, graph, rows[i], c))
    ensures forall i :: 0 <= i < |rows| ==> Joined(s, graph, rows[i], c, out[i].1)
  {
    out := [];
    for i := 0 to |rows|
      invariant |out| == i && forall j :: 0 <= j < i ==> out[j] == (rows[j], Referenced(s, graph, rows[j], c))
    {
      out := out + [(rows[i], Referenced(s, graph, rows[i], c))];
    }
  }

  /** Every row a forward join returns for an id leads back to that id's node. */
  lemma ForwardThenBack(s: Schema, base: Base, graph: Graph, c: string, id: NodeId, e: JoinedNodeRows)
    requires EntryFor(s, base, graph, c, id, e)
    ensures forall i :: 0 <= i < |e.rows| ==> Referenced(s, graph, e.rows[i], c) == e.node
  {
    forall i | 0 <= i < |e.rows| ensures Referenced(s, graph, e.rows[i], c) == e.node {
      assert e.rows[i] in e.rows;
    }
  }

  /** And every stored row that leads to a node is returned when its id is asked for. */
  lemma BackThenForward(s: Schema, base: Base, graph: Graph, c: string, row: Row, e: JoinedNodeRows)
    requires Holds(base, row) && Referenced(s, graph, row, c).Some?
    requires EntryFor(s, base, graph, c, Get(s, row, c).value.i, e)
    ensures row in e.rows && e.node == Referenced(s, graph, row, c)
  {
  }

  /** On an integer primary key the join by column returns the one row of the direct join. */
  lemma DirectIsColumnJoin(s: Schema, base: Base, graph: Graph, id: NodeId, direct: JoinedNode, e: JoinedNodeRows)
    requires EntryFor(s, base, graph, s.pk, id, e)
    requires RowsWith(s, base, s.pk, Int(id), Listed(direct.row))
    ensures e.rows == Listed(direct.row)
  {
    SameRows(e.rows, Listed(direct.row));
  }

  /** With or without an index, the entries are the same. */
  lemma IndexDoesNotMatter(s: Schema, t: Schema, base: Base, graph: Graph, c: string, id: NodeId, a: JoinedNodeRows, b: JoinedNodeRows)
    requires s.pk == t.pk && EntryFor(s, base, graph, c, id, a) && EntryFor(t, base, graph, c, id, b)
    ensures a == b
  {
    forall row ensures Get(s, row, c) == Get(t, row, c) {
    }
    SameRows(a.rows, b.rows);
  }
}

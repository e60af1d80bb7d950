/**
 * The canvas graph: nodes placed by drops, edges between node ids, the lookup
 * `nodes.find(n => n.id === ...)` and the one adjacency rule, which forbids an
 * edge from a "blockB" node to a "blockA" node (src/FlowCanvas.jsx:64-77).
 */
module Graph {
  import opened Wrappers
  import opened NodeIds

  const BlockA: string := "blockA"
  const BlockB: string := "blockB"

  /** A canvas or client coordinate (floating point in the canvas, integers here). */
  datatype Point = Point(x: int, y: int)

  /** The node's `data` object; `caption` is its `label` field (`label` is reserved in Dafny). */
  datatype NodeData = NodeData(caption: string)

  /** A placed node; `kind` is the node's `type` field, the block-kind id. */
  datatype Node = Node(id: string, kind: string, position: Point, data: NodeData)

  /** A connection between two node ids, as `onConnect` receives it and `addEdge` stores it. */
  datatype Edge = Edge(source: string, target: string, sourceHandle: Option<string>, targetHandle: Option<string>)

  /** Index of the first node with the given id. */
  function IndexOf(nodes: seq<Node>, id: string): (r: Option<nat>)
    ensures r.Some? ==> r.value < |nodes| && nodes[r.value].id == id
    ensures r.Some? ==> forall j :: 0 <= j < r.value ==> nodes[j].id != id
    ensures r.None? ==> forall j :: 0 <= j < |nodes| ==> nodes[j].id != id
  {
    if nodes == [] then None
    else if nodes[0].id == id then Some(0)
    else match IndexOf(nodes[1..], id)
      case Some(k) => Some(k + 1)
      case None => None
  }

  /** `nodes.find(n => n.id === id)`: the first node with that id, or `undefined`. */
  function Find(nodes: seq<Node>, id: string): (r: Option<Node>)
    ensures r.Some? ==> r.value in nodes && r.value.id == id
    ensures r.None? <==> forall j :: 0 <= j < |nodes| ==> nodes[j].id != id
  {
    match IndexOf(nodes, id)
    case Some(k) => Some(nodes[k])
    case None => None
  }

  /** What `nodes.find` returns is the FIRST node carrying the id. */
  lemma FindIsFirst(nodes: seq<Node>, id: string)
    ensures Find(nodes, id).Some? ==>
      exists k :: 0 <= k < |nodes| && Find(nodes, id).value == nodes[k] && forall j :: 0 <= j < k ==> nodes[j].id != id
  {
    if Find(nodes, id).Some? {
      var k := IndexOf(nodes, id).value;
      assert Find(nodes, id).value == nodes[k];
    }
  }

  /** `node?.type` for the node found under `id`: `None` plays `undefined`. */
  function KindOf(nodes: seq<Node>, id: string): (r: Option<string>)
    ensures r.None? <==> forall j :: 0 <= j < |nodes| ==> nodes[j].id != id
    ensures r.Some? ==> IndexOf(nodes, id).Some? && r.value == nodes[IndexOf(nodes, id).value].kind
  {
    match Find(nodes, id)
    case Some(n) => Some(n.kind)
    case None => None
  }

  /**
   * The adjacency rule: a connection is refused only when the source resolves
   * to a "blockB" node and the target to a "blockA" node.
   */
  function Allowed(sourceKind: Option<string>, targetKind: Option<string>): (ok: bool)
    ensures !ok ==> sourceKind == Some(BlockB) && targetKind == Some(BlockA)
    ensures sourceKind == Some(BlockB) && targetKind == Some(BlockA) ==> !ok
    ensures sourceKind.None? || targetKind.None? ==> ok
    ensures sourceKind == targetKind ==> ok
    ensures sourceKind == Some(BlockA) && targetKind == Some(BlockB) ==> ok
  {
    match (sourceKind, targetKind)
    case (Some(s), Some(t)) => !(s == BlockB && t == BlockA)
    case _ => true
  }

  /**
   * `addEdge(params, eds)`, taken as a plain append: an assumption in place of
   * the library function, whose edge ids and duplicate check are not modelled.
   */
  function AddEdge(params: Edge, edges: seq<Edge>): (r: seq<Edge>)
    ensures |r| == |edges| + 1 && r[..|edges|] == edges && r[|edges|] == params
  {
    edges + [params]
  }

  /** No edge runs from a "blockB" node to a "blockA" node of `nodes`. */
  predicate Legal(nodes: seq<Node>, edges: seq<Edge>) {
    forall e :: e in edges ==> Allowed(KindOf(nodes, e.source), KindOf(nodes, e.target))
  }

  /** Every edge's endpoints name nodes of `nodes`. */
  predicate Closed(nodes: seq<Node>, edges: seq<Edge>) {
    forall e :: e in edges ==> Find(nodes, e.source).Some? && Find(nodes, e.target).Some?
  }

  predicate UniqueIds(nodes: seq<Node>) {
    forall i, j :: 0 <= i < j < |nodes| ==> nodes[i].id != nodes[j].id
  }

  /**
   * Every node id was generated from a counter value below `counter`, and the
   * values rise along the node list (nodes are appended in the order their ids
   * were taken). Ids are then pairwise distinct.
   */
  predicate IssuedInOrder(nodes: seq<Node>, counter: nat)
    ensures IssuedInOrder(nodes, counter) ==> UniqueIds(nodes)
  {
    && (forall i :: 0 <= i < |nodes| ==> Serial(nodes[i].id).Some? && Serial(nodes[i].id).value < counter)
    && (forall i, j :: 0 <= i < j < |nodes| ==>
          Serial(nodes[i].id).Some? && Serial(nodes[j].id).Some? &&
          Serial(nodes[i].id).value < Serial(nodes[j].id).value)
  }

  /** Appending a node never changes what an id that already resolves resolves to. */
  lemma {:induction false} FindAppend(nodes: seq<Node>, n: Node, id: string)
    ensures Find(nodes + [n], id) == if Find(nodes, id).Some? then Find(nodes, id)
                                     else if n.id == id then Some(n) else None
  {
    var all := nodes + [n];
    match IndexOf(nodes, id)
    case Some(k) =>
      assert all[k] == nodes[k];
      assert forall j :: 0 <= j < k ==> all[j] == nodes[j];
      assert IndexOf(all, id) == Some(k);
    case None =>
      assert forall j :: 0 <= j < |nodes| ==> all[j] == nodes[j];
      assert all[|nodes|] == n;
  }

  /** Appending a node to a closed, legal graph leaves it closed and legal. */
  lemma AppendKeepsLegal(nodes: seq<Node>, edges: seq<Edge>, n: Node)
    requires Legal(nodes, edges) && Closed(nodes, edges)
    ensures Legal(nodes + [n], edges) && Closed(nodes + [n], edges)
  {
    forall e | e in edges
      ensures Find(nodes + [n], e.source) == Find(nodes, e.source)
      ensures Find(nodes + [n], e.target) == Find(nodes, e.target)
    {
      FindAppend(nodes, n, e.source);
      FindAppend(nodes, n, e.target);
    }
  }

  /** The node a drop appends has the next id, so the ids stay in issue order. */
  lemma AppendIssued(nodes: seq<Node>, counter: nat, n: Node)
    requires IssuedInOrder(nodes, counter)
    requires n.id == IdOf(counter)
    ensures IssuedInOrder(nodes + [n], counter + 1)
  {
    SerialOfIdOf(counter);
    var all := nodes + [n];
    assert forall i :: 0 <= i < |nodes| ==> all[i] == nodes[i];
    assert all[|nodes|] == n;
  }

  /**
   * The handler's rule taken on its own: a connection whose target does not
   * resolve yet is accepted; once a node with that id and kind "blockA" is
   * appended, the stored edge runs from a "blockB" node to a "blockA" node.
   * The rule is checked only when the edge is added. Through the canvas alone
   * this is not reachable: connections are only offered between rendered
   * nodes, and ids are never reissued.
   */
  lemma DanglingEdgeTurnsForbidden()
    ensures
      var b := Node(IdOf(0), BlockB, Point(0, 0), NodeData(BlockB));
      var a := Node(IdOf(1), BlockA, Point(0, 0), NodeData(BlockA));
      var e := Edge(IdOf(0), IdOf(1), Some("output"), Some("input"));
      && Allowed(KindOf([b], e.source), KindOf([b], e.target))
      && Legal([b], [e])
      && !Legal([b, a], [e])
  {
    IdOfInjective(0, 1);
    var b := Node(IdOf(0), BlockB, Point(0, 0), NodeData(BlockB));
    var a := Node(IdOf(1), BlockA, Point(0, 0), NodeData(BlockA));
    var e := Edge(IdOf(0), IdOf(1), Some("output"), Some("input"));
    assert KindOf([b], e.target) == None;
    assert KindOf([b, a], e.source) == Some(BlockB);
    assert IndexOf([b, a], e.target) == Some(1);
    assert e in [e] && !Allowed(KindOf([b, a], e.source), KindOf([b, a], e.target));
  }
}

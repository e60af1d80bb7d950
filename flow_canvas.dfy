/**
 * The state of the `FlowCanvas` component and its event handlers: the id
 * counter, the node and edge lists, the loaded block list and kind registry,
 * and the viewport projection `reactFlowInstance.project`.
 */
module FlowCanvas {
  import opened Wrappers
  import opened NodeIds
  import opened Graph
  import opened Catalog

  /** A viewport-to-canvas transform, as `reactFlowInstance.project` supplies it. */
  type Projection = Point -> Point

  class Editor {
    /** The module-level `id` counter of the id generator. */
    var counter: nat
    var nodes: seq<Node>
    var edges: seq<Edge>
    var blockList: seq<Block>
    /** Kind id to the label its renderer shows. */
    var nodeTypes: map<string, string>
    /** `reactFlowInstance`: `None` until the surface reports `onInit`. */
    var projection: Option<Projection>

    /** Node ids come from the counter, in the order they were taken. */
    ghost predicate Valid()
      reads this
      ensures Valid() ==> UniqueIds(nodes)
    {
      IssuedInOrder(nodes, counter)
    }

    /** A freshly mounted canvas; `firstId` is the counter's value at mount (0 after a page load). */
    constructor (firstId: nat)
      ensures Valid()
      ensures counter == firstId && nodes == [] && edges == []
      ensures blockList == [] && nodeTypes == map[] && projection == None
    {
      counter := firstId;
      nodes := [];
      edges := [];
      blockList := [];
      nodeTypes := map[];
      projection := None;
    }

    /** `getId`: the id for the current counter value; the counter then advances. */
    method GetId() returns (id: string)
      requires Valid()
      modifies this`counter
      ensures Valid()
      ensures id == IdOf(old(counter)) && Serial(id) == Some(old(counter))
      ensures counter == old(counter) + 1
    {
      SerialOfIdOf(counter);
      id := IdOf(counter);
      counter := counter + 1;
    }

    /** `onInit`: the surface hands over its instance, whose `project` later drops use. */
    method OnInit(project: Projection)
      modifies this`projection
      ensures projection == Some(project)
    {
      projection := Some(project);
    }

    /**
     * `onConnect`: look both endpoints up in the current nodes; refuse (the
     * `alert` path, reported as `accepted == false`) exactly when the source is
     * a "blockB" node and the target a "blockA" node; otherwise add the edge.
     */
    method OnConnect(params: Edge) returns (accepted: bool)
      requires Valid()
      modifies this`edges
      ensures Valid()
      ensures accepted <==> !(KindOf(nodes, params.source) == Some(BlockB) && KindOf(nodes, params.target) == Some(BlockA))
      ensures edges == if accepted then old(edges) + [params] else old(edges)
      ensures old(Legal(nodes, edges)) ==> Legal(nodes, edges)
      ensures old(Closed(nodes, edges)) && Find(nodes, params.source).Some? && Find(nodes, params.target).Some?
              ==> Closed(nodes, edges)
    {
      var sourceKind := KindOf(nodes, params.source);
      var targetKind := KindOf(nodes, params.target);
      if !Allowed(sourceKind, targetKind) {
        accepted := false;
        return;
      }
      accepted := true;
      edges := AddEdge(params, edges);
    }

    /**
     * `onDrop`: an empty payload changes nothing. Otherwise the drop point,
     * moved up by 40, is projected into canvas space and a node of the dragged
     * kind, labelled with it, is appended under a fresh id. Before `onInit` the
     * projection call fails and, as it comes before `getId`, nothing changes.
     */
    method OnDrop(kind: string, client: Point)
      requires Valid()
      modifies this`counter, this`nodes
      ensures Valid()
      ensures kind == [] || old(projection).None? ==> nodes == old(nodes) && counter == old(counter)
      ensures kind != [] && old(projection).Some? ==>
                && counter == old(counter) + 1
                && nodes == old(nodes) + [Node(IdOf(old(counter)), kind, projection.value(Point(client.x, client.y - 40)), NodeData(kind))]
      ensures old(Legal(nodes, edges) && Closed(nodes, edges)) ==> Legal(nodes, edges) && Closed(nodes, edges)
    {
      if kind == [] {
        return;
      }
      if projection.None? {
        return;
      }
      var position := projection.value(Point(client.x, client.y - 40));
      var id := GetId();
      var newNode := Node(id, kind, position, NodeData(kind));
      AppendIssued(nodes, counter - 1, newNode);
      if Legal(nodes, edges) && Closed(nodes, edges) {
        AppendKeepsLegal(nodes, edges, newNode);
      }
      nodes := nodes + [newNode];
    }

    /**
     * The catalog effect once the fetch settles: `None` is a failed fetch or
     * parse, which leaves everything as it was; `Some(data)` publishes the
     * block list and replaces the registry with one built from it.
     */
    method LoadCatalog(response: Option<seq<Block>>)
      modifies this`blockList, this`nodeTypes
      ensures response.None? ==> blockList == old(blockList) && nodeTypes == old(nodeTypes)
      ensures response.Some? ==> blockList == response.value && nodeTypes == Registry(response.value)
    {
      if response.Some? {
        var data := response.value;
        blockList := data;
        var dynamicTypes := BuildNodeTypes(data);
        nodeTypes := dynamicTypes;
      }
    }
  }

  /**
   * Two drops and two connection attempts on a fresh canvas whose viewport maps
   * client points to themselves: B to A is refused, A to B is stored.
   */
  method DropAndConnect() returns (placed: seq<Node>, backward: bool, forward: bool, stored: seq<Edge>)
    ensures placed == [Node(IdOf(0), BlockA, Point(100, 100), NodeData(BlockA)),
                       Node(IdOf(1), BlockB, Point(300, 100), NodeData(BlockB))]
    ensures !backward && forward
    ensures stored == [Edge(IdOf(0), IdOf(1), Some("output"), Some("input"))]
  {
    var editor := new Editor(0);
    editor.OnInit(p => p);
    var a := Node(IdOf(0), BlockA, Point(100, 100), NodeData(BlockA));
    var b := Node(IdOf(1), BlockB, Point(300, 100), NodeData(BlockB));
    editor.OnDrop(BlockA, Point(100, 140));
    assert editor.nodes == [a];
    editor.OnDrop(BlockB, Point(300, 140));
    assert editor.nodes == [a, b];
    placed := editor.nodes;
    IdOfInjective(0, 1);
    FindAppend([a], b, IdOf(0));
    FindAppend([a], b, IdOf(1));
    assert [a] + [b] == placed;
    assert KindOf(placed, IdOf(0)) == Some(BlockA) && KindOf(placed, IdOf(1)) == Some(BlockB);
    backward := editor.OnConnect(Edge(IdOf(1), IdOf(0), Some("output"), Some("input")));
    assert editor.edges == [];
    forward := editor.OnConnect(Edge(IdOf(0), IdOf(1), Some("output"), Some("input")));
    stored := editor.edges;
  }
}

# Flow canvas graph editor — Dafny model

This project models the graph-editing logic of the `FlowCanvas` React component
of a drag-and-drop block editor. A user drags typed blocks from a catalog onto
a canvas and wires them together. The canvas refuses exactly one kind of
connection: from a `blockB` node to a `blockA` node.

The model covers:

- the module-level id generator `getId`, which hands out `node_0`, `node_1`, …;
- the connection handler `onConnect`, with its lookup of both endpoints in the
  current node list and the B→A rule;
- the drop handler `onDrop`, which turns a dragged kind into a new node;
- the construction of the kind registry `nodeTypes` from the loaded block list.

Modules:

- `Wrappers`: `Option`, standing in for JavaScript's `undefined`.
- `NodeIds`: the id format `node_<n>` and `Serial`, which reads `n` back out of
  an id. The round trip `Serial(IdOf(n)) == Some(n)` is what makes ids distinct.
- `Graph`: nodes, edges, the first-match lookup `nodes.find`, the adjacency rule
  `Allowed`, and graph invariants with the lemmas that preserve them.
- `Catalog`: catalog records, the registry function `Registry` and the
  `forEach` loop that builds it.
- `FlowCanvas`: class `Editor`, holding the component's state (the id counter,
  nodes, edges, block list, registry and viewport projection) and its handlers
  as methods.

Modelling choices:

- The id counter is module-level state in the component's file. Here it is a
  field of `Editor`. The constructor takes the counter's value at mount time,
  which is 0 after a page load.
- `reactFlowInstance` is `None` until `onInit` supplies it. A drop before that
  makes `reactFlowInstance.project` throw, which happens before `getId`. So
  nothing changes, and `Editor.OnDrop` models that.
- `addEdge(params, eds)` is modelled as a plain append of `params`.
- Coordinates are integers. The projection is any function from points to
  points. Only the `- 40` offset on `y` before projecting is modelled.
- `alert` becomes the `accepted == false` result of `Editor.OnConnect`.
- A registry entry is the label its renderer would show.
- The data types rename two fields. `label` is reserved in Dafny, so the
  label is the field `caption`. `type` is reserved too, so a node's `type`
  is the field `kind`.

The B→A rule is checked only when an edge is added, and only against the
nodes present at that moment:

- An endpoint that does not resolve is accepted, because `undefined` never
  equals the literals.
- `Graph.DanglingEdgeTurnsForbidden` takes the handler's rule on its own.
  An edge to an id that is not on the canvas yet is accepted. If a node of
  kind `blockA` later appears under that id, the stored edge then runs from a
  B node to an A node.
- That path cannot be reached through the canvas itself. reactflow offers
  connections only between handles of rendered nodes. Ids below 2^53 are never reissued,
  because removing a node does not move the counter back.
- `Editor.OnDrop` therefore promises to keep legality only for a closed graph,
  one whose edge endpoints all resolve.

## Model

| member | source | states |
|---|---|---|
| `NodeIds.IdOf` | src/FlowCanvas.jsx:16 | the id for counter value `n` is the prefix `node_` followed by a non-empty run of decimal digits (its value is pinned by `NodeIds.SerialOfIdOf`) |
| `NodeIds.Decimal` | src/FlowCanvas.jsx:16 | the rendering of the counter in the id is a non-empty string of decimal digits |
| `NodeIds.DecimalRoundTrip` | src/FlowCanvas.jsx:16 | reading the decimal rendering of `n` back gives `n` |
| `NodeIds.SerialOfIdOf` | src/FlowCanvas.jsx:15-16 | the id generated from counter value `n` has the shape `node_<digits>` and reads back as `n` |
| `NodeIds.IdOfInjective` | src/FlowCanvas.jsx:15-16 | two counter values give the same id if and only if they are equal, so generated ids are pairwise distinct |
| `Graph.IndexOf` | src/FlowCanvas.jsx:66-67 | the result is the index of the first node with the id, or none when no node has it |
| `Graph.Find` | src/FlowCanvas.jsx:66-67 | a found node is in the list and carries the id; nothing is found exactly when no node has the id |
| `Graph.FindIsFirst` | src/FlowCanvas.jsx:66-67 | a node that `nodes.find` returns sits at an index before which no node carries the id: it is the first match |
| `Graph.KindOf` | src/FlowCanvas.jsx:69 | `node?.type` is undefined exactly when no node has the id; otherwise it is the kind of the first node with the id |
| `Graph.AddEdge` | src/FlowCanvas.jsx:74 | an assumption in place of reactflow's `addEdge`: the result is the old edge list, unchanged, followed by exactly the new edge |
| `Graph.Allowed` | src/FlowCanvas.jsx:69 | refused if and only if the source kind is `blockB` and the target kind `blockA`; unresolved endpoints, same-kind pairs and A→B are allowed |
| `Graph.IssuedInOrder` | src/FlowCanvas.jsx:15-16 | when node ids come from counter values below the counter, in rising order, the node ids are pairwise distinct |
| `Graph.FindAppend` | src/FlowCanvas.jsx:66-67 | appending a node never changes what an already-resolving id finds; an unresolved id finds the new node exactly when it has that id |
| `Graph.AppendKeepsLegal` | src/FlowCanvas.jsx:98 | appending a node to a graph whose edges all resolve and none runs B→A keeps both properties |
| `Graph.AppendIssued` | src/FlowCanvas.jsx:91-98 | appending a node under the id of the current counter keeps ids in issue order once the counter advances |
| `Graph.DanglingEdgeTurnsForbidden` | src/FlowCanvas.jsx:66-74 | an edge with an unresolved target is accepted and legal, yet a later `blockA` node under that id makes it a B→A edge |
| `Catalog.Registry` | src/FlowCanvas.jsx:53-58 | the registry's keys are exactly the block ids, and each id maps to the label of the last block with that id |
| `Catalog.BuildNodeTypes` | src/FlowCanvas.jsx:53-58 | the `forEach` loop over the block list produces exactly `Registry` of that list |
| `Catalog.DistinctCatalogSize` | src/FlowCanvas.jsx:53-59 | a catalog of N blocks with distinct ids gives a registry with N entries |
| `FlowCanvas.Editor.Valid` | src/FlowCanvas.jsx:15-16 | the editor invariant (ids taken from the counter, in order) implies that node ids are unique |
| `FlowCanvas.Editor.constructor` | src/FlowCanvas.jsx:38-44 | a mounted canvas starts with no nodes, edges, blocks or registry entries, no instance, and the counter at its current value |
| `FlowCanvas.Editor.GetId` | src/FlowCanvas.jsx:15-16 | returns `node_<n>` for the counter value `n` before the call and leaves the counter at `n + 1` |
| `FlowCanvas.Editor.OnInit` | src/FlowCanvas.jsx:162 | the `onInit={setReactFlowInstance}` handler stores the instance the surface reports in place of the initial `null` of line 40, so later drops can project |
| `FlowCanvas.Editor.OnConnect` | src/FlowCanvas.jsx:64-77 | accepted if and only if not (source kind `blockB` and target kind `blockA`); on acceptance exactly the edge is appended, on refusal edges are unchanged; nodes and counter never change; a legal graph stays legal; a closed graph stays closed when both endpoints resolve |
| `FlowCanvas.Editor.OnDrop` | src/FlowCanvas.jsx:79-101 | an empty payload, or no instance yet, changes nothing and does not advance the counter; otherwise exactly one node is appended with the next id, the payload as kind and label, and the projection of the drop point moved up by 40; edges are unchanged; node ids stay unique; a closed legal graph stays closed and legal |
| `FlowCanvas.Editor.LoadCatalog` | src/FlowCanvas.jsx:47-61 | a failed load leaves the block list and registry as they were; a successful one publishes the list and sets the registry to `Registry` of it |
| `FlowCanvas.DropAndConnect` | src/FlowCanvas.jsx:64-101 | on a fresh canvas with an identity viewport, a `blockA` drop at (100, 140) yields a node at (100, 100); B→A is refused and A→B is stored as the only edge |

## Left out

- Rendering: the `CustomBlock` markup and its handles, the dropdown, the sidebar, the minimap, controls and background, and the context menu. None of it has logic that the graph depends on.
- `fetch("./blocks.json")` and `res.json()` are I/O. `Editor.LoadCatalog` receives their outcome as `Option<seq<Block>>`. The `console.error` on failure is not modelled.
- Editor.GetId: the source's counter is a JavaScript Number. At 2^53, `id++` no longer changes it, so `getId` repeats an id. From 10^21 on, the id is rendered in exponent form (`node_1e+21`). The model's counter is unbounded and always rendered in plain decimal, so the id uniqueness it proves (`NodeIds.IdOfInjective`) does not cover those ranges.
- Editor.GetId: the source's counter is module state shared by every mounted canvas. Each `Editor` owns its counter, so the model does not capture that sharing. Two live canvases in the model can each issue `node_0`, which the source cannot.
- Catalog.Registry: `dynamicTypes` is a plain `{}` object. For a block id `"__proto__"` the assignment replaces the object's prototype instead of adding a key. The model treats every id as an ordinary key, so `r.Keys == Ids(blocks)` claims more than the source does for that one id.
- `Editor.LoadCatalog`: `setBlockList(data)` runs before `forEach`. A malformed payload could make `forEach` throw after the block list is already published. Typed block sequences cannot be malformed, so that path is not modelled.
- `Editor.LoadCatalog`: the effect runs once after mount. The model does not stop a second call.
- `onNodesChange` and `onEdgesChange`: reactflow applies move, select and remove changes internally. That is library code not visible here.
- `Editor.OnConnect`: reactflow's `addEdge` gives the edge an id and drops duplicates. The model appends `params` as it is.
- `Editor.OnDrop`: `reactFlowInstance.project` is a floating-point viewport transform. It is an arbitrary function over integer points here.
- `event.preventDefault`, `onDragOver`'s `dropEffect`, and the staleness of `useCallback` closures are browser and framework concerns. Each handler reads the current state.
- A registry entry holds the block's label in place of the renderer closure, so the styling classes are not stored in it.

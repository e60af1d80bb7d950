/**
 * The block catalog and the kind registry built from it: for every loaded
 * block, `nodeTypes[block.id]` is a renderer bound to `block.label`
 * (src/FlowCanvas.jsx:50-59). The renderer is represented by the label it shows.
 */
module Catalog {

  /** One catalog record; `caption` is its `label`, `classNames` its presentation classes. */
  datatype Block = Block(id: string, caption: string, classNames: string)

  /** The ids that occur in a block list. */
  function Ids(blocks: seq<Block>): set<string> {
    set b | b in blocks :: b.id
  }

  /** No later block in the list has the same id as block `i`. */
  predicate LastWithId(blocks: seq<Block>, i: nat)
    requires i < |blocks|
  {
    forall j :: i < j < |blocks| ==> blocks[j].id != blocks[i].id
  }

  /**
   * The registry that assigning `types[block.id] = renderer(block.label)` for each
   * block in order produces: its keys are the block ids, and under each id sits
   * the label of the LAST block with that id.
   */
  function Registry(blocks: seq<Block>): (r: map<string, string>)
    ensures r.Keys == Ids(blocks)
    ensures forall i :: 0 <= i < |blocks| && LastWithId(blocks, i) ==> r[blocks[i].id] == blocks[i].caption
  {
    if blocks == [] then map[]
    else
      var init, last := blocks[..|blocks| - 1], blocks[|blocks| - 1];
      assert blocks == init + [last];
      assert Ids(blocks) == Ids(init) + {last.id};
      assert forall i :: 0 <= i < |init| ==> init[i] == blocks[i];
      Registry(init)[last.id := last.caption]
  }

  /** The `forEach` loop that fills `dynamicTypes` (src/FlowCanvas.jsx:53-58). */
  method BuildNodeTypes(data: seq<Block>) returns (types: map<string, string>)
    ensures types == Registry(data)
  {
    types := map[];
    var i := 0;
    while i < |data|
      invariant 0 <= i <= |data|
      invariant types == Registry(data[..i])
    {
      assert data[..i + 1][..i] == data[..i];
      types := types[data[i].id := data[i].caption];
      i := i + 1;
    }
    assert data[..|data|] == data;
  }

  /** A catalog of N blocks with distinct ids gives a registry of exactly N entries. */
  lemma {:induction false} DistinctCatalogSize(blocks: seq<Block>)
    requires forall i, j :: 0 <= i < j < |blocks| ==> blocks[i].id != blocks[j].id
    ensures |Registry(blocks)| == |blocks|
  {
    if blocks != [] {
      var init := blocks[..|blocks| - 1];
      DistinctCatalogSize(init);
      assert blocks[|blocks| - 1].id !in Ids(init);
    }
  }
}

/**
 * graph/Graph.java: the point store the algorithms run on, an ordered list
 * of categorised nodes plus at most one pending (uncategorised) node.
 */
module Graphs {
  import opened Palette
  import opened Nodes

  class Graph {
    var categorizedNodes: seq<Node>
    var uncategorizedNode: Node?
    /** Only the random generator, which is not part of this model, changes it. */
    var numClusters: int

    /** No categorised node carries BLACK: add() sends BLACK nodes to the pending slot. */
    ghost predicate NoBlack()
      reads this, Objects(categorizedNodes)
    {
      forall i :: 0 <= i < |categorizedNodes| ==> categorizedNodes[i].category != Black
    }

    constructor ()
      ensures categorizedNodes == [] && uncategorizedNode == null && numClusters == 0
      ensures NoBlack()
    {
      categorizedNodes := [];
      uncategorizedNode := null;
      numClusters := 0;
    }

    /** getNodes(): the categorised nodes in order, then the pending node if there is one. */
    method GetNodes() returns (nodes: seq<Node>)
      ensures |nodes| == |categorizedNodes| + (if uncategorizedNode != null then 1 else 0)
      ensures nodes[..|categorizedNodes|] == categorizedNodes
      ensures uncategorizedNode != null ==> nodes[|nodes| - 1] == uncategorizedNode
      ensures forall n :: n in nodes <==> n in categorizedNodes || n == uncategorizedNode
    {
      nodes := [];
      nodes := nodes + categorizedNodes;
      if uncategorizedNode != null {
        nodes := nodes + [uncategorizedNode];
      }
    }

    /** setUncategorizedNode(node): replaces the pending node only; always true. */
    method SetUncategorizedNode(node: Node?) returns (ok: bool)
      modifies this`uncategorizedNode
      ensures ok
      ensures uncategorizedNode == node
      ensures categorizedNodes == old(categorizedNodes) && numClusters == old(numClusters)
    {
      uncategorizedNode := node;
      ok := true;
    }

    /**
     * add(node): a BLACK node becomes the pending node; any other node is
     * appended to the categorised list. ArrayList.add always answers true.
     */
    method Add(node: Node) returns (ok: bool)
      modifies this`categorizedNodes, this`uncategorizedNode
      ensures ok
      ensures node.category == Black ==>
        uncategorizedNode == node && categorizedNodes == old(categorizedNodes)
      ensures node.category != Black ==>
        categorizedNodes == old(categorizedNodes) + [node] && uncategorizedNode == old(uncategorizedNode)
      ensures numClusters == old(numClusters)
      ensures old(NoBlack()) ==> NoBlack()
    {
      if node.category == Black {
        uncategorizedNode := node;
        return true;
      }
      categorizedNodes := categorizedNodes + [node];
      ok := true;
    }

    /** clear(): empties the list and the pending slot; numClusters is kept. */
    method Clear() returns (ok: bool)
      modifies this`categorizedNodes, this`uncategorizedNode
      ensures ok
      ensures categorizedNodes == [] && uncategorizedNode == null
      ensures numClusters == old(numClusters)
      ensures NoBlack()
    {
      categorizedNodes := [];
      uncategorizedNode := null;
      ok := true;
    }
  }
}

/**
 * algorithms/KNN.java: classify the graph's pending node by a majority
 * vote of its k nearest categorised nodes, and build the three-second
 * animation of it. The pending node is recoloured in place when the
 * animation is built; its frames read it when they are played.
 */
module KNN {
  import opened Wrappers
  import opened Palette
  import opened Nodes
  import opened Graphs
  import opened Frames
  import opened KNNSpec

  /**
   * Lines 103-110: put every categorised node into `nodeDistance` under
   * its distance to the new node, and add a frame drawing a line to it.
   */
  method DistanceMap(newNode: Node, nodes: seq<Node>, time: nat) returns (dist: map<real, Node>, frames: seq<Frame>)
    ensures dist == Keyed(Distances(newNode.Value(), Values(nodes)), nodes)
    ensures frames == LineFrames(newNode, nodes, time)
  {
    ghost var ds := Distances(newNode.Value(), Values(nodes));
    dist := map[];
    frames := [];
    var i := 0;
    while i < |nodes|
      invariant 0 <= i <= |nodes|
      invariant dist == Keyed(ds[..i], nodes[..i])
      invariant frames == LineFrames(newNode, nodes[..i], time)
    {
      var node := nodes[i];
      dist := dist[SqDist(newNode.Value(), node.Value()) := node];
      LineFramesSnoc(newNode, nodes[..i], node, time);
      frames := frames + [Frame(time, DrawLine(newNode, node))];
      assert ds[..i + 1][..i] == ds[..i] && nodes[..i + 1][..i] == nodes[..i];
      assert nodes[..i] + [node] == nodes[..i + 1];
      i := i + 1;
    }
    assert ds[..|nodes|] == ds && nodes[..|nodes|] == nodes;
  }

  /** Lines 113-117: the keys of the distance map in ascending order. */
  method SortKeys(dist: map<real, Node>) returns (keys: seq<real>)
    ensures keys == SortedKeys(dist.Keys)
  {
    var rest := dist.Keys;
    keys := [];
    while rest != {}
      invariant keys + SortedKeys(rest) == SortedKeys(dist.Keys)
      decreases |rest|
    {
      LeastExists(rest);
      var least :| least in rest && forall y :: y in rest ==> least <= y;
      SortedKeysFirst(rest, least);
      Regroup(keys, [least], SortedKeys(rest - {least}));
      keys := keys + [least];
      rest := rest - {least};
    }
  }

  /** Lines 120-123: take the nodes under the keys in order while fewer than k are taken. */
  method TakeNearest(dist: map<real, Node>, keys: seq<real>, k: int) returns (nearest: seq<Node>)
    requires forall i :: 0 <= i < |keys| ==> keys[i] in dist
    ensures nearest == Front(dist, keys, k)
  {
    nearest := [];
    var i := 0;
    while i < |keys|
      invariant 0 <= i <= Take(k, |keys|)
      invariant |nearest| == i && forall t :: 0 <= t < i ==> nearest[t] == dist[keys[t]]
    {
      if |nearest| < k {
        nearest := nearest + [dist[keys[i]]];
      } else {
        break;
      }
      i := i + 1;
    }
  }

  /**
   * Lines 169-173: find the palette colour equal to `c` and add one to
   * its count; a colour outside the palette changes no count.
   */
  method CountOne(countColor: array<int>, c: Color)
    requires countColor.Length == |Categories|
    modifies countColor
    ensures forall j :: 0 <= j < |Categories| ==>
      countColor[j] == old(countColor[j]) + (if Categories[j] == c then 1 else 0)
  {
    var j := 0;
    while j < |Categories|
      invariant 0 <= j <= |Categories|
      invariant forall t :: 0 <= t < j ==> Categories[t] != c
      invariant countColor[..] == old(countColor[..])
    {
      if c == Categories[j] {
        countColor[j] := countColor[j] + 1;
        CategoriesDistinct();
        return;
      }
      j := j + 1;
    }
  }

  /**
   * Lines 161-174: count the nodes of each palette colour in `countColor`;
   * a node whose colour is not in the palette is counted nowhere.
   */
  method CountColours(nodeList: seq<Node>) returns (countColor: array<int>)
    ensures fresh(countColor)
    ensures countColor[..] == Counts(Colours(Values(nodeList)))
  {
    ghost var cs := Colours(Values(nodeList));
    countColor := new int[|Categories|](_ => 0);
    var i := 0;
    while i < |nodeList|
      invariant 0 <= i <= |nodeList|
      invariant countColor[..] == Counts(cs[..i])
    {
      ghost var before := countColor[..];
      CountOne(countColor, nodeList[i].category);
      CountsStep(cs, i, before, countColor[..]);
      i := i + 1;
    }
    assert cs[..|nodeList|] == cs;
  }

  /**
   * Lines 175-177: put every count into `categoryCount` with its palette
   * colour, in palette order, so a later colour with the same count
   * replaces an earlier one.
   */
  method CountMap(countColor: array<int>) returns (categoryCount: map<int, Color>)
    requires countColor.Length == |Categories|
    ensures categoryCount == Keyed(countColor[..], Categories)
  {
    ghost var counts := countColor[..];
    categoryCount := map[];
    var m := 0;
    while m < |Categories|
      invariant 0 <= m <= |Categories|
      invariant categoryCount == Keyed(counts[..m], Categories[..m])
    {
      categoryCount := categoryCount[countColor[m] := Categories[m]];
      assert counts[..m + 1][..m] == counts[..m] && Categories[..m + 1][..m] == Categories[..m];
      m := m + 1;
    }
    assert counts[..|Categories|] == counts && Categories[..|Categories|] == Categories;
  }

  /**
   * Lines 183-185: Arrays.sort(countColor) puts the largest count last,
   * and only that element is read, so this takes the largest count.
   */
  method LargestCount(countColor: array<int>) returns (top: int)
    requires countColor.Length > 0
    ensures top in countColor[..]
    ensures forall t :: 0 <= t < countColor.Length ==> countColor[t] <= top
  {
    top := countColor[0];
    var w := 1;
    while w < countColor.Length
      invariant 1 <= w <= countColor.Length
      invariant top in countColor[..w] && forall t :: 0 <= t < w ==> countColor[t] <= top
    {
      if countColor[w] > top {
        top := countColor[w];
      }
      w := w + 1;
    }
    assert countColor[..countColor.Length] == countColor[..];
  }

  /**
   * maxCategory(nodeList), lines 160-186: count the neighbours of each
   * palette colour, map every count to its colour, and return the colour
   * mapped to the largest count.
   */
  method MaxCategory(nodeList: seq<Node>) returns (category: Color)
    ensures category == Vote(Colours(Values(nodeList)))
    ensures category in Categories
    ensures forall j :: 0 <= j < |Categories| ==>
      multiset(Colours(Values(nodeList)))[Categories[j]] <= multiset(Colours(Values(nodeList)))[category]
  {
    var countColor := CountColours(nodeList);
    ghost var counts := countColor[..];
    var categoryCount := CountMap(countColor);
    var top := LargestCount(countColor);
    KeyedLast(counts, Categories);
    ghost var l :| 0 <= l < |counts| && counts[l] == top && categoryCount[top] == Categories[l] &&
      forall t :: l < t < |counts| ==> counts[t] != top;
    WinnerUnique(counts, l);
    category := categoryCount[top];
    VoteMajority(Colours(Values(nodeList)));
  }

  /**
   * The neighbours KNNClustering takes for a new node at `q` among the
   * nodes `ns`: the nodes of the distance map under its k smallest keys.
   */
  ghost function Chosen(q: Point, ns: seq<Node>, k: int): seq<Node>
    reads ns
  {
    Neighbours(Keyed(Distances(q, Values(ns)), ns), k)
  }

  /** The timeline KNNClustering builds for the new node `q`. */
  function Timeline(q: Node, ns: seq<Node>, nearest: seq<Node>, k: int, graph: Graph): seq<Frame>
  {
    [Frame(0, Clear)] + LineFrames(q, ns, 0) + [Frame(1, ShowNeighbours(q, nearest, k))] + [Frame(2, ShowResult(q, graph))]
  }

  /**
   * Lines 95-123: the lines to every categorised node, and the nodes of
   * the distance map under its k smallest keys.
   */
  method SelectNeighbours(newNode: Node, categorizedNode: seq<Node>, k: int)
      returns (lines: seq<Frame>, nearestNeighbors: seq<Node>)
    ensures lines == LineFrames(newNode, categorizedNode, 0)
    ensures nearestNeighbors == Chosen(newNode.Value(), categorizedNode, k)
  {
    var nodeDistance;
    nodeDistance, lines := DistanceMap(newNode, categorizedNode, 0);
    var sortedKeys := SortKeys(nodeDistance);
    nearestNeighbors := TakeNearest(nodeDistance, sortedKeys, k);
  }

  /**
   * KNNClustering(graph, newNode, k), lines 93-141: the frames it builds,
   * and the colour it gives the new node before any frame is played.
   */
  method KNNClustering(graph: Graph, newNode: Node, k: int) returns (frames: seq<Frame>)
    modifies newNode`category
    ensures newNode.x == old(newNode.x) && newNode.y == old(newNode.y)
    ensures var nearest := old(Chosen(newNode.Value(), graph.categorizedNodes, k));
      newNode.category == Vote(Colours(old(Values(nearest)))) &&
      frames == Timeline(newNode, graph.categorizedNodes, nearest, k, graph)
  {
    ghost var chosen := Chosen(newNode.Value(), graph.categorizedNodes, k);
    ghost var chosenValues := Values(chosen);
    var lines, nearestNeighbors := SelectNeighbours(newNode, graph.categorizedNodes, k);
    assert nearestNeighbors == chosen;
    assert Values(nearestNeighbors) == chosenValues;
    frames := [Frame(0, Clear)] + lines + [Frame(1, ShowNeighbours(newNode, nearestNeighbors, k))];
    var category := MaxCategory(nearestNeighbors);
    assert category == Vote(Colours(chosenValues));
    newNode.SetCategory(category);
    frames := frames + [Frame(2, ShowResult(newNode, graph))];
  }

  /**
   * What the KNN timeline shows once played: a cleared canvas and a line
   * to every categorised node at second 0; the new node in BLACK with a
   * circle through neighbour k - 1 at second 1, no circle when
   * get(k - 1) throws; the new node in its colour at second 2.
   */
  lemma {:induction false} TimelineShown(q: Node, ns: seq<Node>, nearest: seq<Node>, k: int, graph: Graph)
    ensures Played(Timeline(q, ns, nearest, k, graph)) ==
      [Shot(0, Blank)] + Segments(q.Value(), Values(ns), 0) +
      [Shot(1, Neighbourhood(Point(q.x, q.y, Black), Radius(q.Value(), Values(nearest), k))),
       Shot(2, Classified(q.Value()))]
  {
    var a, b, c := [Frame(0, Clear)], LineFrames(q, ns, 0), [Frame(1, ShowNeighbours(q, nearest, k)), Frame(2, ShowResult(q, graph))];
    assert Timeline(q, ns, nearest, k, graph) == a + b + c by {
      Regroup(a + b, [c[0]], [c[1]]);
    }
    PlayedAt(a);
    PlayedLines(q, ns, 0);
    PlayedAppend(a, b);
    assert Played(a + b) == [Shot(0, Blank)] + Segments(q.Value(), Values(ns), 0);
    ClosingShown(q, nearest, k, graph);
    PlayedAppend(a + b, c);
  }

  /** The last two frames of Timeline show the neighbourhood at second 1 and the result at second 2. */
  lemma {:induction false} ClosingShown(q: Node, nearest: seq<Node>, k: int, graph: Graph)
    ensures Played([Frame(1, ShowNeighbours(q, nearest, k)), Frame(2, ShowResult(q, graph))]) ==
      [Shot(1, Neighbourhood(Point(q.x, q.y, Black), Radius(q.Value(), Values(nearest), k))),
       Shot(2, Classified(q.Value()))]
  {
    PlayedAt([Frame(1, ShowNeighbours(q, nearest, k)), Frame(2, ShowResult(q, graph))]);
  }

  /**
   * Lines 136-140 when the second-2 frame is played: the node is drawn in
   * its colour and handed to graph.add.
   */
  method PlayResult(node: Node, graph: Graph) returns (mark: Mark)
    modifies graph`categorizedNodes, graph`uncategorizedNode
    ensures mark == Classified(Point(node.x, node.y, node.category))
    ensures node.category in Categories ==>
      graph.categorizedNodes == old(graph.categorizedNodes) + [node] && graph.uncategorizedNode == old(graph.uncategorizedNode)
    ensures node.category == Black ==>
      graph.categorizedNodes == old(graph.categorizedNodes) && graph.uncategorizedNode == node
  {
    mark := Shown(ShowResult(node, graph));
    var added := graph.Add(node);
    CategoriesDistinct();
  }

  /** The animation object of algorithms/KNN.java, reduced to the node it classifies and its timeline. */
  class KNN {
    /** The node being classified; null for the empty constructor. */
    var uncategorizedNode: Node?
    /** The KeyFrames of the timeline, in the order they were added. */
    var timeline: seq<Frame>

    /** KNN(): the empty constructor. */
    constructor Empty()
      ensures uncategorizedNode == null && timeline == []
    {
      uncategorizedNode := null;
      timeline := [];
    }

    /**
     * KNN(k, graph, brush): classify the graph's pending node, which it
     * always has because the program sets one just before (line 319 of
     * application/Main.java), and build its timeline.
     */
    constructor (k: int, graph: Graph)
      requires graph.uncategorizedNode != null
      modifies graph.uncategorizedNode`category
      ensures uncategorizedNode == old(graph.uncategorizedNode)
      ensures uncategorizedNode.x == old(graph.uncategorizedNode.x) && uncategorizedNode.y == old(graph.uncategorizedNode.y)
      ensures uncategorizedNode.name == old(graph.uncategorizedNode.name)
      ensures var nearest := old(Chosen(graph.uncategorizedNode.Value(), graph.categorizedNodes, k));
        uncategorizedNode.category == Vote(Colours(old(Values(nearest)))) &&
        timeline == Timeline(uncategorizedNode, graph.categorizedNodes, nearest, k, graph)
    {
      uncategorizedNode := graph.uncategorizedNode;
      new;
      timeline := KNNClustering(graph, uncategorizedNode, k);
    }
  }
}

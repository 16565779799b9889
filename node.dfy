/** graph/Node.java: the mutable point record shared by the graph and the algorithms. */
module Nodes {
  import opened Palette

  /** The state of a node at one moment: its position and its colour. */
  datatype Point = Point(x: real, y: real, category: Color)

  /**
   * The square of the Euclidean distance that both algorithms compute with
   * Math.sqrt; the square root preserves order, so comparisons agree.
   */
  function SqDist(a: Point, b: Point): (d: real)
    ensures d >= 0.0
  {
    (b.x - a.x) * (b.x - a.x) + (b.y - a.y) * (b.y - a.y)
  }

  /** The distance ignores the colour. */
  lemma {:induction false} SqDistByPosition(p: Point, q: Point, c: Point)
    requires p.x == q.x && p.y == q.y
    ensures SqDist(p, c) == SqDist(q, c)
  {
  }

  /** The colours of a list of points, in order. */
  function Colours(ps: seq<Point>): (cs: seq<Color>)
    ensures |cs| == |ps|
    ensures forall i :: 0 <= i < |ps| ==> cs[i] == ps[i].category
  {
    seq(|ps|, i requires 0 <= i < |ps| => ps[i].category)
  }

  /** A node; its category defaults to BLACK and its name to the empty string. */
  class Node {
    var x: real
    var y: real
    var name: string
    var category: Color

    /** Node(x, y): an uncategorised, unnamed node. */
    constructor (x: real, y: real)
      ensures this.x == x && this.y == y
      ensures name == "" && category == Black
    {
      this.x := x;
      this.y := y;
      name := "";
      category := Black;
    }

    /** Node(x, y, category). */
    constructor WithCategory(x: real, y: real, category: Color)
      ensures this.x == x && this.y == y && this.category == category
      ensures name == ""
    {
      this.x := x;
      this.y := y;
      name := "";
      this.category := category;
    }

    /** Node(x, y, name). */
    constructor Named(x: real, y: real, name: string)
      ensures this.x == x && this.y == y && this.name == name
      ensures category == Black
    {
      this.x := x;
      this.y := y;
      this.name := name;
      category := Black;
    }

    /** Node(x, y, name, color). */
    constructor NamedWithCategory(x: real, y: real, name: string, color: Color)
      ensures this.x == x && this.y == y && this.name == name && category == color
    {
      this.x := x;
      this.y := y;
      this.name := name;
      category := color;
    }

    method SetName(name: string)
      modifies this`name
      ensures this.name == name
      ensures x == old(x) && y == old(y) && category == old(category)
    {
      this.name := name;
    }

    method SetCategory(category: Color)
      modifies this`category
      ensures this.category == category
      ensures x == old(x) && y == old(y) && name == old(name)
    {
      this.category := category;
    }

    /** getName(name): the argument is ignored; the stored name is returned. */
    function GetName(name: string): (r: string)
      reads this
      ensures r == this.name
    {
      this.name
    }

    method SetX(x: real)
      modifies this`x
      ensures this.x == x
      ensures y == old(y) && name == old(name) && category == old(category)
    {
      this.x := x;
    }

    method SetY(y: real)
      modifies this`y
      ensures this.y == y
      ensures x == old(x) && name == old(name) && category == old(category)
    {
      this.y := y;
    }

    /** What getX(), getY() and getCategory() return, as one value. */
    function Value(): Point
      reads this
    {
      Point(x, y, category)
    }
  }

  /** The objects of a list of nodes, for frames. */
  function Objects(ns: seq<Node>): set<Node>
  {
    set n | n in ns
  }

  /** The values of a list of nodes. */
  function Values(ns: seq<Node>): (ps: seq<Point>)
    reads ns
    ensures |ps| == |ns|
    ensures forall i :: 0 <= i < |ns| ==> ps[i] == ns[i].Value()
  {
    seq(|ns|, i reads ns requires 0 <= i < |ns| => ns[i].Value())
  }

  /** No node occurs twice in the list: each one is new to the nodes before it. */
  predicate Distinct(ns: seq<Node>)
    decreases |ns|
  {
    ns == [] || (Distinct(ns[..|ns| - 1]) && ns[|ns| - 1] !in ns[..|ns| - 1])
  }

  /** In a list without repeats, different places hold different nodes. */
  lemma {:induction false} DistinctApart(ns: seq<Node>)
    requires Distinct(ns)
    ensures forall i, j :: 0 <= i < j < |ns| ==> ns[i] != ns[j]
    decreases |ns|
  {
    if ns != [] {
      var init := ns[..|ns| - 1];
      DistinctApart(init);
      forall i, j | 0 <= i < j < |ns|
        ensures ns[i] != ns[j]
      {
        assert ns[i] == init[i];
        if j < |ns| - 1 {
          assert ns[j] == init[j];
        }
      }
    }
  }

  /** In a list without repeats, the node at place k is at no other place. */
  lemma {:induction false} DistinctAt(ns: seq<Node>, k: nat)
    requires Distinct(ns) && k < |ns|
    ensures forall j :: 0 <= j < |ns| && j != k ==> ns[j] != ns[k]
  {
    DistinctApart(ns);
  }

  /** A node new to a list without repeats extends it without repeats. */
  lemma {:induction false} DistinctSnoc(ns: seq<Node>, n: Node)
    requires Distinct(ns) && n !in ns
    ensures Distinct(ns + [n])
  {
    assert (ns + [n])[..|ns|] == ns;
  }
}

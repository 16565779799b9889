/**
 * The timelines the two algorithms build. A JavaFX KeyFrame holds a closure
 * that captures node references and reads them only when the frame is
 * played; a Frame here holds the same references, and Shown reads them the
 * way the closure does, so what a frame draws depends on the heap at the
 * time it is played.
 */
module Frames {
  import opened Wrappers
  import opened Palette
  import opened Nodes
  import opened Graphs

  /** The handler of one KeyFrame. */
  datatype Action =
    | Clear                                   // brush.clear()
    | DrawBlack(node: Node)                   // drawPoint(node.getX(), node.getY(), Color.BLACK)
    | DrawPoint(node: Node)                   // drawPoint(node.getX(), node.getY(), node.getCategory())
    | DrawCenter(node: Node)                  // drawCenter(node.getX(), node.getY(), node.getCategory())
    | DrawLine(from: Node, to: Node)          // drawLine(from.getX(), from.getY(), to.getX(), to.getY())
    | ShowNeighbours(node: Node, neighbours: seq<Node>, k: int)
        // clear(); drawPoint(node, BLACK); drawCircle(node, (int) distance(node, neighbours.get(k - 1)))
    | ShowResult(node: Node, graph: Graph)
        // clear(); drawPoint(node, node.getCategory()); graph.add(node)

  /** A KeyFrame: the second at which it plays, and its handler. */
  datatype Frame = Frame(time: nat, action: Action)

  /** What a handler draws once it is played. */
  datatype Mark =
    | Blank                                   // the canvas is cleared
    | Dot(p: Point)                           // a point in colour p.category
    | Centre(p: Point)                        // a centroid in colour p.category
    | Segment(x1: real, y1: real, x2: real, y2: real)   // a line between two positions
    | Neighbourhood(at: Point, radius: Option<nat>)
        // a BLACK point and a circle around it; None when get(k - 1) throws
    | Classified(p: Point)

  /** What one frame showed, with its time. */
  datatype Shot = Shot(time: nat, mark: Mark)

  /** The objects a handler reads when it is played. */
  function Refs(a: Action): set<Node>
  {
    match a
    case Clear => {}
    case DrawBlack(n) => {n}
    case DrawPoint(n) => {n}
    case DrawCenter(n) => {n}
    case DrawLine(f, t) => {f, t}
    case ShowNeighbours(n, ns, _) => {n} + Objects(ns)
    case ShowResult(n, _) => {n}
  }

  /** The square of `n` as a real. */
  function Square(n: nat): real
  {
    (n as real) * (n as real)
  }

  /** Java's (int) cast of Math.sqrt(d) for d >= 0: the integer square root. */
  function FloorSqrt(d: real): (r: nat)
    requires d >= 0.0
    ensures Square(r) <= d < Square(r + 1)
  {
    FloorSqrtFrom(d, 0)
  }

  function FloorSqrtFrom(d: real, r: nat): (s: nat)
    requires Square(r) <= d
    ensures r <= s
    ensures Square(s) <= d < Square(s + 1)
    decreases d.Floor - r
  {
    if Square(r + 1) > d then r
    else
      SquareBelow(r + 1, d);
      FloorSqrtFrom(d, r + 1)
  }

  /** A positive whole number whose square is at most `d` is at most the floor of `d`. */
  lemma {:induction false} SquareBelow(n: nat, d: real)
    requires 1 <= n && Square(n) <= d
    ensures n <= d.Floor
  {
    assert (n as real) * 1.0 <= (n as real) * (n as real);
  }

  /**
   * The radius of the circle at line 128 of algorithms/KNN.java: the
   * distance to neighbour k - 1 cast to int; None when get(k - 1) throws.
   */
  function Radius(q: Point, ps: seq<Point>, k: int): (r: Option<nat>)
    ensures r.Some? <==> 1 <= k <= |ps|
    ensures r.Some? ==> (r.value as real) * (r.value as real) <= SqDist(q, ps[k - 1])
    ensures r.Some? ==> SqDist(q, ps[k - 1]) < ((r.value + 1) as real) * ((r.value + 1) as real)
  {
    if 1 <= k <= |ps| then Some(FloorSqrt(SqDist(q, ps[k - 1]))) else None
  }

  /** What the handler of `a` draws, read from the heap when it runs. */
  function Shown(a: Action): Mark
    reads Refs(a)
  {
    match a
    case Clear => Blank
    case DrawBlack(n) => Dot(Point(n.x, n.y, Black))
    case DrawPoint(n) => Dot(n.Value())
    case DrawCenter(n) => Centre(n.Value())
    case DrawLine(f, t) => Segment(f.x, f.y, t.x, t.y)
    case ShowNeighbours(n, ns, k) => Neighbourhood(Point(n.x, n.y, Black), Radius(n.Value(), Values(ns), k))
    case ShowResult(n, _) => Classified(n.Value())
  }

  /** The objects all frames of a timeline read. */
  function FramesRefs(frames: seq<Frame>): set<Node>
  {
    set i, o | 0 <= i < |frames| && o in Refs(frames[i].action) :: o
  }

  /** The frames of two timelines, one after the other, read what each of them reads. */
  lemma {:induction false} FramesRefsAppend(a: seq<Frame>, b: seq<Frame>)
    ensures FramesRefs(a + b) == FramesRefs(a) + FramesRefs(b)
  {
    forall o | o in FramesRefs(a + b)
      ensures o in FramesRefs(a) + FramesRefs(b)
    {
      var i :| 0 <= i < |a + b| && o in Refs((a + b)[i].action);
      if i >= |a| {
        assert (a + b)[i] == b[i - |a|];
      }
    }
    forall o | o in FramesRefs(a)
      ensures o in FramesRefs(a + b)
    {
      var i :| 0 <= i < |a| && o in Refs(a[i].action);
      assert (a + b)[i] == a[i];
    }
    forall o | o in FramesRefs(b)
      ensures o in FramesRefs(a + b)
    {
      var i :| 0 <= i < |b| && o in Refs(b[i].action);
      assert (a + b)[|a| + i] == b[i];
    }
  }

  /** A prefix of a timeline reads no more than the timeline. */
  lemma {:induction false} FramesRefsPrefix(frames: seq<Frame>, n: nat)
    requires n <= |frames|
    ensures FramesRefs(frames[..n]) <= FramesRefs(frames)
  {
    forall o | o in FramesRefs(frames[..n])
      ensures o in FramesRefs(frames)
    {
      var i :| 0 <= i < n && o in Refs(frames[..n][i].action);
      assert frames[..n][i] == frames[i];
    }
  }

  /** What every frame of a timeline shows when the timeline is played now. */
  function Played(frames: seq<Frame>): (shots: seq<Shot>)
    reads FramesRefs(frames)
    ensures |shots| == |frames|
  {
    if frames == [] then []
    else
      var n := |frames| - 1;
      FramesRefsPrefix(frames, n);
      Played(frames[..n]) + [Shot(frames[n].time, Shown(frames[n].action))]
  }

  /** Frame i of a played timeline is the shot frame i draws. */
  lemma {:induction false} PlayedAt(frames: seq<Frame>)
    ensures forall i :: 0 <= i < |frames| ==> Played(frames)[i] == Shot(frames[i].time, Shown(frames[i].action))
  {
    if frames != [] {
      var n := |frames| - 1;
      PlayedAt(frames[..n]);
      FramesRefsPrefix(frames, n);
    }
  }

  /** Playing two timelines one after the other shows what each shows, in order. */
  lemma {:induction false} PlayedAppend(a: seq<Frame>, b: seq<Frame>)
    ensures FramesRefs(a + b) == FramesRefs(a) + FramesRefs(b)
    ensures Played(a + b) == Played(a) + Played(b)
  {
    FramesRefsAppend(a, b);
    PlayedAt(a);
    PlayedAt(b);
    PlayedAt(a + b);
  }

  /** Frames that draw each node of `ns` in its own colour. */
  function PointFrames(ns: seq<Node>, time: nat): (fs: seq<Frame>)
    ensures |fs| == |ns|
    ensures forall i :: 0 <= i < |ns| ==> fs[i] == Frame(time, DrawPoint(ns[i]))
  {
    seq(|ns|, i requires 0 <= i < |ns| => Frame(time, DrawPoint(ns[i])))
  }

  /** One more node, one more frame drawing it. */
  lemma {:induction false} PointFramesSnoc(ns: seq<Node>, n: Node, time: nat)
    ensures PointFrames(ns + [n], time) == PointFrames(ns, time) + [Frame(time, DrawPoint(n))]
  {
  }

  /** Frames that draw a line from `from` to each node of `ns`. */
  function LineFrames(from: Node, ns: seq<Node>, time: nat): (fs: seq<Frame>)
    ensures |fs| == |ns|
    ensures forall i :: 0 <= i < |ns| ==> fs[i] == Frame(time, DrawLine(from, ns[i]))
  {
    seq(|ns|, i requires 0 <= i < |ns| => Frame(time, DrawLine(from, ns[i])))
  }

  /** One more node, one more line. */
  lemma {:induction false} LineFramesSnoc(from: Node, ns: seq<Node>, n: Node, time: nat)
    ensures LineFrames(from, ns + [n], time) == LineFrames(from, ns, time) + [Frame(time, DrawLine(from, n))]
  {
  }

  /** Lines from the position of `q` to each of the positions `ps`, all at one time. */
  function Segments(q: Point, ps: seq<Point>, time: nat): (shots: seq<Shot>)
    ensures |shots| == |ps|
    ensures forall i :: 0 <= i < |ps| ==> shots[i] == Shot(time, Segment(q.x, q.y, ps[i].x, ps[i].y))
  {
    seq(|ps|, i requires 0 <= i < |ps| => Shot(time, Segment(q.x, q.y, ps[i].x, ps[i].y)))
  }

  /** Line frames read their nodes and show the lines between their current positions. */
  lemma {:induction false} PlayedLines(from: Node, ns: seq<Node>, time: nat)
    ensures FramesRefs(LineFrames(from, ns, time)) <= {from} + Objects(ns)
    ensures Played(LineFrames(from, ns, time)) == Segments(from.Value(), Values(ns), time)
  {
    var fs := LineFrames(from, ns, time);
    forall o | o in FramesRefs(fs)
      ensures o in {from} + Objects(ns)
    {
      var i :| 0 <= i < |fs| && o in Refs(fs[i].action);
    }
    PlayedAt(fs);
  }

  /** Frames that draw each node of `ns` as a centroid. */
  function CenterFrames(ns: seq<Node>, time: nat): (fs: seq<Frame>)
    ensures |fs| == |ns|
    ensures forall i :: 0 <= i < |ns| ==> fs[i] == Frame(time, DrawCenter(ns[i]))
  {
    seq(|ns|, i requires 0 <= i < |ns| => Frame(time, DrawCenter(ns[i])))
  }

  /** One more centre, one more frame drawing it. */
  lemma {:induction false} CenterFramesSnoc(ns: seq<Node>, n: Node, time: nat)
    ensures CenterFrames(ns + [n], time) == CenterFrames(ns, time) + [Frame(time, DrawCenter(n))]
  {
  }

  /** Dots for a list of point values, all at one time. */
  function Dots(ps: seq<Point>, time: nat): (shots: seq<Shot>)
    ensures |shots| == |ps|
    ensures forall i :: 0 <= i < |ps| ==> shots[i] == Shot(time, Dot(ps[i]))
  {
    seq(|ps|, i requires 0 <= i < |ps| => Shot(time, Dot(ps[i])))
  }

  /** Centroid marks for a list of point values, all at one time. */
  function Centres(ps: seq<Point>, time: nat): (shots: seq<Shot>)
    ensures |shots| == |ps|
    ensures forall i :: 0 <= i < |ps| ==> shots[i] == Shot(time, Centre(ps[i]))
  {
    seq(|ps|, i requires 0 <= i < |ps| => Shot(time, Centre(ps[i])))
  }

  /** One second of a timeline as it is meant to look: points, then centroids. */
  datatype Scene = Scene(time: nat, dots: seq<Point>, centres: seq<Point>)

  /** The shots of one second: a cleared canvas, every dot, then every centroid. */
  function Picture(sc: Scene): (shots: seq<Shot>)
    ensures |shots| == 1 + |sc.dots| + |sc.centres|
  {
    [Shot(sc.time, Blank)] + Dots(sc.dots, sc.time) + Centres(sc.centres, sc.time)
  }

  /** The shots of a list of seconds, one after the other. */
  function Render(scenes: seq<Scene>): seq<Shot>
  {
    if scenes == [] then [] else Render(scenes[..|scenes| - 1]) + Picture(scenes[|scenes| - 1])
  }

  /** A suffix of a timeline reads no more than the timeline. */
  lemma {:induction false} FramesRefsSuffix(frames: seq<Frame>, n: nat)
    requires n <= |frames|
    ensures FramesRefs(frames[n..]) <= FramesRefs(frames)
  {
    forall o | o in FramesRefs(frames[n..])
      ensures o in FramesRefs(frames)
    {
      var i :| 0 <= i < |frames| - n && o in Refs(frames[n..][i].action);
      assert frames[n..][i] == frames[n + i];
    }
  }

  /**
   * `frames`, played now, show the seconds `scenes` one after the other:
   * the last second's picture is drawn by the last frames, and the frames
   * before them show the seconds before it.
   */
  ghost predicate Shows(frames: seq<Frame>, scenes: seq<Scene>)
    reads FramesRefs(frames)
    decreases |scenes|
  {
    if scenes == [] then frames == []
    else
      var sc := scenes[|scenes| - 1];
      var k := |frames| - (1 + |sc.dots| + |sc.centres|);
      0 <= k &&
      (FramesRefsPrefix(frames, k);
       FramesRefsSuffix(frames, k);
       Shows(frames[..k], scenes[..|scenes| - 1]) && Played(frames[k..]) == Picture(sc))
  }

  /** Frames showing `told`, then frames drawing the picture of `sc`, show `told` then `sc`. */
  lemma {:induction false} ShowsSnoc(before: seq<Frame>, told: seq<Scene>, block: seq<Frame>, sc: Scene)
    requires Shows(before, told) && Played(block) == Picture(sc)
    ensures Shows(before + block, told + [sc])
  {
    var all := before + block;
    assert all[..|before|] == before && all[|before|..] == block;
    assert (told + [sc])[..|told|] == told;
    FramesRefsAppend(before, block);
  }

  /** Frames that show a list of seconds, played, draw what Render draws. */
  lemma {:induction false} ShowsRender(frames: seq<Frame>, scenes: seq<Scene>)
    requires Shows(frames, scenes)
    ensures Played(frames) == Render(scenes)
    decreases |scenes|
  {
    if scenes != [] {
      var n := |scenes| - 1;
      var sc := scenes[n];
      var k := |frames| - (1 + |sc.dots| + |sc.centres|);
      FramesRefsPrefix(frames, k);
      FramesRefsSuffix(frames, k);
      ShowsRender(frames[..k], scenes[..n]);
      PlayedAppend(frames[..k], frames[k..]);
      assert frames[..k] + frames[k..] == frames;
    }
  }

  /**
   * One block of the KMeans timeline at second `time`: clear the canvas,
   * draw every node of `ns` as a point, then every node of `ms` as a centroid.
   */
  function Block(ns: seq<Node>, ms: seq<Node>, time: nat): seq<Frame>
  {
    [Frame(time, Clear)] + PointFrames(ns, time) + CenterFrames(ms, time)
  }

  /** A block reads exactly its nodes, and shows their current values. */
  lemma {:induction false} PlayedBlock(ns: seq<Node>, ms: seq<Node>, time: nat)
    ensures FramesRefs(Block(ns, ms, time)) == Objects(ns) + Objects(ms)
    ensures Played(Block(ns, ms, time)) == Picture(Scene(time, Values(ns), Values(ms)))
  {
    var a, b, c := [Frame(time, Clear)], PointFrames(ns, time), CenterFrames(ms, time);
    assert Block(ns, ms, time) == a + b + c;
    assert FramesRefs(a) == {} && Played(a) == [Shot(time, Blank)] by {
      assert a[..0] == [];
    }
    PointRefs(ns, time);
    CenterRefs(ms, time);
    PlayedAppend(a, b);
    PlayedAppend(a + b, c);
    PlayedPoints(ns, time);
    PlayedCenters(ms, time);
  }

  lemma {:induction false} PlayedPoints(ns: seq<Node>, time: nat)
    ensures Played(PointFrames(ns, time)) == Dots(Values(ns), time)
  {
    PointRefs(ns, time);
    PlayedAt(PointFrames(ns, time));
  }

  lemma {:induction false} PlayedCenters(ns: seq<Node>, time: nat)
    ensures Played(CenterFrames(ns, time)) == Centres(Values(ns), time)
  {
    CenterRefs(ns, time);
    PlayedAt(CenterFrames(ns, time));
  }

  lemma {:induction false} PointRefs(ns: seq<Node>, time: nat)
    ensures FramesRefs(PointFrames(ns, time)) == Objects(ns)
  {
    var fs := PointFrames(ns, time);
    forall o | o in FramesRefs(fs)
      ensures o in Objects(ns)
    {
      var i :| 0 <= i < |fs| && o in Refs(fs[i].action);
    }
    forall o | o in Objects(ns)
      ensures o in FramesRefs(fs)
    {
      var i :| 0 <= i < |ns| && ns[i] == o;
      assert o in Refs(fs[i].action);
    }
  }


  lemma {:induction false} CenterRefs(ns: seq<Node>, time: nat)
    ensures FramesRefs(CenterFrames(ns, time)) == Objects(ns)
  {
    var fs := CenterFrames(ns, time);
    forall o | o in FramesRefs(fs)
      ensures o in Objects(ns)
    {
      var i :| 0 <= i < |fs| && o in Refs(fs[i].action);
    }
    forall o | o in Objects(ns)
      ensures o in FramesRefs(fs)
    {
      var i :| 0 <= i < |ns| && ns[i] == o;
      assert o in Refs(fs[i].action);
    }
  }


  /** Frames that draw each node of `ns` in BLACK, whatever its colour. */
  function BlackFrames(ns: seq<Node>, time: nat): (fs: seq<Frame>)
    ensures |fs| == |ns|
    ensures forall i :: 0 <= i < |ns| ==> fs[i] == Frame(time, DrawBlack(ns[i]))
  {
    seq(|ns|, i requires 0 <= i < |ns| => Frame(time, DrawBlack(ns[i])))
  }

  /** One more node, one more BLACK frame. */
  lemma {:induction false} BlackFramesSnoc(ns: seq<Node>, n: Node, time: nat)
    ensures BlackFrames(ns + [n], time) == BlackFrames(ns, time) + [Frame(time, DrawBlack(n))]
  {
  }

  /** Black frames read exactly their nodes. */
  lemma {:induction false} BlackRefs(ns: seq<Node>, time: nat)
    ensures FramesRefs(BlackFrames(ns, time)) == Objects(ns)
  {
    var fs := BlackFrames(ns, time);
    forall o | o in FramesRefs(fs)
      ensures o in Objects(ns)
    {
      var i :| 0 <= i < |fs| && o in Refs(fs[i].action);
    }
    forall o | o in Objects(ns)
      ensures o in FramesRefs(fs)
    {
      var i :| 0 <= i < |ns| && ns[i] == o;
      assert o in Refs(fs[i].action);
    }
  }

}

/**
 * algorithms/KMeans.java: the clustering loop that builds the K-Means
 * animation. The loop works on copies of the graph's nodes, recolours
 * them in place, and records KeyFrames whose handlers read those copies
 * when the timeline is played.
 */
module KMeans {
  import opened Wrappers
  import opened Palette
  import opened Nodes
  import opened Graphs
  import opened Frames
  import opened KMeansSpec

  /**
   * Lines 123-131: scan the centres, keeping the first one strictly nearer
   * than everything seen so far; `minDist` starts at Double.MAX_VALUE,
   * which None stands for.
   */
  method FindNearest(node: Node, centers: seq<Node>) returns (nearest: Node)
    requires centers != []
    ensures nearest == centers[Nearest(node.Value(), Values(centers))]
  {
    ghost var p := node.Value();
    ghost var cs := Values(centers);
    var minDist: Option<real> := None;
    var best: Node? := null;
    var i := 0;
    while i < |centers|
      invariant 0 <= i <= |centers|
      invariant i == 0 ==> best == null && minDist == None
      invariant i > 0 ==>
        best == centers[Nearest(p, cs[..i])] && minDist == Some(SqDist(p, cs[Nearest(p, cs[..i])]))
    {
      var dist := SqDist(node.Value(), centers[i].Value());
      if minDist.None? || dist < minDist.value {
        best := centers[i];
        minDist := Some(dist);
      }
      assert cs[..i + 1][..i] == cs[..i];
      i := i + 1;
    }
    assert cs[..|centers|] == cs;
    nearest := best;
  }

  /**
   * Lines 161-169: count the nodes of colour `c` and add up their
   * coordinates into longs, truncating after every addition.
   */
  method Tally(nodes: seq<Node>, c: Color) returns (count: nat, sumX: int, sumY: int)
    ensures KMeansSpec.Tally(count, sumX, sumY) == TallyOf(Values(nodes), c)
    ensures count == multiset(Colours(Values(nodes)))[c]
  {
    ghost var ps := Values(nodes);
    count, sumX, sumY := 0, 0, 0;
    var i := 0;
    while i < |nodes|
      invariant 0 <= i <= |nodes|
      invariant KMeansSpec.Tally(count, sumX, sumY) == TallyOf(ps[..i], c)
    {
      var node := nodes[i];
      if c == node.category {
        count := count + 1;
        sumX := Trunc(sumX as real + node.x);
        sumY := Trunc(sumY as real + node.y);
      }
      assert ps[..i + 1][..i] == ps[..i];
      i := i + 1;
    }
    assert ps[..|nodes|] == ps;
    TallyCounts(ps, c);
  }

  /**
   * Lines 182-184: the smallest displacement of a centre, SSE, as a squared
   * distance; None stands for the Double.MAX_VALUE it starts at.
   */
  method SmallestShift(centers: seq<Point>, moved: seq<Point>) returns (sse: Option<real>)
    requires |centers| == |moved|
    ensures sse.None? <==> centers == []
    ensures sse.Some? ==>
      (exists i :: 0 <= i < |centers| && sse.value == SqDist(centers[i], moved[i])) &&
      forall i :: 0 <= i < |centers| ==> sse.value <= SqDist(centers[i], moved[i])
    ensures (sse.Some? && sse.value <= Tolerance) <==> Converged(centers, moved)
  {
    sse := None;
    var i := 0;
    while i < |centers|
      invariant 0 <= i <= |centers|
      invariant sse.None? <==> i == 0
      invariant sse.Some? ==>
        (exists j :: 0 <= j < i && sse.value == SqDist(centers[j], moved[j])) &&
        forall j :: 0 <= j < i ==> sse.value <= SqDist(centers[j], moved[j])
    {
      var d := SqDist(centers[i], moved[i]);
      if sse.None? || d < sse.value {
        sse := Some(d);
      }
      i := i + 1;
    }
  }

  /** Lines 181-188: the loop stops once SSE, the smallest displacement, is within the tolerance. */
  method ShouldStop(centers: seq<Point>, moved: seq<Point>) returns (stop: bool)
    requires |centers| == |moved|
    ensures stop <==> Converged(centers, moved)
  {
    var sse := SmallestShift(centers, moved);
    stop := sse.Some? && sse.value <= Tolerance;
  }

  /**
   * Lines 123-137 for one node: give it the colour of its nearest centre,
   * then make the copy that the frame drawing it will read.
   */
  method Classify(node: Node, centers: seq<Node>, ghost p: Point) returns (copy: Node)
    requires centers != [] && node !in Objects(centers)
    requires node.x == p.x && node.y == p.y
    modifies node`category
    ensures node.category == Values(centers)[Nearest(p, Values(centers))].category
    ensures Values(centers) == old(Values(centers))
    ensures fresh(copy) && copy.x == p.x && copy.y == p.y && copy.category == node.category
  {
    ghost var cs := Values(centers);
    var nearest := FindNearest(node, centers);
    NearestByPosition(node.Value(), p, cs);
    ghost var k := Nearest(p, cs);
    assert nearest == centers[k] && nearest.category == cs[k].category;
    node.SetCategory(nearest.category);
    assert Values(centers) == cs;
    copy := new Node.WithCategory(node.x, node.y, node.category);
  }

  /**
   * Lines 122-137: recolour every node with the colour of its nearest
   * centre, copy it, and add a frame drawing the copy. `pos` holds the
   * points' positions.
   */
  method ClassifyAll(nodes: seq<Node>, centers: seq<Node>, time: nat, ghost pos: seq<Point>)
      returns (frames: seq<Frame>, copies: seq<Node>)
    requires centers != [] && Distinct(nodes) && Objects(nodes) !! Objects(centers)
    requires |pos| == |nodes|
    requires forall i :: 0 <= i < |nodes| ==> nodes[i].x == pos[i].x && nodes[i].y == pos[i].y
    modifies nodes`category
    ensures Values(nodes) == Label(pos, Assignment(pos, Values(centers)))
    ensures Values(centers) == old(Values(centers))
    ensures fresh(Objects(copies)) && Values(copies) == Values(nodes)
    ensures frames == PointFrames(copies, time)
  {
    ghost var cs := Values(centers);
    ghost var asg := Assignment(pos, cs);
    frames, copies := [], [];
    var i := 0;
    while i < |nodes|
      invariant 0 <= i <= |nodes| && |copies| == i
      invariant Values(centers) == cs
      invariant forall j :: 0 <= j < i ==>
        nodes[j].category == asg[j] && fresh(copies[j]) && copies[j].Value() == nodes[j].Value()
      invariant frames == PointFrames(copies, time)
    {
      DistinctAt(nodes, i);
      var copy := Classify(nodes[i], centers, pos[i]);
      PointFramesSnoc(copies, copy, time);
      copies := copies + [copy];
      frames := frames + [Frame(time, DrawPoint(copy))];
      i := i + 1;
    }
  }

  /**
   * Lines 118-143: the Clear frame, then every node recoloured with the
   * colour of its nearest centre and drawn through a copy, then a frame
   * drawing every centre.
   */
  method AssignStep(nodes: seq<Node>, centers: seq<Node>, time: nat, ghost pos: seq<Point>)
      returns (frames: seq<Frame>, copies: seq<Node>)
    requires centers != [] && Distinct(nodes) && Objects(nodes) !! Objects(centers)
    requires |pos| == |nodes|
    requires forall i :: 0 <= i < |nodes| ==> nodes[i].x == pos[i].x && nodes[i].y == pos[i].y
    modifies nodes`category
    ensures Values(nodes) == Label(pos, Assignment(pos, Values(centers)))
    ensures Values(centers) == old(Values(centers))
    ensures fresh(Objects(copies)) && Values(copies) == Values(nodes)
    ensures frames == Block(copies, centers, time)
  {
    var pointFrames;
    pointFrames, copies := ClassifyAll(nodes, centers, time, pos);
    var drawn := CenterFramesOf(centers, time);
    frames := [Frame(time, Clear)] + pointFrames + drawn;
  }

  /** AssignStep, run after the frames `played`, which read none of the nodes: they show what they showed. */
  method AssignAfter(nodes: seq<Node>, centers: seq<Node>, time: nat, ghost pos: seq<Point>,
                     ghost played: seq<Frame>, ghost told: seq<Scene>)
      returns (frames: seq<Frame>, copies: seq<Node>)
    requires centers != [] && Distinct(nodes) && Objects(nodes) !! Objects(centers)
    requires |pos| == |nodes|
    requires forall i :: 0 <= i < |nodes| ==> nodes[i].x == pos[i].x && nodes[i].y == pos[i].y
    requires Shows(played, told) && FramesRefs(played) !! Objects(nodes)
    modifies nodes`category
    ensures Values(nodes) == Label(pos, Assignment(pos, Values(centers)))
    ensures Values(centers) == old(Values(centers))
    ensures fresh(Objects(copies)) && Values(copies) == Values(nodes)
    ensures frames == Block(copies, centers, time)
    ensures Shows(played, told)
  {
    assert forall o :: o in FramesRefs(played) ==> allocated(o);
    frames, copies := AssignStep(nodes, centers, time, pos);
  }

  /** Lines 139-143: a frame drawing every centre. */
  method CenterFramesOf(centers: seq<Node>, time: nat) returns (frames: seq<Frame>)
    ensures frames == CenterFrames(centers, time)
  {
    frames := [];
    var c := 0;
    while c < |centers|
      invariant 0 <= c <= |centers|
      invariant frames == CenterFrames(centers[..c], time)
    {
      frames := frames + [Frame(time, DrawCenter(centers[c]))];
      c := c + 1;
    }
    assert centers[..|centers|] == centers;
  }

  /**
   * Lines 151-158: a copy of every node, with a frame drawing the copy.
   * `avoid` names objects that exist already; the copies are none of them.
   */
  method CopyNodes(nodes: seq<Node>, time: nat, ghost avoid: set<object>) returns (frames: seq<Frame>, copies: seq<Node>)
    ensures Values(copies) == Values(nodes) && Distinct(copies)
    ensures fresh(Objects(copies)) && Objects(copies) !! avoid
    ensures frames == PointFrames(copies, time)
  {
    frames, copies := [], [];
    var i := 0;
    while i < |nodes|
      invariant 0 <= i <= |nodes| && |copies| == i
      invariant forall j :: 0 <= j < i ==> copies[j].Value() == nodes[j].Value()
      invariant forall j :: 0 <= j < i ==> fresh(copies[j]) && copies[j] !in avoid
      invariant Distinct(copies)
      invariant frames == PointFrames(copies, time)
    {
      var copy := new Node.WithCategory(nodes[i].x, nodes[i].y, nodes[i].category);
      DistinctSnoc(copies, copy);
      PointFramesSnoc(copies, copy, time);
      copies := copies + [copy];
      frames := frames + [Frame(time, DrawPoint(copy))];
      i := i + 1;
    }
  }

  /**
   * Lines 159-179: for every centre, tally the nodes of its colour and make
   * the moved centre, with a frame drawing it.
   */
  method MoveCenters(nodes: seq<Node>, centers: seq<Node>, time: nat, ghost avoid: set<object>)
      returns (frames: seq<Frame>, moved: seq<Node>)
    ensures Values(moved) == Update(Values(nodes), Values(centers))
    ensures OnCanvas(Values(nodes)) ==>
      forall i :: 0 <= i < |moved| ==> AtMean(Values(nodes), Values(centers)[i], Values(moved)[i])
    ensures fresh(Objects(moved)) && Objects(moved) !! avoid
    ensures frames == CenterFrames(moved, time)
  {
    ghost var ps := Values(nodes);
    ghost var cs := Values(centers);
    if OnCanvas(ps) {
      UpdateMeans(ps, cs);
    }
    frames, moved := [], [];
    var c := 0;
    while c < |centers|
      invariant 0 <= c <= |centers| && |moved| == c
      invariant forall j :: 0 <= j < c ==> moved[j].Value() == Moved(ps, cs[j])
      invariant forall j :: 0 <= j < c ==> fresh(moved[j]) && moved[j] !in avoid
      invariant frames == CenterFrames(moved, time)
    {
      var center := centers[c];
      var count, sumX, sumY := Tally(nodes, center.category);
      var next: Node;
      if count != 0 {
        next := new Node.WithCategory(Quot(sumX, count) as real, Quot(sumY, count) as real, center.category);
      } else {
        next := new Node.WithCategory(center.x, center.y, center.category);
      }
      CenterFramesSnoc(moved, next, time);
      moved := moved + [next];
      frames := frames + [Frame(time, DrawCenter(next))];
      c := c + 1;
    }
  }

  /**
   * Lines 97-102: a BLACK copy of every node of the graph, and a frame that
   * draws the graph's node itself in BLACK.
   */
  method Blacken(nodes: seq<Node>, ghost pos: seq<Point>) returns (frames: seq<Frame>, copies: seq<Node>)
    requires pos == Values(nodes)
    ensures Values(copies) == Label(pos, Blacks(|pos|)) && Distinct(copies)
    ensures fresh(Objects(copies))
    ensures frames == BlackFrames(nodes, 0)
  {
    frames, copies := [], [];
    var i := 0;
    while i < |nodes|
      invariant 0 <= i <= |nodes| && |copies| == i
      invariant forall j :: 0 <= j < i ==> copies[j].Value() == Point(pos[j].x, pos[j].y, Black)
      invariant forall j :: 0 <= j < i ==> fresh(copies[j])
      invariant Distinct(copies)
      invariant frames == BlackFrames(nodes[..i], 0)
    {
      var node := nodes[i];
      var copy := new Node.WithCategory(node.x, node.y, Black);
      DistinctSnoc(copies, copy);
      assert nodes[..i + 1] == nodes[..i] + [node];
      BlackFramesSnoc(nodes[..i], node, 0);
      copies := copies + [copy];
      frames := frames + [Frame(0, DrawBlack(node))];
      i := i + 1;
    }
    assert nodes[..|nodes|] == nodes;
  }

  /**
   * Lines 104-111: centre i at starts[i] in palette colour i. The random
   * coordinates drawn by rand.nextDouble() (java.util.Random, lines 105-108) are the parameter `starts` here.
   */
  method SeedCenters(starts: seq<(real, real)>) returns (centers: seq<Node>)
    requires |starts| <= Size()
    ensures Values(centers) == Seeds(starts)
    ensures fresh(Objects(centers))
  {
    centers := [];
    var i := 0;
    while i < |starts|
      invariant 0 <= i <= |starts| && |centers| == i
      invariant forall j :: 0 <= j < i ==> centers[j].Value() == Seeds(starts)[j]
      invariant forall j :: 0 <= j < i ==> fresh(centers[j])
    {
      var colour := GetColor(i);
      var node := new Node.WithCategory(starts[i].0, starts[i].1, colour.value);
      centers := centers + [node];
      i := i + 1;
    }
  }

  /** The frames of second 0 show the opening picture and read only the graph's nodes. */
  lemma {:induction false} OpeningShown(nodes: seq<Node>, pos: seq<Point>, frames: seq<Frame>)
    requires pos == Values(nodes) && frames == [Frame(0, Clear)] + BlackFrames(nodes, 0)
    ensures Shows(frames, [Opening(pos)])
    ensures FramesRefs(frames) == Objects(nodes)
  {
    var first := [Frame(0, Clear)];
    PlayedAppend(first, BlackFrames(nodes, 0));
    PlayedAt(first);
    BlackShown(nodes, pos);
    BlackRefs(nodes, 0);
    assert FramesRefs(first) == {};
    assert Centres(Opening(pos).centres, 0) == [];
    assert Played(frames) == Picture(Opening(pos));
    ShowsSnoc([], [], frames, Opening(pos));
    assert [] + frames == frames && [] + [Opening(pos)] == [Opening(pos)];
  }

  /** The BLACK frames of the graph's nodes draw the dots of the opening picture. */
  lemma {:induction false} BlackShown(nodes: seq<Node>, pos: seq<Point>)
    requires pos == Values(nodes)
    ensures Played(BlackFrames(nodes, 0)) == Dots(Opening(pos).dots, 0)
  {
    PlayedAt(BlackFrames(nodes, 0));
  }

  /** Nodes holding a labelling of `pos` stand at the places of `pos`. */
  lemma {:induction false} SamePlaces(nodes: seq<Node>, pos: seq<Point>, colours: seq<Color>)
    requires |colours| == |pos| && Values(nodes) == Label(pos, colours)
    ensures |nodes| == |pos|
    ensures forall i :: 0 <= i < |nodes| ==> nodes[i].x == pos[i].x && nodes[i].y == pos[i].y
  {
    forall i | 0 <= i < |nodes|
      ensures nodes[i].x == pos[i].x && nodes[i].y == pos[i].y
    {
      assert Values(nodes)[i] == Label(pos, colours)[i];
    }
  }

  /** A timeline showing `told`, followed by a block showing `sc`, shows `told` then `sc`. */
  lemma {:induction false} BlockAfter(before: seq<Frame>, told: seq<Scene>, ns: seq<Node>, ms: seq<Node>, sc: Scene)
    requires Shows(before, told)
    requires sc == Scene(sc.time, Values(ns), Values(ms))
    ensures FramesRefs(before + Block(ns, ms, sc.time)) == FramesRefs(before) + Objects(ns) + Objects(ms)
    ensures Shows(before + Block(ns, ms, sc.time), told + [sc])
  {
    PlayedBlock(ns, ms, sc.time);
    FramesRefsAppend(before, Block(ns, ms, sc.time));
    ShowsSnoc(before, told, Block(ns, ms, sc.time), sc);
  }

  /** Once pass j has recoloured the nodes, its assignment frames show its assignment second. */
  lemma {:induction false} AssignShown(pos: seq<Point>, R: seq<Round>, j: nat, told: seq<Scene>, before: seq<Frame>,
                    assignFrames: seq<Frame>, shown: seq<Node>, centers: seq<Node>)
    requires Fits(pos, R) && j < |R|
    requires Values(centers) == R[j].centers && Values(shown) == Label(pos, R[j].assignment)
    requires assignFrames == Block(shown, centers, 2 * j + 1)
    requires Shows(before, told)
    ensures Shows(before + assignFrames, told + [Assigned(pos, R, j)])
  {
    var sc := Assigned(pos, R, j);
    assert sc == Scene(2 * j + 1, Values(shown), Values(centers));
    BlockAfter(before, told, shown, centers, sc);
  }

  /**
   * Once pass j has recoloured the nodes, the frames of the previous update
   * second, whose nodes are the ones recoloured, show pass j's colours.
   */
  lemma {:induction false} UpdateShown(pos: seq<Point>, R: seq<Round>, last: nat, j: nat, told: seq<Scene>, before: seq<Frame>,
                    pending: seq<Frame>, nodes: seq<Node>, centers: seq<Node>, time: nat)
    requires Fits(pos, R) && last + 1 == j < |R| && time == 2 * j
    requires Values(centers) == R[last].moved && Values(nodes) == Label(pos, R[j].assignment)
    requires pending == Block(nodes, centers, time)
    requires Shows(before, told)
    ensures Covers(pos, R, Later(R))
    ensures Shows(before + pending, told + [Updated(pos, R, Later(R), last)])
  {
    var upd := Later(R);
    LaterCovers(pos, R);
    LaterBefore(R, last, j);
    var sc := Updated(pos, R, upd, last);
    assert sc == Scene(time, Values(nodes), Values(centers));
    BlockAfter(before, told, nodes, centers, sc);
  }

  /**
   * When pass j is the last, the frames of its update second show its own
   * colours, and the whole timeline shows AsPlayed.
   */
  lemma {:induction false} LastShown(pos: seq<Point>, R: seq<Round>, j: nat, settled: seq<Frame>, pending: seq<Frame>,
                  copies: seq<Node>, moved: seq<Node>, time: nat)
    requires Fits(pos, R) && j + 1 == |R| && time == 2 * j + 2
    requires Covers(pos, R, Later(R)) && Shows(settled, Movie(pos, R, Later(R), j))
    requires pending == Block(copies, moved, time)
    requires Values(copies) == Label(pos, R[j].assignment) && Values(moved) == R[j].moved
    ensures Shows(settled + pending, AsPlayed(pos, R))
  {
    var upd := Later(R);
    LaterLast(R, j);
    var sc := Updated(pos, R, upd, j);
    assert sc == Scene(time, Values(copies), Values(moved));
    BlockAfter(settled, Movie(pos, R, upd, j), copies, moved, sc);
    FullLast(pos, R, upd, j);
  }

  /**
   * The state of KMeansClustering at the head of its loop, before pass j:
   * the nodes of categorizedNodes and the centres, the second `time` the
   * pass starts at, the frames settled and the frames still pending, and,
   * once a pass has run, the pass `last` before this one, the second
   * `pendingTime` of its update frames and the colours `prev` it left.
   */
  datatype Stage = Stage(nodes: seq<Node>, centers: seq<Node>, j: nat, time: nat,
                         settled: seq<Frame>, pending: seq<Frame>,
                         last: nat, pendingTime: nat, prev: seq<Color>)

  /**
   * What holds of the Stage before pass j: the nodes hold the colours of
   * pass j - 1 (all BLACK before pass 0), the centres are the ones pass j
   * starts from, the settled frames show the movie up to pass j - 1, and
   * the pending frames are pass j - 1's update second, drawing the very
   * nodes pass j is about to recolour.
   */
  ghost predicate Progress(pos: seq<Point>, seeds: seq<Point>, R: seq<Round>, st: Stage)
    reads Objects(st.nodes), Objects(st.centers), FramesRefs(st.settled)
  {
    seeds != [] && R == Rounds(pos, seeds) && Fits(pos, R) &&
    st.j <= |R| <= MaxIterations && st.time == 2 * st.j + 1 && (st.j < MaxIterations ==> st.j < |R|) &&
    |st.prev| == |pos| && Values(st.nodes) == Label(pos, st.prev) && Distinct(st.nodes) &&
    |st.centers| == |seeds| && Objects(st.nodes) !! Objects(st.centers) && FramesRefs(st.settled) !! Objects(st.nodes) &&
    (st.j == 0 ==> Values(st.centers) == seeds && st.pending == [] && Shows(st.settled, [Opening(pos)])) &&
    (st.j > 0 ==>
      st.last + 1 == st.j && st.pendingTime + 1 == st.time && st.prev == R[st.last].assignment &&
      Values(st.centers) == R[st.last].moved && st.pending == Block(st.nodes, st.centers, st.pendingTime) &&
      Covers(pos, R, Later(R)) && Shows(st.settled, Movie(pos, R, Later(R), st.last)))
  }

  /** The frames show the whole animation of the rounds R from the centres `seeds`. */
  ghost predicate Done(pos: seq<Point>, seeds: seq<Point>, R: seq<Round>, frames: seq<Frame>)
    reads FramesRefs(frames)
  {
    seeds != [] && R == Rounds(pos, seeds) && Fits(pos, R) && Shows(frames, AsPlayed(pos, R))
  }

  /**
   * What pass j needs of the Stage `st`, for the round R[j] it runs: the
   * facts of Progress about pass j, with the rounds taken as given.
   */
  ghost predicate Ready(pos: seq<Point>, R: seq<Round>, st: Stage)
    reads Objects(st.nodes), Objects(st.centers), FramesRefs(st.settled)
  {
    Fits(pos, R) && st.j < |R| && st.time == 2 * st.j + 1 &&
    R[st.j].centers != [] && R[st.j].assignment == Assignment(pos, R[st.j].centers) &&
    R[st.j].moved == Update(Label(pos, R[st.j].assignment), R[st.j].centers) &&
    |R[st.j].centers| == |R[st.j].moved| && |st.prev| == |pos| && Values(st.nodes) == Label(pos, st.prev) &&
    Distinct(st.nodes) && Objects(st.nodes) !! Objects(st.centers) && FramesRefs(st.settled) !! Objects(st.nodes) &&
    Values(st.centers) == R[st.j].centers &&
    (st.j == 0 ==> st.pending == [] && Shows(st.settled, [Opening(pos)])) &&
    (st.j > 0 ==>
      st.last + 1 == st.j && st.pendingTime + 1 == st.time && Values(st.centers) == R[st.last].moved &&
      st.pending == Block(st.nodes, st.centers, st.pendingTime) &&
      Covers(pos, R, Later(R)) && Shows(st.settled, Movie(pos, R, Later(R), st.last)))
  }

  /*
   * Contracts below write `Progress(...) == true`, and likewise for Ready,
   * Ran and Done. The comparison keeps each predicate a single fact at the
   * call site instead of one proof obligation per conjunct, which keeps
   * the methods of the loop within the verifier's resource budget.
   */

  /** Before pass j < MaxIterations, the Stage Progress describes is Ready for round R[j]. */
  lemma {:induction false} Prepared(pos: seq<Point>, seeds: seq<Point>, R: seq<Round>, st: Stage)
    requires Progress(pos, seeds, R, st) == true && st.j < MaxIterations
    ensures Ready(pos, R, st)
  {
    if st.j > 0 {
      PassFollows(pos, seeds, st.last, st.j);
    } else {
      RoundsSize(pos, seeds);
    }
    PassAt(pos, seeds, st.j);
  }

  /**
   * Lines 118-143 of pass j, from the Stage `st` Progress describes:
   * recolour the nodes, then the Clear frame, a frame per recoloured node's
   * copy and a frame per centre. Played after the frames already settled
   * and the pending frames of the previous update second, whose nodes are
   * the ones just recoloured, they show the movie up to pass j.
   */
  method AssignPass(nodes: seq<Node>, centers: seq<Node>, time: nat,
                    ghost pos: seq<Point>, ghost R: seq<Round>, ghost st: Stage)
      returns (frames: seq<Frame>, shown: seq<Node>)
    requires Ready(pos, R, st) == true
    requires st.nodes == nodes && st.centers == centers && st.time == time
    modifies nodes`category
    ensures Values(nodes) == Label(pos, R[st.j].assignment) && Values(centers) == R[st.j].centers
    ensures fresh(Objects(shown)) && frames == Block(shown, centers, time)
    ensures Covers(pos, R, Later(R))
    ensures Shows(st.settled + st.pending + frames, Movie(pos, R, Later(R), st.j))
  {
    ghost var j := st.j;
    LaterCovers(pos, R);
    SamePlaces(nodes, pos, st.prev);
    ghost var told: seq<Scene> := if j > 0 then Movie(pos, R, Later(R), st.last) else [Opening(pos)];
    frames, shown := AssignAfter(nodes, centers, time, pos, st.settled, told);
    if j > 0 {
      UpdateShown(pos, R, st.last, j, told, st.settled, st.pending, nodes, centers, st.pendingTime);
      MovieNext(pos, R, Later(R), st.last, j);
      told := told + [Updated(pos, R, Later(R), st.last)];
    } else {
      assert st.settled + st.pending == st.settled;
    }
    AssignShown(pos, R, j, told, st.settled + st.pending, frames, shown, centers);
  }

  /**
   * Lines 159-188: every moved centre with a frame drawing it, then the
   * exit test on the smallest displacement. `ps` and `cs` are the values
   * of the nodes and the centres.
   */
  method MoveAndTest(nodes: seq<Node>, centers: seq<Node>, time: nat, ghost avoid: set<object>,
                     ghost ps: seq<Point>, ghost cs: seq<Point>)
      returns (frames: seq<Frame>, moved: seq<Node>, stop: bool)
    requires ps == Values(nodes) && cs == Values(centers)
    ensures Values(moved) == Update(ps, cs)
    ensures fresh(Objects(moved)) && Objects(moved) !! avoid
    ensures frames == CenterFrames(moved, time)
    ensures stop <==> Converged(cs, Update(ps, cs))
  {
    frames, moved := MoveCenters(nodes, centers, time, avoid);
    stop := ShouldStop(Values(centers), Values(moved));
  }

  /**
   * Lines 145-188: the Clear frame of the update second `time + 1`, a copy
   * of every node with a frame drawing it, every moved centre with a frame
   * drawing it, and the exit test. Nothing that exists already changes, so
   * the frames `played` show what they showed.
   */
  method UpdatePass(nodes: seq<Node>, centers: seq<Node>, time: nat, ghost avoid: set<object>,
                    ghost ps: seq<Point>, ghost cs: seq<Point>)
      returns (frames: seq<Frame>, copies: seq<Node>, moved: seq<Node>, stop: bool)
    requires ps == Values(nodes) && cs == Values(centers)
    ensures Values(copies) == ps && Distinct(copies)
    ensures Values(moved) == Update(ps, cs)
    ensures fresh(Objects(copies)) && fresh(Objects(moved))
    ensures Objects(copies) !! avoid && Objects(moved) !! avoid + Objects(copies)
    ensures frames == Block(copies, moved, time + 1)
    ensures stop <==> Converged(cs, Update(ps, cs))
  {
    var copyFrames;
    copyFrames, copies := CopyNodes(nodes, time + 1, avoid);
    var moveFrames;
    moveFrames, moved, stop := MoveAndTest(nodes, centers, time + 1, avoid + Objects(copies), ps, cs);
    frames := [Frame(time + 1, Clear)] + copyFrames + moveFrames;
  }

  /** UpdatePass, run after the frames `played`: they show what they showed. */
  method UpdateAfter(nodes: seq<Node>, centers: seq<Node>, time: nat, ghost avoid: set<object>,
                     ghost ps: seq<Point>, ghost cs: seq<Point>, ghost played: seq<Frame>, ghost told: seq<Scene>)
      returns (frames: seq<Frame>, copies: seq<Node>, moved: seq<Node>, stop: bool)
    requires ps == Values(nodes) && cs == Values(centers) && Shows(played, told)
    ensures Values(copies) == ps && Distinct(copies)
    ensures Values(moved) == Update(ps, cs)
    ensures fresh(Objects(copies)) && fresh(Objects(moved))
    ensures Objects(copies) !! avoid && Objects(moved) !! avoid + Objects(copies)
    ensures frames == Block(copies, moved, time + 1)
    ensures stop <==> Converged(cs, Update(ps, cs))
    ensures Shows(played, told)
    ensures forall i :: 0 <= i < |copies| ==> fresh(copies[i])
  {
    assert forall o :: o in FramesRefs(played) ==> allocated(o);
    frames, copies, moved, stop := UpdatePass(nodes, centers, time, avoid, ps, cs);
    assert forall i :: 0 <= i < |copies| ==> copies[i] in Objects(copies);
  }



  /**
   * One pass of the loop, lines 118-186, from a Stage `st` Ready for round
   * R[j]: the assignment second at `time`, the update second at `time + 1`,
   * and the exit test. The frames of the assignment second go after the
   * frames already settled and the pending frames of the previous update
   * second; the new update second's frames stay pending, because the next
   * pass recolours the nodes they draw.
   */
  method PassSteps(nodes: seq<Node>, centers: seq<Node>, time: nat,
                   ghost pos: seq<Point>, ghost R: seq<Round>, ghost st: Stage)
      returns (frames: seq<Frame>, next: seq<Frame>, copies: seq<Node>, moved: seq<Node>, stop: bool)
    requires Ready(pos, R, st) == true
    requires st.nodes == nodes && st.centers == centers && st.time == time
    modifies nodes`category
    ensures Covers(pos, R, Later(R))
    ensures Shows(st.settled + st.pending + frames, Movie(pos, R, Later(R), st.j))
    ensures FramesRefs(st.settled + st.pending + frames) !! Objects(copies)
    ensures forall i :: 0 <= i < |copies| ==> fresh(copies[i])
    ensures Distinct(copies) && Objects(copies) !! Objects(moved)
    ensures Values(copies) == Label(pos, R[st.j].assignment) && Values(moved) == R[st.j].moved
    ensures next == Block(copies, moved, time + 1)
    ensures |R[st.j].centers| == |R[st.j].moved| && (stop <==> Converged(R[st.j].centers, R[st.j].moved))
  {
    var shown;
    frames, shown := AssignPass(nodes, centers, time, pos, R, st);
    ghost var j := st.j;
    ghost var played := st.settled + st.pending + frames;
    ghost var avoid := FramesRefs(played) + Objects(nodes) + Objects(centers);
    next, copies, moved, stop :=
      UpdateAfter(nodes, centers, time, avoid, Label(pos, R[j].assignment), R[j].centers, played, Movie(pos, R, Later(R), j));
  }

  /**
   * Pass j of the loop from the Stage `st` Progress describes: either the
   * loop stops after it and the frames show the whole animation, or the
   * Stage `after` before pass j + 1 is again one Progress describes.
   */
  method Iterate(nodes: seq<Node>, centers: seq<Node>, time: nat,
                 ghost pos: seq<Point>, ghost seeds: seq<Point>, ghost R: seq<Round>, ghost st: Stage)
      returns (frames: seq<Frame>, next: seq<Frame>, copies: seq<Node>, moved: seq<Node>, stop: bool,
               ghost after: Stage)
    requires Progress(pos, seeds, R, st) == true && st.j < MaxIterations
    requires st.nodes == nodes && st.centers == centers && st.time == time
    modifies nodes`category
    ensures forall i :: 0 <= i < |copies| ==> fresh(copies[i])
    ensures after.settled == st.settled + st.pending + frames && after.pending == next
    ensures after.nodes == copies && after.centers == moved && after.j == st.j + 1 && after.time == time + 2
    ensures stop ==> Done(pos, seeds, R, after.settled + after.pending) == true
    ensures !stop ==> Progress(pos, seeds, R, after) == true
  {
    Prepared(pos, seeds, R, st);
    frames, next, copies, moved, stop := PassSteps(nodes, centers, time, pos, R, st);
    after := Stage(copies, moved, st.j + 1, st.time + 2, st.settled + st.pending + frames, next, st.j, st.time + 1, R[st.j].assignment);
    Relabel(pos, R, st, time, frames, next, copies, moved, stop, after);
    Passed(pos, seeds, R, st, after, stop);
  }

  /**
   * What holds once pass j has run from the Stage `st`, with `after` the
   * Stage it leaves: the nodes are fresh copies holding the colours of
   * pass j, the centres are the moved ones, the settled frames show the
   * movie up to pass j, the pending frames are pass j's update second, and
   * `stop` is the exit test on pass j's displacements.
   */
  ghost predicate Ran(pos: seq<Point>, R: seq<Round>, st: Stage, after: Stage, stop: bool)
    reads Objects(after.nodes), Objects(after.centers), FramesRefs(after.settled)
  {
    Fits(pos, R) && st.j < |R| && st.time == 2 * st.j + 1 &&
    |R[st.j].centers| == |R[st.j].moved| && (stop <==> Converged(R[st.j].centers, R[st.j].moved)) &&
    after.j == st.j + 1 && after.time == st.time + 2 && after.last == st.j && after.pendingTime == st.time + 1 &&
    after.prev == R[st.j].assignment &&
    Covers(pos, R, Later(R)) && Shows(after.settled, Movie(pos, R, Later(R), st.j)) &&
    FramesRefs(after.settled) !! Objects(after.nodes) &&
    Distinct(after.nodes) && Objects(after.nodes) !! Objects(after.centers) &&
    Values(after.nodes) == Label(pos, R[st.j].assignment) && Values(after.centers) == R[st.j].moved &&
    after.pending == Block(after.nodes, after.centers, after.pendingTime)
  }

  /**
   * Pass j has run from the Stage `st`, leaving the frames `frames` of its
   * assignment second settled, the frames `next` of its update second
   * pending, the copies of the nodes and the moved centres: the Stage
   * `after` made of them is one Ran describes.
   */
  lemma {:induction false} Relabel(pos: seq<Point>, R: seq<Round>, st: Stage, time: nat, frames: seq<Frame>,
                                   next: seq<Frame>, copies: seq<Node>, moved: seq<Node>, stop: bool, after: Stage)
    requires Fits(pos, R) && st.j < |R| && st.time == 2 * st.j + 1 && time == st.time
    requires Covers(pos, R, Later(R))
    requires Shows(st.settled + st.pending + frames, Movie(pos, R, Later(R), st.j))
    requires FramesRefs(st.settled + st.pending + frames) !! Objects(copies)
    requires Distinct(copies) && Objects(copies) !! Objects(moved)
    requires Values(copies) == Label(pos, R[st.j].assignment) && Values(moved) == R[st.j].moved
    requires next == Block(copies, moved, time + 1)
    requires |R[st.j].centers| == |R[st.j].moved| && (stop <==> Converged(R[st.j].centers, R[st.j].moved))
    requires after == Stage(copies, moved, st.j + 1, st.time + 2, st.settled + st.pending + frames, next,
                            st.j, st.time + 1, R[st.j].assignment)
    ensures Ran(pos, R, st, after, stop) == true
  {
  }

  /**
   * Pass j has run from the Stage `st`: when the exit test holds, its
   * update second, pending in `after`, completes the timeline; otherwise
   * `after` is again a Stage Progress describes.
   */
  lemma {:induction false} Passed(pos: seq<Point>, seeds: seq<Point>, R: seq<Round>, st: Stage, after: Stage, stop: bool)
    requires seeds != [] && R == Rounds(pos, seeds) && |R| <= MaxIterations && st.j < MaxIterations
    requires Ran(pos, R, st, after, stop) == true
    ensures stop ==> Done(pos, seeds, R, after.settled + after.pending)
    ensures !stop ==> Progress(pos, seeds, R, after)
  {
    PassAt(pos, seeds, st.j);
    PassEnds(pos, seeds, st.j);
    if stop {
      LastShown(pos, R, st.j, after.settled, after.pending, after.nodes, after.centers, after.pendingTime);
    }
  }

  /**
   * Lines 93-111 leave the loop's state as Progress describes it before
   * pass 0, for the rounds R that the passes from the seeded centres make:
   * BLACK copies of the points, the centres at the seeds, and the frames
   * of second 0 showing the opening picture.
   */
  lemma {:induction false} Started(nodes: seq<Node>, pos: seq<Point>, starts: seq<(real, real)>,
                                   copies: seq<Node>, centers: seq<Node>, settled: seq<Frame>)
      returns (R: seq<Round>)
    requires 1 <= |starts| <= Size() && pos == Values(nodes)
    requires Values(copies) == Label(pos, Blacks(|pos|)) && Distinct(copies)
    requires Values(centers) == Seeds(starts) && Objects(copies) !! Objects(centers)
    requires settled == [Frame(0, Clear)] + BlackFrames(nodes, 0) && Objects(nodes) !! Objects(copies)
    ensures Progress(pos, Seeds(starts), R, Stage(copies, centers, 0, 1, settled, [], 0, 0, Blacks(|pos|)))
  {
    var seeds := Seeds(starts);
    R := Rounds(pos, seeds);
    RoundsSize(pos, seeds);
    RoundsFit(pos, seeds);
    OpeningShown(nodes, pos, settled);
  }

  /** Frames that show the whole animation of the rounds from the seeded centres show Animation. */
  lemma {:induction false} Finish(pos: seq<Point>, starts: seq<(real, real)>, R: seq<Round>, frames: seq<Frame>)
    requires 1 <= |starts| <= Size() && Done(pos, Seeds(starts), R, frames) == true
    ensures Played(frames) == Render(Animation(pos, starts))
  {
    ShowsRender(frames, AsPlayed(pos, R));
  }

  /** After the hundredth pass the frames show the whole animation. */
  lemma {:induction false} Exhausted(pos: seq<Point>, seeds: seq<Point>, R: seq<Round>, st: Stage)
    requires Progress(pos, seeds, R, st) == true && st.j == MaxIterations
    ensures Done(pos, seeds, R, st.settled + st.pending)
  {
    LastShown(pos, R, st.last, st.settled, st.pending, st.nodes, st.centers, st.pendingTime);
  }

  /**
   * Lines 93-111, the set-up of KMeansClustering: the Clear frame and a
   * BLACK frame per graph node at second 0, BLACK copies of the nodes, and
   * the seeded centres; the state the loop starts from, for the rounds R
   * the passes make from those centres.
   */
  method Start(nodes: seq<Node>, starts: seq<(real, real)>, ghost pos: seq<Point>)
      returns (settled: seq<Frame>, categorized: seq<Node>, centers: seq<Node>, ghost R: seq<Round>, ghost st: Stage)
    requires 1 <= |starts| <= Size() && pos == Values(nodes)
    ensures forall i :: 0 <= i < |categorized| ==> fresh(categorized[i])
    ensures st == Stage(categorized, centers, 0, 1, settled, [], 0, 0, Blacks(|pos|))
    ensures Progress(pos, Seeds(starts), R, st) == true
  {
    var blackFrames;
    blackFrames, categorized := Blacken(nodes, pos);
    assert forall i :: 0 <= i < |categorized| ==> categorized[i] in Objects(categorized);
    assert Objects(nodes) !! Objects(categorized);
    settled := [Frame(0, Clear)] + blackFrames;
    ghost var copies := Values(categorized);
    centers := SeedCenters(starts);
    assert Values(categorized) == copies && Objects(categorized) !! Objects(centers);
    R := Started(nodes, pos, starts, categorized, centers, settled);
    st := Stage(categorized, centers, 0, 1, settled, [], 0, 0, Blacks(|pos|));
  }

  /**
   * The body of KMeansClustering, lines 93-193: the set-up, then at most
   * MaxIterations passes, each an assignment second and an update second;
   * the frames it collects show, once played, the animation of the points
   * from the centres at `starts`.
   */
  method Animate(nodes: seq<Node>, starts: seq<(real, real)>, ghost pos: seq<Point>) returns (frames: seq<Frame>)
    requires 1 <= |starts| <= Size() && pos == Values(nodes)
    ensures Played(frames) == Render(Animation(pos, starts))
  {
    ghost var R, st;
    var settled, categorized, centers;
    settled, categorized, centers, R, st := Start(nodes, starts, pos);
    var pending: seq<Frame> := [];
    var time: nat := 1;
    var iteration: nat := 0;
    var stop := false;
    ghost var seeds := Seeds(starts);
    while iteration < MaxIterations
      invariant forall i :: 0 <= i < |categorized| ==> fresh(categorized[i])
      invariant !stop
      invariant Progress(pos, seeds, R, st) == true
      invariant st.nodes == categorized && st.centers == centers && st.j == iteration && st.time == time
      invariant st.settled == settled && st.pending == pending
    {
      var assignFrames, next, copies, moved;
      ghost var after;
      assignFrames, next, copies, moved, stop, after := Iterate(categorized, centers, time, pos, seeds, R, st);
      settled := settled + pending + assignFrames;
      pending := next;
      if stop {
        break;
      }
      centers := moved;
      categorized := copies;
      time := time + 2;
      iteration := iteration + 1;
      st := after;
    }
    if !stop {
      Exhausted(pos, seeds, R, st);
    }
    Finish(pos, starts, R, settled + pending);
    frames := settled + pending;
  }

  /** The animation object of algorithms/KMeans.java, reduced to its timeline. */
  class KMeans {
    /** The KeyFrames of the timeline, in the order they were added. */
    var timeline: seq<Frame>

    /** KMeans(): the empty constructor, with no KeyFrames. */
    constructor Empty()
      ensures timeline == []
    {
      timeline := [];
    }

    /**
     * KMeans(centerNum, graph, brush): a new timeline holding the whole
     * clustering of the graph's nodes from the centres at `starts`.
     */
    constructor (centerNum: int, graph: Graph, starts: seq<(real, real)>)
      requires 1 <= centerNum <= Size() && |starts| == centerNum
      ensures Played(timeline) == Render(Animation(Values(graph.categorizedNodes), starts))
    {
      timeline := [];
      new;
      Clustering(graph, centerNum, starts);
      assert timeline[0..] == timeline;
    }

    /**
     * timeline.getKeyFrames().add(...) for each of `frames`: the nodes the
     * frames read are not touched, so they show what they showed.
     */
    method AddFrames(frames: seq<Frame>)
      modifies this
      ensures timeline == old(timeline) + frames
      ensures timeline[..|old(timeline)|] == old(timeline) && timeline[|old(timeline)|..] == frames
      ensures Played(frames) == old(Played(frames))
    {
      assert forall o :: o in FramesRefs(frames) ==> allocated(o);
      timeline := timeline + frames;
    }

    /**
     * KMeansClustering(graph, centerNum), lines 86-198: the frames it adds
     * show, once played, the passes of the loop as Animation describes them.
     */
    method Clustering(graph: Graph, centerNum: int, starts: seq<(real, real)>)
      requires 1 <= centerNum <= Size() && |starts| == centerNum
      modifies this
      ensures |timeline| >= |old(timeline)| && timeline[..|old(timeline)|] == old(timeline)
      ensures Played(timeline[|old(timeline)|..]) == Render(Animation(old(Values(graph.categorizedNodes)), starts))
    {
      var frames := Animate(graph.categorizedNodes, starts, Values(graph.categorizedNodes));
      AddFrames(frames);
    }
  }
}

# Clustering-Algo-Visualizer in Dafny

A model of the two clustering animations of Clustering-Algo-Visualizer:
K-Means (`src/algorithms/KMeans.java`) and K-Nearest-Neighbour
(`src/algorithms/KNN.java`), together with the point store they run on
(`src/graph/Graph.java`, `src/graph/Node.java`) and the category palette
(`src/graph/NodeCategories.java`).

Apart from one immediate draw of each starting centre (KMeans.java:110,
left out below), the Java code does not draw while it computes. It fills a
JavaFX `Timeline` with `KeyFrame`s, and each frame's handler reads node objects only when the
timeline is played. The model keeps that structure:

- `Node` and `Graph` are classes whose fields are updated in place.
- A `Frame` holds the node references its handler captures.
- `Frames.Shown` reads the heap the way the handler does.
- So what a timeline shows depends on the state of the nodes when it is
  played, as it does in the program.

Each algorithm is modelled twice:

- as imperative methods that follow the Java loops step by step
  (`kmeans.dfy`, `knn.dfy`);
- as functions on values that say what those loops compute
  (`kmeans_spec.dfy`, `knn_spec.dfy`).

Each method's postcondition ties its result, or the new state, to those
functions. Lemmas then prove what the functions promise:

- K-Means: the nearest-centre assignment, the truncated-mean update, the
  bounded loop with its exit test, and the colours every pass uses.
- K-NN: the nearest-k selection and the majority vote.

Files:

- `wrappers.dfy`: the `Option` type.
- `palette.dfy`: the colours (module `Palette`).
- `node.dfy`: `Node` and point values (module `Nodes`).
- `graph.dfy`: `Graph` (module `Graphs`).
- `frames.dfy`: KeyFrames, what they draw, and the pictures a timeline shows
  (module `Frames`).
- `kmeans_spec.dfy` and `kmeans.dfy`: K-Means (modules `KMeansSpec` and `KMeans`).
- `knn_spec.dfy` and `knn.dfy`: K-NN (modules `KNNSpec` and `KNN`).

Distances are squared Euclidean distances on reals; "Left out" below says why
that is enough. A run's random starting centres are the parameter `starts`.

## Model

| member | source | states |
|---|---|---|
| Palette.Size | src/graph/NodeCategories.java:23-25 | getSize() is the number of palette colours, which is six |
| Palette.GetColor | src/graph/NodeCategories.java:19-21 | getColor(i) yields a colour exactly for 0 <= i < 6 (None stands for the index exception); the colour is never BLACK, and no other index gives the same colour |
| Palette.CategoriesDistinct | src/graph/NodeCategories.java:6-13 | the six palette colours are pairwise distinct and none is BLACK, so a colour is a category exactly when it is not BLACK |
| Nodes.Node.constructor | src/graph/Node.java:10-13 | Node(x, y) has the given position, the empty name and category BLACK (the field defaults at lines 7-8) |
| Nodes.Node.WithCategory | src/graph/Node.java:14-18 | Node(x, y, category) has the given position and category and the empty name |
| Nodes.Node.Named | src/graph/Node.java:19-23 | Node(x, y, name) has the given position and name and category BLACK |
| Nodes.Node.NamedWithCategory | src/graph/Node.java:24-29 | Node(x, y, name, color) has every field as given |
| Nodes.Node.SetName | src/graph/Node.java:31-33 | sets the name and changes no other field |
| Nodes.Node.SetCategory | src/graph/Node.java:34-36 | sets the category and changes no other field |
| Nodes.Node.GetName | src/graph/Node.java:38-40 | returns the stored name whatever its argument |
| Nodes.Node.SetX | src/graph/Node.java:45-47 | sets x and changes no other field |
| Nodes.Node.SetY | src/graph/Node.java:51-53 | sets y and changes no other field |
| Nodes.SqDist | src/algorithms/KMeans.java:200-205 | the squared distance is never negative (KNN.java:149-153 computes the same distance) |
| Nodes.SqDistByPosition | src/algorithms/KMeans.java:200-205 | the distance depends only on the two positions, not on the colours |
| Graphs.Graph.constructor | src/graph/Graph.java:18-20 | a new graph has no categorised node, no pending node and numClusters 0; no categorised node is BLACK |
| Graphs.Graph.GetNodes | src/graph/Graph.java:26-32 | getNodes() is the categorised nodes in order, then the pending node when there is one, and no other node |
| Graphs.Graph.SetUncategorizedNode | src/graph/Graph.java:55-58 | replaces the pending node, keeps the list, answers true |
| Graphs.Graph.Add | src/graph/Graph.java:65-71 | a BLACK node becomes the pending node and the list is kept; any other node is appended and the pending node is kept; answers true; no BLACK node ever enters the list |
| Graphs.Graph.Clear | src/graph/Graph.java:77-81 | empties the list and the pending slot, keeps numClusters, answers true |
| Frames.FloorSqrt | src/algorithms/KNN.java:128 | the (int) cast of Math.sqrt(d) is the integer square root: r*r <= d < (r+1)*(r+1) |
| Frames.Shown | src/algorithms/KNN.java:100-140 | what a KeyFrame handler draws, read from the nodes it captured at the moment it runs (also the handlers of KMeans.java:93-178) |
| Frames.Played | src/algorithms/KMeans.java:93-178 | the drawings of all KeyFrames of a timeline in order, one per frame, each read from the heap when the timeline plays |
| Frames.Radius | src/algorithms/KNN.java:125-130 | the circle of second 1 exists exactly when 1 <= k <= number of neighbours (otherwise get(k-1) throws), and its radius is the integer square root of the squared distance to neighbour k-1 |
| Frames.PlayedLines | src/algorithms/KNN.java:103-110 | the line frames read only the new node and the categorised nodes, and once played draw a line from the new node to each categorised node, in list order |
| KMeansSpec.Trunc | src/algorithms/KMeans.java:166-167 | the long cast in `sumx += x` rounds toward zero, for sums of either sign |
| KMeansSpec.QuotTowardZero | src/algorithms/KMeans.java:171 | long division `sumx/count` rounds toward zero, not toward minus infinity |
| KMeansSpec.Nearest | src/algorithms/KMeans.java:123-131 | the centre the scan settles on is at the smallest distance, and is the first such centre because the test is a strict `<` |
| KMeansSpec.NearestUnique | src/algorithms/KMeans.java:125-131 | at most one centre is the first nearest one, so the scan's choice is determined |
| KMeansSpec.NearestByPosition | src/algorithms/KMeans.java:123-131 | two points at the same position pick the same centre, whatever their colours |
| KMeansSpec.Assignment | src/algorithms/KMeans.java:121-135 | the colour every point takes in the assignment step: that of the centre the scan at lines 123-131 settles on, one colour per point |
| KMeansSpec.AssignmentNearest | src/algorithms/KMeans.java:122-132 | the assignment step gives each point the colour of its first nearest centre |
| KMeansSpec.TallyOf | src/algorithms/KMeans.java:161-169 | count, sumx and sumy for one centre colour after the scan over the nodes, with `sumx += x` cut back to a long after every addition |
| KMeansSpec.Moved | src/algorithms/KMeans.java:170-174 | a centre with members moves to (sumx/count, sumy/count) in long division; one without members stays; the colour is kept |
| KMeansSpec.Update | src/algorithms/KMeans.java:159-179 | newcenters: one moved centre per centre, in the order of the centres |
| KMeansSpec.Converged | src/algorithms/KMeans.java:181-188 | the exit test: some centre moved by at most 2 (squared, at most 4), so the smallest displacement SSE is at most 2 |
| KMeansSpec.StepKeepsColours | src/algorithms/KMeans.java:159-174 | a pass moves centre i but keeps centre i's colour, and gives every point the colour of one of the centres |
| KMeansSpec.TallyCounts | src/algorithms/KMeans.java:161-169 | the count for a centre is the number of points that have the centre's colour |
| KMeansSpec.TallyTotal | src/algorithms/KMeans.java:160-169 | when the centre colours are distinct and every point has one of them, the tallies count every point exactly once: the counts add up to the number of points |
| KMeansSpec.TallySums | src/algorithms/KMeans.java:163-168 | on the canvas (no negative coordinate), sumx and sumy are the sums of the whole parts of the x and y coordinates of the nodes of the centre's colour, and are never negative |
| KMeansSpec.MovedMean | src/algorithms/KMeans.java:159-174 | on the canvas, a centre whose colour has n > 0 nodes moves to the whole-part sums divided by n (floor of the mean), one with none stays where it is, and the colour is kept |
| KMeansSpec.UpdateMeans | src/algorithms/KMeans.java:159-179 | on the canvas, every centre of newcenters is placed as MovedMean says |
| KMeansSpec.Step | src/algorithms/KMeans.java:118-179 | one pass: the assignment from the given centres, then the centres moved by the recoloured points; it keeps the centres it was given and gives one colour per point and one moved centre per centre |
| KMeansSpec.Pass | src/algorithms/KMeans.java:118-179 | Step, made total for the empty centre list the loop never reaches |
| KMeansSpec.Run | src/algorithms/KMeans.java:115-196 | the for-loop with its pass and exit test as parameters: pass, leave when the test holds, otherwise go on from the moved centres, up to the hundredth pass |
| KMeansSpec.Rounds | src/algorithms/KMeans.java:115-196 | the passes KMeansClustering makes on the points from the given centres |
| KMeansSpec.Seeds | src/algorithms/KMeans.java:104-111 | the starting centres: centre i at starts[i] in palette colour i, as many as starts |
| KMeansSpec.RunBounded | src/algorithms/KMeans.java:115 | the loop makes at least one pass and at most 100 |
| KMeansSpec.RunChain | src/algorithms/KMeans.java:190 | the first pass starts from the seeds; each later pass starts from the centres the previous pass moved |
| KMeansSpec.RunStop | src/algorithms/KMeans.java:186-188 | the loop leaves at the first pass that passes the exit test; the last pass passed it or was the hundredth |
| KMeansSpec.RoundsChain | src/algorithms/KMeans.java:115-191 | 1 to 100 passes; the first from the seeds; each a full assignment-and-update step with as many centres as seeds; each from the previous pass's moved centres |
| KMeansSpec.RoundsStop | src/algorithms/KMeans.java:182-188 | every pass before the last moved every centre by more than 2 (squared, more than 4); the last moved some centre by at most 2, or was the hundredth |
| KMeansSpec.PassEnds | src/algorithms/KMeans.java:182-188 | pass j is the last one when it converged; when it did not and j+1 < 100, another pass follows |
| KMeansSpec.Later | src/algorithms/KMeans.java:151-157 | the colours each update second shows as built: the next pass's assignment, and its own only for the last pass |
| KMeansSpec.Own | src/algorithms/KMeans.java:151-157 | the colours each update second is meant to show: its own pass's assignment |
| KMeansSpec.AsPlayed | src/algorithms/KMeans.java:93-196 | the scenes the timeline shows as built: second 0 in BLACK, then for each pass its assignment second and its update second in the Later colours |
| KMeansSpec.Intended | src/algorithms/KMeans.java:93-196 | the same scenes with every update second in its own pass's colours |
| KMeansSpec.Animation | src/algorithms/KMeans.java:86-198 | AsPlayed of the passes made from the seeded centres |
| KMeansSpec.IntendedAnimation | src/algorithms/KMeans.java:86-198 | Intended of the passes made from the seeded centres |
| KMeansSpec.RoundsColours | src/algorithms/KMeans.java:106-132 | from the seeds, centre i of every pass has palette colour i; every point gets one of the first k palette colours, never BLACK |
| KMeansSpec.AsPlayedStale | src/algorithms/KMeans.java:151-157 | as built, the update second of pass j (all passes but the last) shows the points in pass j+1's colours. The copies drawn there become the next pass's nodes (line 191) and are recoloured at line 132 before anything plays |
| KMeansSpec.IntendedOwn | src/algorithms/KMeans.java:151-157 | in the intended timeline, the update second of every pass shows that pass's own colours |
| KMeansSpec.StaleDiffers | src/algorithms/KMeans.java:190-191 | whenever two passes in a row colour some point differently, the timeline as built differs from the intended one |
| KMeansSpec.StaleColours | src/algorithms/KMeans.java:151-157 | points x = 0, 10, 21, 30 on y = 0 with centres seeded at (4,0) and (40,0): the animation as built differs from the intended animation |
| KMeansSpec.StaleRounds | src/algorithms/KMeans.java:122-132 | on that input, pass 0 colours the points M,M,M,O and pass 1 colours them M,M,O,O |
| KMeansSpec.FirstPass | src/algorithms/KMeans.java:115-188 | on that input, pass 0 moves the centres to (10,0) and (30,0) and does not stop the loop |
| KMeansSpec.FirstTallies | src/algorithms/KMeans.java:161-169 | on that input, the MAGENTA tally is 3 points summing to x = 31, and the ORANGE tally is 1 point at x = 30 |
| KMeans.FindNearest | src/algorithms/KMeans.java:123-131 | the scan returns the centre that Nearest picks |
| KMeans.Tally | src/algorithms/KMeans.java:161-169 | the counters equal TallyOf: the count is the number of nodes of the centre's colour (TallyCounts), and on the canvas the sums are the sums of their whole-part coordinates (TallySums) |
| KMeans.SmallestShift | src/algorithms/KMeans.java:182-184 | SSE stays at its start value (None) exactly when there are no centres; otherwise it is one centre's displacement and no displacement is smaller; it is within the tolerance exactly when the pass converged |
| KMeans.ShouldStop | src/algorithms/KMeans.java:186-188 | the loop breaks exactly when the smallest displacement is at most 2 |
| KMeans.Classify | src/algorithms/KMeans.java:123-137 | the node takes the colour of its nearest centre; the centres are unchanged; the copy is a new node at the same place in the new colour |
| KMeans.ClassifyAll | src/algorithms/KMeans.java:122-138 | every node is recoloured with its assignment and copied into new nodes, with one frame per copy; the centres are unchanged |
| KMeans.AssignStep | src/algorithms/KMeans.java:118-143 | the assignment second: a Clear frame, the recoloured nodes drawn through copies, then the centres |
| KMeans.CopyNodes | src/algorithms/KMeans.java:151-158 | new copies, without repeats, of the nodes' values, with one frame per copy |
| KMeans.MoveCenters | src/algorithms/KMeans.java:159-179 | the new centres are Update of the old ones, new objects with one frame each; on the canvas each sits at the floor of the mean of the whole-part coordinates of its colour's nodes, or stays when it has none |
| KMeans.CenterFramesOf | src/algorithms/KMeans.java:139-142 | one frame per centre, drawing the centres in order |
| KMeans.MoveAndTest | src/algorithms/KMeans.java:159-188 | the moved centres are the update of the old ones, and stop holds exactly when the pass converged |
| KMeans.Blacken | src/algorithms/KMeans.java:97-102 | BLACK copies of the graph's nodes, and frames that draw the graph's own nodes in BLACK |
| KMeans.SeedCenters | src/algorithms/KMeans.java:104-111 | centre i stands at starts[i] in palette colour i, as a new node |
| KMeans.OpeningShown | src/algorithms/KMeans.java:93-102 | the frames of second 0 show a cleared canvas and every point in BLACK, and read only the graph's nodes |
| KMeans.UpdateShown | src/algorithms/KMeans.java:151-157 | once pass j has recoloured its nodes, the pending update frames of pass j-1 show pass j's colours |
| KMeans.LastShown | src/algorithms/KMeans.java:186-188 | when pass j is the last, its update second keeps its own colours and the timeline shows the whole animation as built |
| KMeans.AssignShown | src/algorithms/KMeans.java:118-143 | once pass j has recoloured the nodes, its assignment frames show its own assignment second |
| KMeans.Passed | src/algorithms/KMeans.java:186-191 | after pass j, a passed exit test means the frames show the whole animation; otherwise the loop goes on from a state Progress describes |
| KMeans.Exhausted | src/algorithms/KMeans.java:115 | after the hundredth pass the frames show the whole animation |
| KMeans.AssignPass | src/algorithms/KMeans.java:118-143 | pass j recolours the nodes with R[j]'s assignment; the frames up to its assignment second show the movie up to pass j |
| KMeans.UpdatePass | src/algorithms/KMeans.java:145-188 | the update second draws copies of the nodes and the moved centres; stop holds exactly when the pass converged; no existing object changes |
| KMeans.PassSteps | src/algorithms/KMeans.java:118-188 | one pass leaves copies holding R[j]'s colours, the moved centres of R[j], the movie up to pass j, and stop exactly when R[j] converged |
| KMeans.Iterate | src/algorithms/KMeans.java:115-193 | after pass j, either the loop stops and the frames show the whole animation, or the next pass starts from a state Progress describes |
| KMeans.Started | src/algorithms/KMeans.java:93-111 | the set-up leaves BLACK copies, the seeded centres, and second 0 showing the opening picture |
| KMeans.Start | src/algorithms/KMeans.java:93-111 | the set-up creates fresh BLACK copies, the seeded centres and the second-0 frames, and leaves the state Progress describes before pass 0 |
| KMeans.Finish | src/algorithms/KMeans.java:86-198 | frames that show the whole animation of the passes, once played, are Render(Animation(points, starts)) |
| KMeans.Animate | src/algorithms/KMeans.java:86-198 | the frames KMeansClustering builds show, once played, exactly Render(Animation(points, starts)) |
| KMeans.KMeans.Empty | src/algorithms/KMeans.java:20-22 | the empty constructor has no KeyFrames (Java leaves the timeline null) |
| KMeans.KMeans.constructor | src/algorithms/KMeans.java:24-28 | the new timeline, played, shows the whole clustering of the graph's nodes from the centres at `starts` |
| KMeans.KMeans.Clustering | src/algorithms/KMeans.java:86-198 | KMeansClustering keeps the KeyFrames already there, and the frames it adds show, once played, the animation from the graph's points |
| KMeans.KMeans.AddFrames | src/algorithms/KMeans.java:93-99 | timeline.getKeyFrames().add for each frame: appends them in order, keeps the frames already there, and changes no node, so the frames show what they showed |
| KNNSpec.KeyedLast | src/algorithms/KNN.java:103-104 | nodeDistance has one key per distinct distance, and under each key the last node in list order at that distance (a later put replaces an earlier one) |
| KNNSpec.Distances | src/algorithms/KNN.java:103-104 | the squared distance from the new node to each categorised node, in list order |
| KNNSpec.Keyed | src/algorithms/KNN.java:103-104 | a HashMap after put of every value under its key in list order, a later put replacing an earlier one; nodeDistance (line 104) and categoryCount (lines 175-177) |
| KNNSpec.SortedKeys | src/algorithms/KNN.java:113-117 | the sorted key list holds every key of the map and nothing else, once each |
| KNNSpec.SortedKeysAscending | src/algorithms/KNN.java:113-117 | the keys come out in strictly ascending order |
| KNNSpec.SortedKeysFirst | src/algorithms/KNN.java:113-117 | the least key comes first, followed by the sorted rest |
| KNNSpec.Take | src/algorithms/KNN.java:120-123 | the loop takes min(k, number of keys) nodes, and none when k <= 0 |
| KNNSpec.Neighbours | src/algorithms/KNN.java:113-123 | nearestNeighbors: the values of the map under its first Take(k, number of keys) keys in ascending order |
| KNNSpec.NeighboursNearest | src/algorithms/KNN.java:119-123 | there are min(k, distinct distances) neighbours; neighbour i is the node under the i-th smallest distance; every distance left out is larger than every distance taken |
| KNNSpec.Counts | src/algorithms/KNN.java:167-174 | countColor[j] is the number of neighbours of palette colour j; BLACK is counted nowhere |
| KNNSpec.CountsSnoc | src/algorithms/KNN.java:169-173 | one more neighbour adds one to the count of its colour, and nothing when it is not a palette colour |
| KNNSpec.Winner | src/algorithms/KNN.java:175-185 | the index read back is a largest count, and every later index has a strictly smaller count |
| KNNSpec.WinnerUnique | src/algorithms/KNN.java:175-185 | those two properties determine the index |
| KNNSpec.Vote | src/algorithms/KNN.java:160-186 | maxCategory always returns a palette colour, never BLACK |
| KNNSpec.VoteMajority | src/algorithms/KNN.java:160-186 | no palette colour outnumbers the returned colour, and every colour after it in palette order is strictly fewer: ties go to the latest colour in palette order |
| KNNSpec.VoteNone | src/algorithms/KNN.java:160-186 | with no palette colour among the neighbours (none at all, or all BLACK), maxCategory returns PINK |
| KNN.DistanceMap | src/algorithms/KNN.java:103-110 | nodeDistance is the keyed map of the nodes by their distance to the new node, and one line frame is added per node |
| KNN.SortKeys | src/algorithms/KNN.java:113-117 | the keys in the order the sorted map iterates them |
| KNN.TakeNearest | src/algorithms/KNN.java:120-123 | the nodes under the first min(k, number of keys) sorted keys, in order |
| KNN.CountOne | src/algorithms/KNN.java:169-173 | adds one to the count of the colour's palette slot and to no other; a colour outside the palette changes nothing |
| KNN.CountColours | src/algorithms/KNN.java:161-174 | a new countColor array holding the number of nodes of each palette colour |
| KNN.CountMap | src/algorithms/KNN.java:175-177 | categoryCount maps each count to the last palette colour, in palette order, that has it |
| KNN.LargestCount | src/algorithms/KNN.java:183-185 | the element read after Arrays.sort is the largest count |
| KNN.MaxCategory | src/algorithms/KNN.java:160-186 | returns Vote of the neighbours' colours, a palette colour that no palette colour outnumbers |
| KNN.SelectNeighbours | src/algorithms/KNN.java:95-123 | one line frame per categorised node, and nearestNeighbors is the nodes under the k smallest distances |
| KNN.Chosen | src/algorithms/KNN.java:95-123 | the neighbours taken for a new node: the nodes of its distance map under the k smallest keys |
| KNN.Timeline | src/algorithms/KNN.java:100-140 | the KeyFrames in the order they are added: Clear, a line per categorised node, the neighbourhood at second 1, the result at second 2 |
| KNN.KNNClustering | src/algorithms/KNN.java:93-141 | the new node keeps its position and takes the vote of its k nearest neighbours' colours; the timeline is Clear, the lines, the neighbourhood, then the result |
| KNN.TimelineShown | src/algorithms/KNN.java:100-140 | played, the timeline shows a blank canvas and a line to every node at second 0, the node in BLACK with the circle through neighbour k-1 (none when get(k-1) throws) at second 1, and the node in its colour at second 2 |
| KNN.PlayResult | src/algorithms/KNN.java:136-140 | when the second-2 frame is played, the node is drawn in its colour and handed to graph.add: a node with a palette colour is appended to the list and the pending node is kept; a BLACK node becomes the pending node and the list is kept |
| KNN.KNN.Empty | src/algorithms/KNN.java:26 | the empty constructor has no node and no KeyFrames (Java leaves both null) |
| KNN.KNN.constructor | src/algorithms/KNN.java:28-33 | the animation keeps the graph's pending node, recolours it with the vote of its k nearest neighbours, changes only its category (position and name kept), and holds KNNClustering's timeline |

## Left out

- Floating point: coordinates are reals and no double rounding is modelled.
  - Where two distances tie only after rounding, as at the strict `<` of
    KMeans.java:127, the model can decide differently from the program.
- Square roots: distances are squared, which is enough because squaring keeps
  the order of non-negative numbers.
  - The exit test `SSE <= 2` (KMeans.java:186) becomes "squared distance at most 4".
  - The HashMap keyed by `Math.sqrt` values (KNN.java:97-104) is keyed by squared
    distances. Equal square roots mean equal squares only in exact arithmetic.
  - Math.pow is written as a product.
- Colours: JavaFX `Color` is reduced to a datatype with BLACK and the six
  palette colours, the only colours the modelled code gives a node.
  - `equals`/`==` on colours is datatype equality.
- Graph.getCategorizedNodes (Graph.java:38-40) returns the ArrayList by
  reference; the model reads the field's sequence value. Changes made
  through the returned reference are not modelled. One case matters: the
  second-2 frame of KNN (KNN.java:139) appends to the same list the algorithm
  read. PlayResult models that append.
- Getters: getUncategorizedNode, getNumClusters, getX, getY and getCategory
  are direct field reads (`Node.Value()` bundles the last three).
- Graph.generate (Graph.java:96-141) depends on java.util.Random and is not
  modelled.
- KMeansSpec.TallySums, KMeansSpec.MovedMean, KMeansSpec.UpdateMeans and the
  mean clause of KMeans.MoveCenters are stated for points with no negative
  coordinate, as everywhere on the 1000 by 650 canvas. With negative
  coordinates the truncation toward zero after each addition is not a sum
  of whole parts, and no closed form is stated.
- KMeans.KMeans.Empty and KNN.KNN.Empty: Java leaves `timeline` (and the KNN
  node) null; the model has the empty frame list and `null` for the node.
- Random centres: the centres drawn with Random at KMeans.java:105-108 become
  the parameter `starts`. The ranges [0, 1000) and [0, 650) are not enforced.
- Immediate drawing: the drawCenter call at KMeans.java:110 draws on the
  canvas at once, not through a KeyFrame. It is dropped with the rest of the
  Brush output; frames are modelled as the marks they draw (`Frames.Mark`).
- Logging: every `System.out.println` is dropped (for example KMeans.java:195
  and 197, KNN.java:108, 129 and 139).
- KMeans.KMeans.constructor requires 1 <= centerNum <= 6. The only caller
  accepts exactly that range (application/Main.java:186). Outside it,
  getColor throws at KMeans.java:108 or `nearest` is null at line 132.
- KNN.KNN.constructor requires a pending node in the graph.
  application/Main.java:319 sets one just before the constructor is called at
  line 135. The KNN parameter k may be any int (line 135 only parses it).
- Playback: start, pause, resume, stop, previous and next (KMeans.java:32-84,
  KNN.java:35-91) drive the JavaFX timeline and are not modelled. The model
  states what each frame shows when the timeline is played after it is built.
- KNN.LargestCount: the model takes the maximum of the array.
  - Arrays.sort(countColor) (KNN.java:183) sorts the array, but only its last
    element is read. The sorted order is not modelled.
- sortedCategory (KNN.java:178-182) is a LinkedHashMap with the same entries
  as categoryCount, so `get` is modelled on categoryCount.
- KNN.SortKeys: the stream sort of KNN.java:113-117 is modelled by repeatedly
  taking the least remaining key. The comparator itself is not modelled.
- Integer widths:
  - The (int) cast of the radius (KNN.java:128) and the long sums of
    KMeans.java:166-167 are unbounded. Overflow cannot happen for points on a
    1000 by 650 canvas.
  - Truncation toward zero is modelled (KMeansSpec.Trunc, KMeansSpec.QuotTowardZero).
- Other files: MeanShift, Main, Brush and the Animation interface are not part
  of this model.

## Findings

| source | as written | input that shows it | evidently intended | confidence | as-written member | corrected member |
|---|---|---|---|---|---|---|
| src/algorithms/KMeans.java:153-156 | The update second draws copies that line 191 turns into the next pass's nodes, and line 132 recolours them before the timeline plays. So every update second except the last shows the next pass's colours. | points (0,0), (10,0), (21,0), (30,0) with centerNum 2 and random centres (4,0), (40,0). Pass 0 colours the point at x = 21 MAGENTA, pass 1 colours it ORANGE, and second 2 shows it ORANGE | each update second shows the colours of its own pass | not executed | KMeansSpec.StaleColours | KMeansSpec.IntendedOwn |

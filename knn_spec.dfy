/**
 * What algorithms/KNN.java computes, as functions of values: the
 * distance-keyed map of the categorised nodes, its keys in ascending
 * order, the neighbours taken from the front of that order, and the
 * majority vote over the palette.
 */
module KNNSpec {
  import opened Palette
  import opened Nodes

  /* ---------------------------------------------------------------- the distance map */

  /** The squared distance from `q` to each of `ps`, in order. */
  function Distances(q: Point, ps: seq<Point>): (ds: seq<real>)
    ensures |ds| == |ps|
    ensures forall i :: 0 <= i < |ps| ==> ds[i] == SqDist(q, ps[i])
  {
    seq(|ps|, i requires 0 <= i < |ps| => SqDist(q, ps[i]))
  }

  /**
   * A HashMap after putting every value under its key, in list order: a
   * later put under the same key replaces the earlier. This is
   * `nodeDistance` after lines 103-104, keyed by distance, and
   * `categoryCount` after lines 175-177, keyed by count.
   */
  function Keyed<K, T>(ds: seq<K>, vs: seq<T>): map<K, T>
    requires |ds| == |vs|
  {
    if ds == [] then map[]
    else Keyed(ds[..|ds| - 1], vs[..|vs| - 1])[ds[|ds| - 1] := vs[|vs| - 1]]
  }

  /**
   * The map has one key per distinct distance, and holds under each key
   * the last value in list order at that distance.
   */
  lemma {:induction false} KeyedLast<K, T>(ds: seq<K>, vs: seq<T>)
    requires |ds| == |vs|
    ensures forall d :: d in Keyed(ds, vs) <==> d in ds
    ensures forall d :: d in Keyed(ds, vs) ==>
      exists i :: 0 <= i < |ds| && ds[i] == d && Keyed(ds, vs)[d] == vs[i] &&
        forall j :: i < j < |ds| ==> ds[j] != d
  {
    if ds != [] {
      var n := |ds| - 1;
      KeyedLast(ds[..n], vs[..n]);
      var m := Keyed(ds, vs);
      forall d | d in m
        ensures exists i :: 0 <= i < |ds| && ds[i] == d && m[d] == vs[i] && (forall j :: i < j < |ds| ==> ds[j] != d)
      {
        if d != ds[n] {
          var i :| 0 <= i < n && ds[..n][i] == d && Keyed(ds[..n], vs[..n])[d] == vs[..n][i] &&
            forall j :: i < j < n ==> ds[..n][j] != d;
          assert forall j :: i < j < |ds| ==> ds[j] != d by {
            forall j | i < j < |ds|
              ensures ds[j] != d
            {
              if j < n {
                assert ds[..n][j] == ds[j];
              }
            }
          }
        }
      }
      assert ds == ds[..n] + [ds[n]];
    }
  }

  /* ---------------------------------------------------------------- ascending order */

  /** Appending is associative. */
  lemma {:induction false} Regroup<T>(a: seq<T>, b: seq<T>, c: seq<T>)
    ensures a + (b + c) == (a + b) + c
  {
  }

  /** Strictly ascending. */
  predicate Ascending(ks: seq<real>)
  {
    forall i, j :: 0 <= i < j < |ks| ==> ks[i] < ks[j]
  }

  /** A set that is not empty has an element. */
  lemma {:induction false} Inhabited(s: set<real>)
    requires s != {}
    ensures exists x :: x in s
  {
    if forall x :: x !in s {
      assert false;
    }
  }

  /** A finite set of reals that is not empty has a least element. */
  lemma {:induction false} LeastExists(s: set<real>)
    requires s != {}
    ensures exists m :: m in s && forall y :: y in s ==> m <= y
    decreases |s|
  {
    Inhabited(s);
    var x :| x in s;
    var rest := s - {x};
    if rest != {} {
      LeastExists(rest);
      var m :| m in rest && forall y :: y in rest ==> m <= y;
      var least := if x < m then x else m;
      forall y | y in s
        ensures least <= y
      {
        if y != x {
          assert y in rest;
        }
      }
      assert least in s;
    } else {
      forall y | y in s
        ensures x <= y
      {
        assert y !in rest;
      }
    }
  }

  /** The least element of a set of reals that is not empty. */
  ghost function Least(s: set<real>): (m: real)
    requires s != {}
    ensures m in s && forall y :: y in s ==> m <= y
  {
    LeastExists(s);
    var m :| m in s && forall y :: y in s ==> m <= y;
    m
  }

  /** The keys of a map in ascending order, as the stream sort of lines 113-117 lists them. */
  ghost function SortedKeys(s: set<real>): (ks: seq<real>)
    ensures |ks| == |s|
    ensures forall x :: x in ks <==> x in s
    decreases |s|
  {
    if s == {} then []
    else
      var m := Least(s);
      var rest := SortedKeys(s - {m});
      SortedCons(s, m, rest);
      [m] + rest
  }

  /** The least key, then the other keys, are all the keys. */
  lemma {:induction false} SortedCons(s: set<real>, m: real, rest: seq<real>)
    requires m in s
    requires |rest| == |s - {m}| && (forall x :: x in rest <==> x in s - {m})
    ensures |[m] + rest| == |s| && (forall x :: x in [m] + rest <==> x in s)
  {
  }

  /** The keys come out in strictly ascending order. */
  lemma {:induction false} SortedKeysAscending(s: set<real>)
    ensures Ascending(SortedKeys(s))
    decreases |s|
  {
    if s != {} {
      var m := Least(s);
      var rest := SortedKeys(s - {m});
      SortedKeysAscending(s - {m});
      forall i | 0 <= i < |rest|
        ensures m < rest[i]
      {
        assert rest[i] in rest;
      }
      assert SortedKeys(s) == [m] + rest;
    }
  }

  /** Any least key is the first, followed by the others in ascending order. */
  lemma {:induction false} SortedKeysFirst(s: set<real>, m: real)
    requires m in s && forall y :: y in s ==> m <= y
    ensures SortedKeys(s) == [m] + SortedKeys(s - {m})
  {
    assert Least(s) == m;
  }

  /* ---------------------------------------------------------------- the neighbours */

  /** How many neighbours the loop of lines 120-123 takes from `n` keys: k of them, and none for k <= 0. */
  function Take(k: int, n: nat): (t: nat)
    ensures t <= n
    ensures k <= 0 ==> t == 0
    ensures 0 <= k <= n ==> t == k
    ensures k >= n ==> t == n
  {
    if k <= 0 then 0 else if k < n then k else n
  }

  /** The first `Take(k, |keys|)` keys' values, in the order of `keys`. */
  function Front<T>(m: map<real, T>, keys: seq<real>, k: int): (vs: seq<T>)
    requires forall i :: 0 <= i < |keys| ==> keys[i] in m
    ensures |vs| == Take(k, |keys|)
    ensures forall i :: 0 <= i < |vs| ==> vs[i] == m[keys[i]]
  {
    seq(Take(k, |keys|), i requires 0 <= i < Take(k, |keys|) => m[keys[i]])
  }

  /** `nearestNeighbors`: the values under the k smallest keys, nearest first. */
  ghost function Neighbours<T>(m: map<real, T>, k: int): seq<T>
  {
    Front(m, SortedKeys(m.Keys), k)
  }

  /**
   * The neighbours are taken at strictly increasing distances, there are
   * min(k, number of distinct distances) of them, and every key left out
   * is larger than every key taken.
   */
  lemma {:induction false} NeighboursNearest<T>(m: map<real, T>, k: int)
    ensures |Neighbours(m, k)| == Take(k, |m.Keys|)
    ensures forall i :: 0 <= i < Take(k, |m.Keys|) ==>
      SortedKeys(m.Keys)[i] in m && Neighbours(m, k)[i] == m[SortedKeys(m.Keys)[i]]
    ensures forall d, i :: d in m && d !in SortedKeys(m.Keys)[..Take(k, |m.Keys|)] && 0 <= i < Take(k, |m.Keys|) ==>
      SortedKeys(m.Keys)[i] < d
  {
    var ks := SortedKeys(m.Keys);
    var n := Take(k, |m.Keys|);
    SortedKeysAscending(m.Keys);
    forall d, i | d in m && d !in ks[..n] && 0 <= i < n
      ensures ks[i] < d
    {
      var j :| 0 <= j < |ks| && ks[j] == d;
      assert j >= n;
    }
  }

  /* ---------------------------------------------------------------- the vote */

  /** `countColor` after lines 167-174: how many of `cs` are each palette colour; BLACK counts nowhere. */
  function Counts(cs: seq<Color>): (counts: seq<nat>)
    ensures |counts| == |Categories|
    ensures forall j :: 0 <= j < |Categories| ==> counts[j] == multiset(cs)[Categories[j]]
  {
    seq(|Categories|, j requires 0 <= j < |Categories| => multiset(cs)[Categories[j]])
  }

  /** One more neighbour adds one to the count of its colour, and nothing if it is not a palette colour. */
  lemma {:induction false} CountsSnoc(cs: seq<Color>, c: Color)
    ensures forall j :: 0 <= j < |Categories| ==>
      Counts(cs + [c])[j] == Counts(cs)[j] + (if Categories[j] == c then 1 else 0)
  {
    assert multiset(cs + [c]) == multiset(cs) + multiset{c};
  }

  /** Counting the colour `cs[i]` into the counts of `cs[..i]` gives the counts of `cs[..i + 1]`. */
  lemma {:induction false} CountsStep(cs: seq<Color>, i: nat, before: seq<int>, after: seq<int>)
    requires i < |cs| && before == Counts(cs[..i]) && |after| == |Categories|
    requires forall j :: 0 <= j < |Categories| ==> after[j] == before[j] + (if Categories[j] == cs[i] then 1 else 0)
    ensures after == Counts(cs[..i + 1])
  {
    assert cs[..i + 1] == cs[..i] + [cs[i]];
    CountsSnoc(cs[..i], cs[i]);
  }

  /** The last place of a largest count. */
  function Winner(counts: seq<int>): (w: nat)
    requires counts != []
    ensures w < |counts|
    ensures forall j :: 0 <= j < |counts| ==> counts[j] <= counts[w]
    ensures forall j :: w < j < |counts| ==> counts[j] < counts[w]
    decreases |counts|
  {
    if |counts| == 1 then 0
    else
      var w := Winner(counts[..|counts| - 1]);
      if counts[|counts| - 1] >= counts[w] then |counts| - 1 else w
  }

  /** The two properties of Winner pin it down: a largest count with no other largest after it. */
  lemma {:induction false} WinnerUnique(counts: seq<int>, w: nat)
    requires w < |counts|
    requires forall j :: 0 <= j < |counts| ==> counts[j] <= counts[w]
    requires forall j :: w < j < |counts| ==> counts[j] < counts[w]
    ensures Winner(counts) == w
  {
    var v := Winner(counts);
    assert counts[v] == counts[w];
  }

  /**
   * maxCategory: the palette colour with the most votes; of colours tied
   * for the most, the one latest in palette order.
   */
  function Vote(cs: seq<Color>): (c: Color)
    ensures c in Categories && c != Black
  {
    Categories[Winner(Counts(cs))]
  }

  /**
   * The vote goes to a colour no palette colour outnumbers, and every
   * palette colour after it in palette order has strictly fewer votes.
   */
  lemma {:induction false} VoteMajority(cs: seq<Color>)
    ensures forall j :: 0 <= j < |Categories| ==> multiset(cs)[Categories[j]] <= multiset(cs)[Vote(cs)]
    ensures forall i, j :: 0 <= i < j < |Categories| && Categories[i] == Vote(cs) ==>
      multiset(cs)[Categories[j]] < multiset(cs)[Vote(cs)]
  {
    CategoriesDistinct();
  }

  /** With no palette colour among the neighbours (none at all, or all BLACK), every count is 0 and PINK wins. */
  lemma {:induction false} VoteNone(cs: seq<Color>)
    requires forall i :: 0 <= i < |cs| ==> cs[i] !in Categories
    ensures Vote(cs) == Pink
  {
    forall j | 0 <= j < |Categories|
      ensures Counts(cs)[j] == 0
    {
      assert Categories[j] !in multiset(cs);
    }
    WinnerUnique(Counts(cs), |Categories| - 1);
  }
}

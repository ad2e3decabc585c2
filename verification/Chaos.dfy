/** Seeded target selection of the chaos engine: sort a copy, shuffle it, keep a percentage. */
module Chaos {
  import opened Names

  datatype Pod = Pod(name: string, running: bool, labels: string)

  ghost predicate Ordered(pods: seq<Pod>) {
    forall i, j :: 0 <= i < j < |pods| ==> !Less(pods[j].name, pods[i].name)
  }

  ghost predicate DistinctNames(pods: seq<Pod>) {
    forall i, j :: 0 <= i < j < |pods| ==> pods[i].name != pods[j].name
  }

  // ---- Sorting is unique up to equal names -------------------------------------------------------

  lemma HeadIsLeast(a: seq<Pod>, b: seq<Pod>)
    requires a != [] && b != [] && multiset(a) == multiset(b)
    requires Ordered(a) && Ordered(b)
    ensures a[0].name == b[0].name
  {
    assert a[0] in multiset(a) && b[0] in multiset(b);
    assert a[0] in b && b[0] in a;
    LessTotal(a[0].name, b[0].name);
    var i :| 0 <= i < |a| && a[i] == b[0];
    var j :| 0 <= j < |b| && b[j] == a[0];
  }

  lemma SameNameSamePod(a: seq<Pod>, x: Pod, y: Pod)
    requires DistinctNames(a) && x in a && y in a && x.name == y.name
    ensures x == y
  {
  }

  lemma BagTail(a: seq<Pod>)
    requires a != []
    ensures multiset(a[1..]) == multiset(a) - multiset{a[0]}
  {
    assert a == [a[0]] + a[1..];
  }

  lemma TailsKeep(a: seq<Pod>)
    requires a != [] && Ordered(a)
    ensures Ordered(a[1..]) && (DistinctNames(a) ==> DistinctNames(a[1..]))
  {
  }

  /** Two sorted arrangements of the same pods, names distinct, are the same list. */
  lemma {:induction false} SortUnique(a: seq<Pod>, b: seq<Pod>)
    requires multiset(a) == multiset(b) && Ordered(a) && Ordered(b) && DistinctNames(a)
    ensures a == b
    decreases |a|
  {
    hide Ordered, DistinctNames;
    SameSize(a, b);
    if a != [] {
      HeadsAgree(a, b);
      BagTail(a);
      BagTail(b);
      TailsKeep(a);
      TailsKeep(b);
      SortUnique(a[1..], b[1..]);
      assert a == [a[0]] + a[1..] && b == [b[0]] + b[1..];
    }
  }

  lemma SameSize(a: seq<Pod>, b: seq<Pod>)
    requires multiset(a) == multiset(b)
    ensures |a| == |b|
  {
    assert |a| == |multiset(a)| && |b| == |multiset(b)|;
  }

  lemma HeadsAgree(a: seq<Pod>, b: seq<Pod>)
    requires a != [] && b != [] && multiset(a) == multiset(b) && Ordered(a) && Ordered(b) && DistinctNames(a)
    ensures a[0] == b[0]
  {
    HeadIsLeast(a, b);
    assert b[0] in multiset(b) && b[0] in a;
    SameNameSamePod(a, a[0], b[0]);
  }

  // ---- The seeded shuffle ---------------------------------------------------------------------------

  function Swapped(pods: seq<Pod>, i: nat, j: nat): (swapped: seq<Pod>)
    requires i < |pods| && j < |pods|
    ensures multiset(swapped) == multiset(pods)
  {
    pods[i := pods[j]][j := pods[i]]
  }

  /** math/rand's swap positions for a seed and a length: the draw for each index, at most that index. */
  type Draws = d: seq<nat> | forall i :: 0 <= i < |d| ==> d[i] <= i witness []

  /** Fisher-Yates from position i down. */
  function Shuffled(pods: seq<Pod>, draw: Draws, i: nat): (shuffled: seq<Pod>)
    requires i == 0 || i < |pods| <= |draw|
    ensures |shuffled| == |pods|
    decreases i
  {
    if i == 0 then pods else Shuffled(Swapped(pods, i, draw[i]), draw, i - 1)
  }

  lemma {:induction false} ShuffleKeepsPods(pods: seq<Pod>, draw: Draws, i: nat)
    requires i == 0 || i < |pods| <= |draw|
    ensures multiset(Shuffled(pods, draw, i)) == multiset(pods)
    decreases i
  {
    hide Swapped;
    if i > 0 { ShuffleKeepsPods(Swapped(pods, i, draw[i]), draw, i - 1); }
  }

  lemma ShuffleStep(pods: seq<Pod>, draw: Draws, i: nat)
    requires i < |pods| <= |draw|
    ensures Shuffled(pods, draw, i) == if i == 0 then pods else Shuffled(Swapped(pods, i, draw[i]), draw, i - 1)
  {
  }

  lemma {:induction false} ShuffleAgrees(pods: seq<Pod>, d: Draws, e: Draws, i: nat)
    requires i < |pods| <= |d| && |pods| <= |e| && d[..i + 1] == e[..i + 1]
    ensures Shuffled(pods, d, i) == Shuffled(pods, e, i)
    decreases i
  {
    hide Swapped, Shuffled;
    ShuffleStep(pods, d, i);
    ShuffleStep(pods, e, i);
    if i > 0 {
      assert d[i] == d[..i + 1][i] && e[i] == e[..i + 1][i];
      assert d[..i] == d[..i + 1][..i] && e[..i] == e[..i + 1][..i];
      SwapLength(pods, i, d[i]);
      ShuffleAgrees(Swapped(pods, i, d[i]), d, e, i - 1);
    }
  }

  lemma SwapLength(pods: seq<Pod>, i: nat, j: nat)
    requires i < |pods| && j < |pods|
    ensures |Swapped(pods, i, j)| == |pods|
  {
  }

  lemma DropLast(pods: seq<Pod>)
    requires pods != []
    ensures multiset(pods[..|pods| - 1]) == multiset(pods) - multiset{pods[|pods| - 1]}
  {
    assert pods == pods[..|pods| - 1] + [pods[|pods| - 1]];
  }

  /** A swap within the first i+1 pods, as the rest of the list sees it. */
  lemma SwapWithin(pods: seq<Pod>, i: nat, j: nat)
    requires j <= i < |pods|
    ensures multiset(Swapped(pods, i, j)[..i + 1]) == multiset(pods[..i + 1])
    ensures Swapped(pods, i, j)[i] == pods[j] && Swapped(pods, i, j)[i + 1..] == pods[i + 1..]
  {
    assert Swapped(pods, i, j)[..i + 1] == Swapped(pods[..i + 1], i, j);
  }

  lemma OneMoreSettled(pods: seq<Pod>, goal: seq<Pod>, i: nat)
    requires i < |pods| == |goal| && pods[i] == goal[i]
    requires multiset(pods[..i + 1]) == multiset(goal[..i + 1]) && pods[i + 1..] == goal[i + 1..]
    ensures multiset(pods[..i]) == multiset(goal[..i]) && pods[i..] == goal[i..]
  {
    DropLast(pods[..i + 1]);
    DropLast(goal[..i + 1]);
    assert pods[..i + 1][..i] == pods[..i] && goal[..i + 1][..i] == goal[..i];
    assert pods[i..] == [pods[i]] + pods[i + 1..] && goal[i..] == [goal[i]] + goal[i + 1..];
  }

  lemma FindPod(pods: seq<Pod>, n: nat, pod: Pod) returns (j: nat)
    requires n <= |pods| && pod in multiset(pods[..n])
    ensures j < n && pods[j] == pod
  {
    assert pod in pods[..n];
    j :| 0 <= j < n && pods[..n][j] == pod;
  }

  lemma SwapForward(pods: seq<Pod>, goal: seq<Pod>, i: nat) returns (j: nat)
    requires |pods| == |goal| && 0 < i < |pods|
    requires multiset(pods[..i + 1]) == multiset(goal[..i + 1]) && pods[i + 1..] == goal[i + 1..]
    ensures j <= i && multiset(Swapped(pods, i, j)[..i]) == multiset(goal[..i]) && Swapped(pods, i, j)[i..] == goal[i..]
  {
    hide Swapped;
    assert goal[..i + 1][i] == goal[i];
    j := FindPod(pods, i + 1, goal[i]);
    SwapWithin(pods, i, j);
    SwapLength(pods, i, j);
    OneMoreSettled(Swapped(pods, i, j), goal, i);
  }

  /** The shuffle excludes nothing: every arrangement is reached by some draws. */
  lemma {:induction false} ShuffleReachesAll(pods: seq<Pod>, goal: seq<Pod>, i: nat) returns (draw: Draws)
    requires |pods| == |goal| && i < |pods|
    requires multiset(pods[..i + 1]) == multiset(goal[..i + 1]) && pods[i + 1..] == goal[i + 1..]
    ensures |draw| == |pods| && Shuffled(pods, draw, i) == goal
    decreases i
  {
    hide Swapped, Shuffled;
    if i == 0 {
      draw := seq(|pods|, k => k);
      ShuffleStep(pods, draw, 0);
      SameHead(pods, goal);
    } else {
      var j := SwapForward(pods, goal, i);
      var moved := Swapped(pods, i, j);
      SwapLength(pods, i, j);
      assert i - 1 + 1 == i;
      var rest := ShuffleReachesAll(moved, goal, i - 1);
      draw := rest[i := j];
      ShuffleAgrees(moved, draw, rest, i - 1);
      ShuffleStep(pods, draw, i);
    }
  }

  lemma SameHead(pods: seq<Pod>, goal: seq<Pod>)
    requires |pods| == |goal| > 0 && multiset(pods[..1]) == multiset(goal[..1]) && pods[1..] == goal[1..]
    ensures pods == goal
  {
    assert pods[..1] == [pods[0]] && goal[..1] == [goal[0]];
    assert pods[0] in multiset([goal[0]]);
    assert pods == [pods[0]] + pods[1..] && goal == [goal[0]] + goal[1..];
  }

  // ---- What a selection is -----------------------------------------------------------------------------

  /** How many of n pods a percentage selects: rounded down, but never none of some. */
  function Count(n: nat, percentage: nat): nat {
    var exact := n * percentage / 100;
    if exact == 0 && n > 0 then 1 else exact
  }

  /** The share is rounded down, and one pod is the only overshoot. */
  lemma CountBounds(n: nat, percentage: nat)
    ensures n > 0 ==> Count(n, percentage) > 0
    ensures percentage <= 100 ==> Count(n, percentage) <= n
    ensures Count(n, percentage) * 100 <= n * percentage || Count(n, percentage) == 1
    ensures n * percentage < (Count(n, percentage) + 1) * 100
  {
    if percentage <= 100 { assert n * percentage <= n * 100; }
  }

  ghost predicate Sorts(pods: seq<Pod>, sorted: seq<Pod>) {
    Ordered(sorted) && multiset(sorted) == multiset(pods)
  }

  ghost predicate Selects(pods: seq<Pod>, percentage: nat, draw: Draws, selected: seq<Pod>) {
    var count := Count(|pods|, percentage);
    if count >= |pods| then selected == pods
    else exists sorted :: Sorts(pods, sorted) && selected == Pick(sorted, draw, count)
  }

  /** The first `count` pods of the shuffle. */
  function Pick(sorted: seq<Pod>, draw: Draws, count: nat): seq<Pod> {
    if count <= |sorted| <= |draw| && sorted != [] then Shuffled(sorted, draw, |sorted| - 1)[..count] else sorted
  }

  lemma CountAtMost(n: nat, percentage: nat)
    requires percentage <= 100
    ensures Count(n, percentage) <= n
  {
    CountBounds(n, percentage);
  }

  lemma PrefixOfMultiset(pods: seq<Pod>, n: nat)
    requires n <= |pods|
    ensures multiset(pods[..n]) <= multiset(pods)
  {
    assert pods == pods[..n] + pods[n..];
  }

  /** No pod is selected that was not offered, and none twice. */
  lemma SelectionFromPods(pods: seq<Pod>, percentage: nat, draw: Draws, selected: seq<Pod>)
    requires |draw| == |pods| && Selects(pods, percentage, draw, selected)
    ensures multiset(selected) <= multiset(pods)
    ensures percentage <= 100 ==> |selected| == Count(|pods|, percentage)
  {
    hide Count, Shuffled, Ordered;
    if percentage <= 100 { CountAtMost(|pods|, percentage); }
    var count := Count(|pods|, percentage);
    if count < |pods| {
      var sorted :| Sorts(pods, sorted) && selected == Pick(sorted, draw, count);
      SameLength(pods, sorted);
      ShuffleKeepsPods(sorted, draw, |sorted| - 1);
      PrefixOfMultiset(Shuffled(sorted, draw, |sorted| - 1), count);
    }
  }

  /**
   * The same pods in another order, the same seed: the same selection in the same order, unless everything is
   * selected and the order in which the pods were offered differs.
   */
  lemma SelectionReproducible(p: seq<Pod>, q: seq<Pod>, percentage: nat, draw: Draws, a: seq<Pod>, b: seq<Pod>)
    requires multiset(p) == multiset(q) && DistinctNames(p)
    requires Selects(p, percentage, draw, a) && Selects(q, percentage, draw, b)
    ensures a == b <==> Count(|p|, percentage) < |p| || p == q
    ensures |p| == |q| && multiset(a) == multiset(b)
  {
    hide Count, Pick, Sorts, DistinctNames;
    SameLength(p, q);
    var count := Count(|p|, percentage);
    if count < |p| {
      var s :| Sorts(p, s) && a == Pick(s, draw, count);
      var t :| Sorts(q, t) && b == Pick(t, draw, count);
      SortsAlike(p, q, s, t);
    }
  }

  // ---- How the draws decide ------------------------------------------------------------------------------

  /** The shuffle by removal: the drawn pod goes last, the last pod fills its place, and the rest is shuffled. */
  lemma ShuffleByRemoval(pods: seq<Pod>, draw: Draws)
    requires 1 < |pods| <= |draw|
    ensures var n := |pods| - 1;
            Shuffled(pods, draw, n) == Shuffled(pods[draw[n] := pods[n]][..n], draw, n - 1) + [pods[draw[n]]]
  {
    hide Shuffled, Swapped;
    var n := |pods| - 1;
    ShuffleStep(pods, draw, n);
    SwapLength(pods, n, draw[n]);
    SwapWithin(pods, n, draw[n]);
    var moved := Swapped(pods, n, draw[n]);
    ShuffleFront(moved, draw, n - 1);
    assert moved[..n] == pods[draw[n] := pods[n]][..n] by { SwapFront(pods, n, draw[n]); }
    assert moved[n..] == [pods[draw[n]]];
  }

  lemma SwapFront(pods: seq<Pod>, i: nat, j: nat)
    requires j <= i < |pods|
    ensures Swapped(pods, i, j)[..i] == pods[j := pods[i]][..i]
  {
  }

  /** Positions above i are not touched, and those up to i are shuffled among themselves. */
  lemma {:induction false} ShuffleFront(pods: seq<Pod>, draw: Draws, i: nat)
    requires i < |pods| <= |draw|
    ensures Shuffled(pods, draw, i) == Shuffled(pods[..i + 1], draw, i) + pods[i + 1..]
    decreases i
  {
    hide Shuffled, Swapped;
    var front := pods[..i + 1];
    ShuffleStep(pods, draw, i);
    ShuffleStep(front, draw, i);
    if i == 0 {
      assert pods == front + pods[i + 1..];
    } else {
      SwapLength(pods, i, draw[i]);
      SwapLength(front, i, draw[i]);
      SwapWithin(pods, i, draw[i]);
      var moved, movedFront := Swapped(pods, i, draw[i]), Swapped(front, i, draw[i]);
      assert movedFront == moved[..i + 1] by { SwapOfPrefix(pods, i, draw[i]); }
      ShuffleFront(moved, draw, i - 1);
      ShuffleFront(movedFront, draw, i - 1);
      assert movedFront[..i] == moved[..i] && movedFront[i..] + moved[i + 1..] == moved[i..];
    }
  }

  lemma SwapOfPrefix(pods: seq<Pod>, i: nat, j: nat)
    requires j <= i < |pods|
    ensures Swapped(pods[..i + 1], i, j) == Swapped(pods, i, j)[..i + 1]
  {
  }

  /** When fewer than all are taken, the selection is the head of the shuffled name order, and nothing else. */
  lemma SelectionExactly(pods: seq<Pod>, sorted: seq<Pod>, percentage: nat, draw: Draws, selected: seq<Pod>)
    requires Sorts(pods, sorted) && DistinctNames(pods) && |draw| == |pods| && Count(|pods|, percentage) < |pods|
    ensures |sorted| == |pods|
    ensures Selects(pods, percentage, draw, selected) <==>
            selected == Shuffled(sorted, draw, |sorted| - 1)[..Count(|pods|, percentage)]
  {
    hide Count, Shuffled, Sorts, DistinctNames;
    SortsLength(pods, sorted);
    if Selects(pods, percentage, draw, selected) {
      var s :| Sorts(pods, s) && selected == Pick(s, draw, Count(|pods|, percentage));
      SortsAlike(pods, pods, s, sorted);
    }
  }

  lemma SortsLength(pods: seq<Pod>, sorted: seq<Pod>)
    requires Sorts(pods, sorted)
    ensures |sorted| == |pods|
  {
    SameLength(pods, sorted);
  }

  /** Draws that stay put except perhaps at `k`: there the pods at `k` and at the drawn position change places. */
  lemma {:induction false} OneDraw(pods: seq<Pod>, draw: Draws, k: nat, i: nat)
    requires i < |pods| <= |draw| && forall m :: 0 <= m <= i && m != k ==> draw[m] == m
    ensures Shuffled(pods, draw, i) == if 0 < k <= i then Swapped(pods, k, draw[k]) else pods
    decreases i
  {
    hide Shuffled;
    ShuffleStep(pods, draw, i);
    if i > 0 {
      assert i != k ==> Swapped(pods, i, draw[i]) == pods;
      OneDraw(Swapped(pods, i, draw[i]), draw, k, i - 1);
    }
  }

  /** The effect of a single draw on the selection, position by position; with no draw moved it is the name order. */
  lemma SelectionByPosition(pods: seq<Pod>, sorted: seq<Pod>, percentage: nat, draw: Draws, selected: seq<Pod>, k: nat)
    requires Sorts(pods, sorted) && DistinctNames(pods) && |draw| == |pods| && Count(|pods|, percentage) < |pods|
    requires 0 < k < |pods| && forall m :: 0 <= m < |pods| && m != k ==> draw[m] == m
    requires Selects(pods, percentage, draw, selected)
    ensures |selected| == Count(|pods|, percentage) && |sorted| == |pods|
    ensures forall m :: 0 <= m < |selected| ==>
              selected[m] == sorted[if m == k then draw[k] else if m == draw[k] then k else m]
    ensures draw[k] == k ==> selected == sorted[..|selected|]
  {
    hide Count, Shuffled, Sorts, DistinctNames, Selects;
    SelectionExactly(pods, sorted, percentage, draw, selected);
    OneDraw(sorted, draw, k, |sorted| - 1);
  }

  // ---- Every selection can happen ------------------------------------------------------------------------------

  function WithPod(p: Pod, sorted: seq<Pod>): seq<Pod> {
    if sorted == [] || !Less(sorted[0].name, p.name) then [p] + sorted else [sorted[0]] + WithPod(p, sorted[1..])
  }

  lemma {:induction false} WithPodSorts(p: Pod, sorted: seq<Pod>)
    requires Ordered(sorted)
    ensures Ordered(WithPod(p, sorted)) && multiset(WithPod(p, sorted)) == multiset(sorted) + multiset{p}
    decreases |sorted|
  {
    if sorted == [] || !Less(sorted[0].name, p.name) {
      FrontKeepsOrder(p, sorted);
    } else {
      var rest := sorted[1..];
      assert sorted == [sorted[0]] + rest;
      WithPodSorts(p, rest);
      var tail := WithPod(p, rest);
      forall q | q in tail ensures !Less(q.name, sorted[0].name) {
        assert q in multiset(tail) && q in multiset(rest) + multiset{p};
        if q == p { LessAsymmetric(sorted[0].name, p.name); }
      }
      HeadKeepsOrder(sorted[0], tail);
    }
  }

  lemma FrontKeepsOrder(p: Pod, sorted: seq<Pod>)
    requires Ordered(sorted) && (sorted != [] ==> !Less(sorted[0].name, p.name))
    ensures Ordered([p] + sorted)
  {
    forall q | q in sorted ensures !Less(q.name, p.name) {
      var k :| 0 <= k < |sorted| && sorted[k] == q;
      if k > 0 { NotLessTransitive(q.name, sorted[0].name, p.name); }
    }
    HeadKeepsOrder(p, sorted);
  }

  lemma HeadKeepsOrder(p: Pod, sorted: seq<Pod>)
    requires Ordered(sorted) && forall q :: q in sorted ==> !Less(q.name, p.name)
    ensures Ordered([p] + sorted)
  {
    var all := [p] + sorted;
    forall i, j | 0 <= i < j < |all| ensures !Less(all[j].name, all[i].name) {
      assert all[j] == sorted[j - 1] && sorted[j - 1] in sorted;
    }
  }

  lemma {:induction false} SortedExists(pods: seq<Pod>) returns (sorted: seq<Pod>)
    ensures Sorts(pods, sorted)
  {
    if pods == [] {
      sorted := [];
    } else {
      var rest := SortedExists(pods[1..]);
      sorted := WithPod(pods[0], rest);
      WithPodSorts(pods[0], rest);
      assert pods == [pods[0]] + pods[1..];
    }
  }

  lemma {:induction false} Remainder(pods: seq<Pod>, goal: seq<Pod>) returns (rest: seq<Pod>)
    requires multiset(goal) <= multiset(pods)
    ensures multiset(goal + rest) == multiset(pods)
    decreases |goal|
  {
    if goal == [] {
      rest := pods;
      assert goal + rest == pods;
    } else {
      var k := FindIn(pods, goal);
      var fewer := pods[..k] + pods[k + 1..];
      StillWithin(pods, goal, k, fewer);
      rest := Remainder(fewer, goal[1..]);
      BackIn(pods, goal, k, fewer, rest);
    }
  }

  lemma StillWithin(pods: seq<Pod>, goal: seq<Pod>, k: nat, fewer: seq<Pod>)
    requires goal != [] && k < |pods| && pods[k] == goal[0] && multiset(goal) <= multiset(pods)
    requires fewer == pods[..k] + pods[k + 1..]
    ensures multiset(goal[1..]) <= multiset(fewer)
  {
    BagWithout(pods, k);
    BagTail(goal);
  }

  lemma BackIn(pods: seq<Pod>, goal: seq<Pod>, k: nat, fewer: seq<Pod>, rest: seq<Pod>)
    requires goal != [] && k < |pods| && pods[k] == goal[0] && fewer == pods[..k] + pods[k + 1..]
    requires multiset(goal[1..] + rest) == multiset(fewer)
    ensures multiset(goal + rest) == multiset(pods)
  {
    assert goal + rest == [goal[0]] + (goal[1..] + rest);
    assert pods == pods[..k] + [pods[k]] + pods[k + 1..];
  }

  lemma FindIn(pods: seq<Pod>, goal: seq<Pod>) returns (k: nat)
    requires goal != [] && multiset(goal) <= multiset(pods)
    ensures k < |pods| && pods[k] == goal[0]
  {
    assert goal[0] in multiset(goal) && goal[0] in multiset(pods);
    assert goal[0] in pods;
    k :| 0 <= k < |pods| && pods[k] == goal[0];
  }

  lemma BagWithout(pods: seq<Pod>, k: nat)
    requires k < |pods|
    ensures multiset(pods[..k] + pods[k + 1..]) == multiset(pods) - multiset{pods[k]}
  {
    assert pods == pods[..k] + [pods[k]] + pods[k + 1..];
  }

  /** Whatever pods are asked for, in whatever order: some draws select exactly those. */
  lemma EverySelectionPossible(pods: seq<Pod>, percentage: nat, goal: seq<Pod>) returns (draw: Draws)
    requires |goal| == Count(|pods|, percentage) < |pods| && multiset(goal) <= multiset(pods)
    ensures |draw| == |pods| && Selects(pods, percentage, draw, goal)
  {
    hide Count, Ordered, Shuffled;
    var sorted := SortedExists(pods);
    var rest := Remainder(pods, goal);
    var full, n := goal + rest, |pods| - 1;
    SameLength(pods, sorted);
    SameLength(pods, full);
    assert sorted[..n + 1] == sorted && full[..n + 1] == full && sorted[n + 1..] == [] && full[n + 1..] == [];
    draw := ShuffleReachesAll(sorted, full, n);
    assert Pick(sorted, draw, |goal|) == full[..|goal|] == goal;
  }

  lemma SortsAlike(p: seq<Pod>, q: seq<Pod>, s: seq<Pod>, t: seq<Pod>)
    requires multiset(p) == multiset(q) && DistinctNames(p) && Sorts(p, s) && Sorts(q, t)
    ensures s == t
  {
    hide Ordered, DistinctNames;
    SubsetDistinct(p, s);
    SortUnique(s, t);
  }

  lemma SameLength(p: seq<Pod>, q: seq<Pod>)
    requires multiset(p) == multiset(q)
    ensures |p| == |q|
  {
    assert |p| == |multiset(p)| && |q| == |multiset(q)|;
  }

  lemma TwiceInMultiset(s: seq<Pod>, i: nat, j: nat)
    requires i < j < |s| && s[i] == s[j]
    ensures multiset(s)[s[i]] >= 2
  {
    assert s == s[..i] + [s[i]] + s[i + 1..j] + [s[j]] + s[j + 1..];
  }

  lemma {:induction false} OnceInMultiset(p: seq<Pod>, pod: Pod)
    requires DistinctNames(p)
    ensures multiset(p)[pod] <= 1
    decreases |p|
  {
    if p != [] {
      assert p == [p[0]] + p[1..];
      OnceInMultiset(p[1..], pod);
      assert forall k :: 0 <= k < |p[1..]| ==> p[1..][k].name != p[0].name;
      assert p[0] !in p[1..] && p[0] !in multiset(p[1..]);
    }
  }

  // ---- In place --------------------------------------------------------------------------------------------

  method SwapInPlace(a: array<Pod>, i: nat, j: nat)
    requires i < a.Length && j < a.Length
    modifies a
    ensures a[..] == Swapped(old(a[..]), i, j)
  {
    a[i], a[j] := a[j], a[i];
  }

  /** The first n pods are in order, except that pod j may belong further left. */
  ghost predicate OrderedBut(pods: seq<Pod>, n: nat, j: nat)
    requires n <= |pods|
  {
    forall p, q :: 0 <= p < q < n && q != j ==> !Less(pods[q].name, pods[p].name)
  }

  /** Pods j+1..n do not belong before pod j. */
  ghost predicate Below(pods: seq<Pod>, n: nat, j: nat)
    requires j < n <= |pods|
  {
    forall q :: j < q < n ==> !Less(pods[q].name, pods[j].name)
  }

  method InsertNext(a: array<Pod>, i: nat)
    requires i < a.Length && Ordered(a[..i])
    modifies a
    ensures Ordered(a[..i + 1]) && multiset(a[..]) == multiset(old(a[..]))
  {
    var j := i;
    StartsOrdered(a[..], i);
    hide Ordered, OrderedBut, Below, Swapped, Less;
    while j > 0 && Less(a[j].name, a[j - 1].name)
      invariant 0 <= j <= i && OrderedBut(a[..], i + 1, j) && Below(a[..], i + 1, j)
      invariant multiset(a[..]) == multiset(old(a[..]))
    {
      SwapKeepsOrder(a[..], i + 1, j);
      SwapInPlace(a, j, j - 1);
      j := j - 1;
    }
    Inserted(a[..], i + 1, j);
  }

  lemma StartsOrdered(pods: seq<Pod>, i: nat)
    requires i < |pods| && Ordered(pods[..i])
    ensures OrderedBut(pods, i + 1, i) && Below(pods, i + 1, i)
  {
    assert forall p :: 0 <= p < i ==> pods[..i][p] == pods[p];
  }

  lemma SwapKeepsOrder(pods: seq<Pod>, n: nat, j: nat)
    requires 0 < j < n <= |pods| && OrderedBut(pods, n, j) && Below(pods, n, j)
    requires Less(pods[j].name, pods[j - 1].name)
    ensures OrderedBut(Swapped(pods, j, j - 1), n, j - 1) && Below(Swapped(pods, j, j - 1), n, j - 1)
  {
    LessAsymmetric(pods[j].name, pods[j - 1].name);
  }

  lemma LessAsymmetric(a: string, b: string)
    requires Less(a, b)
    ensures !Less(b, a)
  {
    if Less(b, a) {
      LessTransitive(a, b, a);
      LessIrreflexive(a);
    }
  }

  lemma Inserted(pods: seq<Pod>, n: nat, j: nat)
    requires j < n <= |pods| && OrderedBut(pods, n, j) && (j > 0 ==> !Less(pods[j].name, pods[j - 1].name))
    ensures Ordered(pods[..n])
  {
    forall p, q | 0 <= p < q < n ensures !Less(pods[q].name, pods[p].name) {
      if q == j && p < j - 1 {
        NotLessTransitive(pods[j].name, pods[j - 1].name, pods[p].name);
      }
    }
  }

  lemma NotLessTransitive(a: string, b: string, c: string)
    requires !Less(a, b) && !Less(b, c)
    ensures !Less(a, c)
  {
    LessTotal(a, b);
    LessTotal(b, c);
    if Less(a, c) && a != b && b != c {
      LessTransitive(c, b, a);
      LessAsymmetric(c, a);
    }
  }

  /** sort.Slice by pod name; only order and contents are promised, as for any sort. */
  method SortByName(a: array<Pod>)
    modifies a
    ensures Ordered(a[..]) && multiset(a[..]) == multiset(old(a[..]))
  {
    var i := 0;
    while i < a.Length
      invariant 0 <= i <= a.Length && Ordered(a[..i])
      invariant multiset(a[..]) == multiset(old(a[..]))
    {
      InsertNext(a, i);
      i := i + 1;
    }
    assert a[..i] == a[..];
  }

  /** rand.Shuffle with the swap callback. */
  method Shuffle(a: array<Pod>, draw: Draws)
    requires 0 < a.Length <= |draw|
    modifies a
    ensures a[..] == Shuffled(old(a[..]), draw, a.Length - 1)
  {
    hide Swapped, Shuffled;
    var i := a.Length - 1;
    while i > 0
      invariant 0 <= i < a.Length
      invariant Shuffled(a[..], draw, i) == Shuffled(old(a[..]), draw, a.Length - 1)
    {
      ShuffleStep(a[..], draw, i);
      SwapInPlace(a, i, draw[i]);
      i := i - 1;
    }
    ShuffleStep(a[..], draw, 0);
  }

  method TargetCount(n: nat, percentage: nat) returns (count: nat)
    ensures count == Count(n, percentage)
  {
    count := n * percentage / 100;
    if count == 0 && n > 0 { count := 1; }
  }

  method SelectTargets(pods: seq<Pod>, percentage: nat, draw: Draws) returns (selected: seq<Pod>)
    requires |draw| == |pods|
    ensures Selects(pods, percentage, draw, selected)
  {
    hide Count, Shuffled, Ordered;
    var count := TargetCount(|pods|, percentage);
    if count >= |pods| { return pods; }
    var shuffled := new Pod[|pods|](i requires 0 <= i < |pods| => pods[i]);
    assert shuffled[..] == pods;
    SortByName(shuffled);
    ghost var sorted := shuffled[..];
    Shuffle(shuffled, draw);
    selected := shuffled[..count];
    assert Sorts(pods, sorted) && selected == Pick(sorted, draw, count);
  }

  // ---- Experiments ----------------------------------------------------------------------------------------------

  datatype Status = Completed | Failed
  datatype Outcome = Outcome(status: Status, targetPods: nat, affectedPods: nat, affected: seq<string>)

  /** listTargetPods keeps the running pods, in the order the server listed them. */
  function Running(listed: seq<Pod>): seq<Pod> {
    if listed == [] then [] else (if listed[0].running then [listed[0]] else []) + Running(listed[1..])
  }

  lemma {:induction false} RunningExactly(listed: seq<Pod>, p: Pod)
    ensures p in Running(listed) <==> p in listed && p.running
    ensures p.running ==> multiset(Running(listed))[p] == multiset(listed)[p]
  {
    if listed != [] {
      RunningExactly(listed[1..], p);
      assert listed == [listed[0]] + listed[1..];
    }
  }

  /** The filter keeps the order of the listing: it takes the list apart at any place, and each pod by its phase. */
  lemma {:induction false} RunningSplits(a: seq<Pod>, b: seq<Pod>, p: Pod)
    ensures Running(a + b) == Running(a) + Running(b)
    ensures Running([p]) == if p.running then [p] else []
    decreases |a|
  {
    assert [p][1..] == [];
    if a == [] {
      assert a + b == b;
    } else {
      assert (a + b)[1..] == a[1..] + b;
      RunningSplits(a[1..], b, p);
    }
  }

  lemma RunningStep(listed: seq<Pod>, i: nat)
    requires i < |listed|
    ensures Running(listed[i..]) == (if listed[i].running then [listed[i]] else []) + Running(listed[i + 1..])
  {
    assert listed[i..][0] == listed[i] && listed[i..][1..] == listed[i + 1..];
  }

  lemma NoneRunning(listed: seq<Pod>)
    requires listed == []
    ensures Running(listed) == []
  {
  }

  method ListTargetPods(listed: seq<Pod>) returns (running: seq<Pod>)
    ensures running == Running(listed)
    ensures forall p :: p in running <==> p in listed && p.running
  {
    hide Running;
    running := [];
    var i := 0;
    assert listed[0..] == listed;
    while i < |listed|
      invariant 0 <= i <= |listed| && running + Running(listed[i..]) == Running(listed)
    {
      RunningStep(listed, i);
      if listed[i].running { running := running + [listed[i]]; }
      i := i + 1;
    }
    NoneRunning(listed[i..]);
    forall p ensures p in running <==> p in listed && p.running { RunningExactly(listed, p); }
  }

  /** The names of the pods hit before the first call that fails. */
  function HitBefore(pods: seq<Pod>, succeeds: Pod -> bool): seq<string> {
    if pods == [] || !succeeds(pods[0]) then [] else [pods[0].name] + HitBefore(pods[1..], succeeds)
  }

  lemma {:induction false} HitBeforePrefix(pods: seq<Pod>, succeeds: Pod -> bool)
    ensures |HitBefore(pods, succeeds)| <= |pods|
    ensures forall i :: 0 <= i < |HitBefore(pods, succeeds)| ==>
        HitBefore(pods, succeeds)[i] == pods[i].name
        && succeeds(pods[i])
    ensures |HitBefore(pods, succeeds)| < |pods| ==> !succeeds(pods[|HitBefore(pods, succeeds)|])
  {
    if pods != [] && succeeds(pods[0]) { HitBeforePrefix(pods[1..], succeeds); }
  }

  /** runPodKill and runPodFailure: act on the selection in order, stop at the first call that fails. */
  method RunOnTargets(listed: seq<Pod>, percentage: nat, draw: Draws, succeeds: Pod -> bool)
    returns (outcome: Outcome, ghost selected: seq<Pod>)
    requires |draw| == |Running(listed)|
    ensures Selects(Running(listed), percentage, draw, selected)
    ensures outcome.targetPods == |Running(listed)| && outcome.affected == HitBefore(selected, succeeds)
    ensures outcome.affectedPods == |outcome.affected|
    ensures outcome.status.Completed? <==> forall i :: 0 <= i < |selected| ==> succeeds(selected[i])
  {
    hide Selects, Running, HitBefore;
    var pods := ListTargetPods(listed);
    var targets := SelectTargets(pods, percentage, draw);
    selected := targets;
    var affected: seq<string>, count := [], 0;
    var i := 0;
    while i < |targets|
      invariant 0 <= i <= |targets| && count == |affected| == i
      invariant forall k :: 0 <= k < i ==> affected[k] == targets[k].name && succeeds(targets[k])
    {
      if !succeeds(targets[i]) {
        HitExactly(targets, i, succeeds, affected);
        return Outcome(Failed, |pods|, count, affected), selected;
      }
      affected, count := affected + [targets[i].name], count + 1;
      i := i + 1;
    }
    HitExactly(targets, i, succeeds, affected);
    outcome := Outcome(Completed, |pods|, count, affected);
  }

  lemma HitExactly(pods: seq<Pod>, i: nat, succeeds: Pod -> bool, affected: seq<string>)
    requires i == |affected| <= |pods| && (i < |pods| ==> !succeeds(pods[i]))
    requires forall k :: 0 <= k < i ==> affected[k] == pods[k].name && succeeds(pods[k])
    ensures affected == HitBefore(pods, succeeds)
  {
    HitBeforePrefix(pods, succeeds);
  }

  /** Whatever fails on the way: the pods hit are distinct, listed and running, and within the validated share. */
  lemma BlastRadius(listed: seq<Pod>, percentage: nat, draw: Draws, succeeds: Pod -> bool, selected: seq<Pod>)
    requires 1 <= percentage <= 100 && DistinctNames(Running(listed)) && |draw| == |Running(listed)|
    requires Selects(Running(listed), percentage, draw, selected)
    ensures var hit := HitBefore(selected, succeeds);
            && |hit| <= |selected| && (|hit| * 100 <= |Running(listed)| * percentage || |hit| <= 1)
            && (forall i, j :: 0 <= i < j < |hit| ==> hit[i] != hit[j])
            && (forall i :: 0 <= i < |hit| ==>
                selected[i] in listed && selected[i].running
                && hit[i] == selected[i].name)
  {
    var pods := Running(listed);
    SelectionFromPods(pods, percentage, draw, selected);
    HitBeforePrefix(selected, succeeds);
    CountBounds(|pods|, percentage);
    hide Selects, Count, HitBefore, Running;
    SubsetDistinct(pods, selected);
    forall i | 0 <= i < |selected| ensures selected[i] in listed && selected[i].running {
      assert selected[i] in multiset(selected) && selected[i] in multiset(pods);
      RunningExactly(listed, selected[i]);
    }
  }

  lemma SubsetDistinct(p: seq<Pod>, s: seq<Pod>)
    requires DistinctNames(p) && multiset(s) <= multiset(p)
    ensures DistinctNames(s)
  {
    forall i, j | 0 <= i < j < |s| ensures s[i].name != s[j].name {
      if s[i].name == s[j].name {
        assert s[i] in multiset(s) && s[j] in multiset(s);
        assert s[i] in multiset(p) && s[j] in multiset(p);
        SameNameSamePod(p, s[i], s[j]);
        TwiceInMultiset(s, i, j);
        OnceInMultiset(p, s[i]);
      }
    }
  }
}

/**
  All-pairs shortest paths over the weights of a network
  (extend_shortest_path in gem5/src/mem/ruby/network/Topology.cc), and the routing decision
  taken from them (link_is_shortest_path_to_node).
 */
module ShortestPath {

  type Matrix = seq<seq<int>>

  /** INFINITE_LATENCY, the weight of a missing link */
  const INFINITE := 10000

  ghost predicate Square(m: Matrix, n: nat) {
    |m| == n && forall i :: 0 <= i < n ==> |m[i]| == n
  }

  /** No weight is negative. */
  ghost predicate IsWeights(w: Matrix, n: nat) {
    Square(w, n) && forall i, j :: 0 <= i < n && 0 <= j < n ==> w[i][j] >= 0
  }

  // ----- Walks

  /** A walk of at least one step; a missing link counts as a step of its infinite weight. */
  ghost predicate IsWalk(n: nat, p: seq<nat>, i: nat, j: nat) {
    |p| >= 2 && p[0] == i && p[|p| - 1] == j && forall t :: 0 <= t < |p| ==> p[t] < n
  }

  ghost function Length(w: Matrix, n: nat, p: seq<nat>): (x: int)
    requires Square(w, n) && p != [] && forall t :: 0 <= t < |p| ==> p[t] < n
    decreases |p|
  {
    if |p| == 1 then 0 else w[p[0]][p[1]] + Length(w, n, p[1..])
  }

  ghost predicate HasWalk(w: Matrix, n: nat, i: nat, j: nat, x: int)
    requires Square(w, n)
  {
    exists p :: IsWalk(n, p, i, j) && Length(w, n, p) == x
  }

  lemma {:induction false} LengthConcat(w: Matrix, n: nat, p: seq<nat>, q: seq<nat>)
    requires Square(w, n) && p != [] && q != [] && p[|p| - 1] == q[0]
    requires (forall t :: 0 <= t < |p| ==> p[t] < n) && (forall t :: 0 <= t < |q| ==> q[t] < n)
    ensures forall t :: 0 <= t < |p + q[1..]| ==> (p + q[1..])[t] < n
    ensures Length(w, n, p + q[1..]) == Length(w, n, p) + Length(w, n, q)
    decreases |p|
  {
    if |p| == 1 {
      assert p + q[1..] == q;
    } else {
      assert (p + q[1..])[1..] == p[1..] + q[1..];
      LengthConcat(w, n, p[1..], q);
    }
  }

  lemma {:induction false} WalkThrough(w: Matrix, n: nat, i: nat, k: nat, j: nat, x: int, y: int)
    requires Square(w, n) && HasWalk(w, n, i, k, x) && HasWalk(w, n, k, j, y)
    ensures HasWalk(w, n, i, j, x + y)
  {
    var p :| IsWalk(n, p, i, k) && Length(w, n, p) == x;
    var q :| IsWalk(n, q, k, j) && Length(w, n, q) == y;
    LengthConcat(w, n, p, q);
    assert IsWalk(n, p + q[1..], i, j);
  }

  lemma {:induction false} WalkDirect(w: Matrix, n: nat, i: nat, j: nat)
    requires Square(w, n) && i < n && j < n
    ensures HasWalk(w, n, i, j, w[i][j])
  {
    var p := [i, j];
    assert p[1..] == [j];
    assert IsWalk(n, p, i, j) && Length(w, n, p) == w[i][j];
  }

  // ----- What the algorithm keeps, and what it ends with

  /** Every entry is at most the direct weight and is the length of some walk. */
  ghost predicate Realised(w: Matrix, d: Matrix, n: nat)
    requires Square(w, n)
  {
    && Square(d, n)
    && (forall i: nat, j: nat {:trigger d[i][j]} :: i < n && j < n ==> 0 <= d[i][j] <= w[i][j])
    && (forall i: nat, j: nat {:trigger HasWalk(w, n, i, j, d[i][j])} :: i < n && j < n ==> HasWalk(w, n, i, j, d[i][j]))
  }

  /** No detour is shorter than the entry, for the pairs before (row, col). */
  ghost predicate Closed(d: Matrix, n: nat, row: nat, col: nat)
    requires Square(d, n)
  {
    forall i: nat, j: nat, k: nat {:trigger NoDetour(d, n, i, j, k)} ::
      i < n && j < n && k < n && (i < row || (i == row && j < col)) ==> NoDetour(d, n, i, j, k)
  }

  ghost predicate NoDetour(d: Matrix, n: nat, i: nat, j: nat, k: nat)
    requires Square(d, n) && i < n && j < n && k < n
  {
    d[i][j] <= d[i][k] + d[k][j]
  }

  /** Entries closed under detours bound every walk from below. */
  lemma {:induction false} ClosedBounds(w: Matrix, d: Matrix, n: nat, p: seq<nat>, i: nat, j: nat)
    requires IsWeights(w, n) && Realised(w, d, n) && Closed(d, n, n, 0) && IsWalk(n, p, i, j)
    ensures d[i][j] <= Length(w, n, p)
    decreases |p|
  {
    if |p| > 2 {
      ClosedBounds(w, d, n, p[1..], p[1], j);
      assert NoDetour(d, n, i, j, p[1]);
    } else {
      assert p[1..] == [j];
    }
  }

  // ----- Termination: the entries add up to less with every change

  ghost function RowSum(r: seq<int>): (x: int) {
    if r == [] then 0 else RowSum(r[..|r| - 1]) + r[|r| - 1]
  }

  ghost function Sum(m: Matrix): (x: int) {
    if m == [] then 0 else Sum(m[..|m| - 1]) + RowSum(m[|m| - 1])
  }

  lemma {:induction false} RowSumUpdate(r: seq<int>, j: nat, v: int)
    requires j < |r|
    ensures RowSum(r[j := v]) == RowSum(r) - r[j] + v
    decreases |r|
  {
    if j == |r| - 1 {
      assert r[j := v][..|r| - 1] == r[..|r| - 1];
    } else {
      assert r[j := v][..|r| - 1] == r[..|r| - 1][j := v];
      RowSumUpdate(r[..|r| - 1], j, v);
    }
  }

  lemma {:induction false} SumUpdate(m: Matrix, i: nat, r: seq<int>)
    requires i < |m|
    ensures Sum(m[i := r]) == Sum(m) - RowSum(m[i]) + RowSum(r)
    decreases |m|
  {
    if i == |m| - 1 {
      assert m[i := r][..|m| - 1] == m[..|m| - 1];
    } else {
      assert m[i := r][..|m| - 1] == m[..|m| - 1][i := r];
      SumUpdate(m[..|m| - 1], i, r);
    }
  }

  lemma {:induction false} RowSumNonNegative(r: seq<int>)
    requires forall j :: 0 <= j < |r| ==> r[j] >= 0
    ensures RowSum(r) >= 0
    decreases |r|
  {
    if r != [] {
      RowSumNonNegative(r[..|r| - 1]);
    }
  }

  lemma {:induction false} SumNonNegative(m: Matrix)
    requires forall i, j :: 0 <= i < |m| && 0 <= j < |m[i]| ==> m[i][j] >= 0
    ensures Sum(m) >= 0
    decreases |m|
  {
    if m != [] {
      SumNonNegative(m[..|m| - 1]);
      RowSumNonNegative(m[|m| - 1]);
    }
  }

  /** Every entry is the length of a shortest walk. */
  ghost predicate AreDistances(w: Matrix, d: Matrix, n: nat)
    requires Square(w, n)
  {
    && Square(d, n)
    && (forall i: nat, j: nat {:trigger HasWalk(w, n, i, j, d[i][j])} :: i < n && j < n ==> HasWalk(w, n, i, j, d[i][j]))
    && (forall i: nat, j: nat, p :: i < n && j < n && IsWalk(n, p, i, j) ==> d[i][j] <= Length(w, n, p))
  }

  // ----- The algorithm

  /** The innermost loop: the best detour from i to j, or the entry itself. */
  method BestDetour(w: Matrix, d: Matrix, n: nat, i: nat, j: nat) returns (minimum: int)
    requires IsWeights(w, n) && Realised(w, d, n) && i < n && j < n
    ensures 0 <= minimum <= d[i][j] && HasWalk(w, n, i, j, minimum)
    ensures forall k: nat :: k < n ==> minimum <= d[i][k] + d[k][j]
  {
    minimum := d[i][j];
    assert HasWalk(w, n, i, j, d[i][j]);
    for k := 0 to n
      invariant 0 <= minimum <= d[i][j] && HasWalk(w, n, i, j, minimum)
      invariant forall m: nat :: m < k ==> minimum <= d[i][m] + d[m][j]
    {
      if d[i][k] + d[k][j] < minimum {
        assert HasWalk(w, n, i, k, d[i][k]) && HasWalk(w, n, k, j, d[k][j]);
        WalkThrough(w, n, i, k, j, d[i][k], d[k][j]);
        minimum := d[i][k] + d[k][j];
      }
    }
  }

  lemma {:induction false} UpdateKeeps(w: Matrix, d: Matrix, n: nat, i: nat, j: nat, v: int)
    requires IsWeights(w, n) && Realised(w, d, n) && i < n && j < n
    requires 0 <= v < d[i][j] && HasWalk(w, n, i, j, v)
    ensures Realised(w, d[i := d[i][j := v]], n) && Sum(d[i := d[i][j := v]]) < Sum(d)
  {
    RowSumUpdate(d[i], j, v);
    SumUpdate(d, i, d[i][j := v]);
    var e := d[i := d[i][j := v]];
    forall x: nat, y: nat | x < n && y < n ensures HasWalk(w, n, x, y, e[x][y]) {
      assert (x != i || y != j) ==> e[x][y] == d[x][y] && HasWalk(w, n, x, y, d[x][y]);
    }
  }

  /** One sweep over all pairs: something gets shorter, or no detour was shorter anywhere. */
  method Sweep(w: Matrix, d0: Matrix, n: nat) returns (d: Matrix, change: bool)
    requires IsWeights(w, n) && Realised(w, d0, n)
    ensures Realised(w, d, n)
    ensures if change then Sum(d) < Sum(d0) else d == d0 && Closed(d, n, n, 0)
  {
    d, change := d0, false;
    for i := 0 to n
      invariant Realised(w, d, n)
      invariant if change then Sum(d) < Sum(d0) else d == d0 && Closed(d, n, i, 0)
    {
      for j := 0 to n
        invariant Realised(w, d, n)
        invariant if change then Sum(d) < Sum(d0) else d == d0 && Closed(d, n, i, j)
      {
        var minimum := BestDetour(w, d, n, i, j);
        if d[i][j] != minimum {
          change := true;
          UpdateKeeps(w, d, n, i, j, minimum);
          d := d[i := d[i][j := minimum]];
        }
      }
    }
  }

  /** extend_shortest_path: the entries become the lengths of the shortest walks. */
  method Extend(w: Matrix, n: nat) returns (d: Matrix)
    requires IsWeights(w, n)
    ensures AreDistances(w, d, n)
  {
    d := w;
    forall i: nat, j: nat | i < n && j < n ensures HasWalk(w, n, i, j, w[i][j]) { WalkDirect(w, n, i, j); }
    var change := true;
    while change
      invariant Realised(w, d, n) && (!change ==> Closed(d, n, n, 0))
      decreases Sum(d), change
    {
      SumNonNegative(d);
      d, change := Sweep(w, d, n);
    }
    forall i: nat, j: nat, p | i < n && j < n && IsWalk(n, p, i, j) ensures d[i][j] <= Length(w, n, p) {
      ClosedBounds(w, d, n, p, i, j);
    }
  }

  // ----- Routing

  /** It costs something to go to another switch. */
  ghost predicate IsNetwork(w: Matrix, n: nat) {
    IsWeights(w, n) && forall i, j :: 0 <= i < n && 0 <= j < n && i != j ==> w[i][j] > 0
  }

  /** What it makes into a link */
  predicate IsLink(w: Matrix, i: nat, j: nat)
    requires i < |w| && j < |w[i]|
  {
    w[i][j] > 0 && w[i][j] != INFINITE
  }

  /** link_is_shortest_path_to_node: the link from src to next lies on a cheapest way to `final`. */
  predicate OnShortestPath(w: Matrix, d: Matrix, src: nat, next: nat, final: nat)
    requires src < |w| && next < |w[src]| && src < |d| && next < |d| && final < |d[src]| && final < |d[next]|
  {
    w[src][next] + d[next][final] == d[src][final]
  }

  /** The distance is made of the first step of a shortest walk and the distance from there. */
  lemma {:induction false} FirstStep(w: Matrix, d: Matrix, n: nat, src: nat, final: nat, p: seq<nat>) returns (next: nat)
    requires IsWeights(w, n) && AreDistances(w, d, n) && src < n && final < n && src != final
    requires IsWalk(n, p, src, final) && Length(w, n, p) == d[src][final]
    ensures next < n && next != src && (next != final ==> OnShortestPath(w, d, src, next, final))
    ensures next == final ==> w[src][final] == d[src][final]
    decreases |p|
  {
    next := p[1];
    if |p| == 2 {
      assert p[1..] == [final];
    } else {
      var rest := p[1..];
      assert IsWalk(n, rest, next, final);
      if next == src {
        assert d[src][final] <= Length(w, n, rest);
        next := FirstStep(w, d, n, src, final, rest);
      } else {
        assert HasWalk(w, n, next, final, d[next][final]);
        var q :| IsWalk(n, q, next, final) && Length(w, n, q) == d[next][final];
        var r := [src] + q;
        assert r[1..] == q && IsWalk(n, r, src, final);
        if next == final {
          var s := [src, final];
          assert s[1..] == [final] && IsWalk(n, s, src, final);
          assert d[src][final] <= Length(w, n, s) == w[src][final];
          NonNegative(w, n, rest);
        }
      }
    }
  }

  lemma {:induction false} NonNegative(w: Matrix, n: nat, p: seq<nat>)
    requires IsWeights(w, n) && p != [] && forall t :: 0 <= t < |p| ==> p[t] < n
    ensures Length(w, n, p) >= 0
    decreases |p|
  {
    if |p| > 1 {
      NonNegative(w, n, p[1..]);
    }
  }

  /** No step towards a switch saves more than it costs. */
  lemma {:induction false} OneStep(w: Matrix, d: Matrix, n: nat, i: nat, k: nat, j: nat)
    requires IsWeights(w, n) && AreDistances(w, d, n) && i < n && k < n && j < n
    ensures d[i][j] <= w[i][k] + d[k][j] && d[i][j] <= w[i][j]
  {
    assert HasWalk(w, n, k, j, d[k][j]);
    var q :| IsWalk(n, q, k, j) && Length(w, n, q) == d[k][j];
    var r, s := [i] + q, [i, j];
    assert r[1..] == q && IsWalk(n, r, i, j);
    assert s[1..] == [j] && IsWalk(n, s, i, j) && Length(w, n, s) == w[i][j];
  }

  /** From every switch some step lies on a shortest walk towards every other one; if that one is
      within reach the step is a link. */
  lemma {:induction false} RouteExists(w: Matrix, d: Matrix, n: nat, src: nat, final: nat) returns (next: nat)
    requires IsWeights(w, n) && AreDistances(w, d, n) && src < n && final < n && src != final
    ensures next < n && next != src && (next != final ==> OnShortestPath(w, d, src, next, final))
    ensures next == final ==> w[src][final] == d[src][final]
    ensures d[src][final] < INFINITE ==> w[src][next] < INFINITE
    ensures IsNetwork(w, n) && d[src][final] < INFINITE ==> IsLink(w, src, next)
  {
    assert HasWalk(w, n, src, final, d[src][final]);
    var p :| IsWalk(n, p, src, final) && Length(w, n, p) == d[src][final];
    next := FirstStep(w, d, n, src, final, p);
    DistanceNonNegative(w, d, n, next, final);
  }

  lemma {:induction false} DistanceNonNegative(w: Matrix, d: Matrix, n: nat, i: nat, j: nat)
    requires IsWeights(w, n) && AreDistances(w, d, n) && i < n && j < n
    ensures d[i][j] >= 0
  {
    assert HasWalk(w, n, i, j, d[i][j]);
    var p :| IsWalk(n, p, i, j) && Length(w, n, p) == d[i][j];
    NonNegative(w, n, p);
  }

  lemma {:induction false} DistanceToSelf(w: Matrix, d: Matrix, n: nat, i: nat)
    requires IsWeights(w, n) && AreDistances(w, d, n) && i < n && w[i][i] == 0
    ensures d[i][i] == 0
  {
    var p := [i, i];
    assert p[1..] == [i] && IsWalk(n, p, i, i);
    assert Length(w, n, p) == w[i][i] == 0;
    DistanceNonNegative(w, d, n, i, i);
  }

  /** A route whose every step is a link on a shortest walk to `final`. */
  ghost predicate IsRoute(w: Matrix, d: Matrix, n: nat, route: seq<nat>, final: nat)
    requires Square(w, n) && Square(d, n) && final < n
  {
    && route != [] && (forall t :: 0 <= t < |route| ==> route[t] < n)
    && forall t :: 0 <= t < |route| - 1 ==> IsHop(w, d, route[t], route[t + 1], final)
  }

  /** A link on a shortest walk */
  predicate IsHop(w: Matrix, d: Matrix, src: nat, next: nat, final: nat)
    requires src < |w| && next < |w[src]| && src < |d| && next < |d| && final < |d[src]| && final < |d[next]|
  {
    IsLink(w, src, next) && OnShortestPath(w, d, src, next, final)
  }

  /** However it chooses among such links, a route that arrives has the least weight of any walk. */
  lemma {:induction false} RouteWeight(w: Matrix, d: Matrix, n: nat, route: seq<nat>, final: nat)
    requires IsWeights(w, n) && AreDistances(w, d, n) && final < n && w[final][final] == 0
    requires IsRoute(w, d, n, route, final)
    ensures Length(w, n, route) == d[route[0]][final] - d[route[|route| - 1]][final]
    ensures route[|route| - 1] == final ==> Length(w, n, route) == d[route[0]][final]
    decreases |route|
  {
    DistanceToSelf(w, d, n, final);
    if |route| > 1 {
      var rest := route[1..];
      assert IsHop(w, d, route[0], route[0 + 1], final);
      forall t | 0 <= t < |rest| - 1 ensures IsHop(w, d, rest[t], rest[t + 1], final) {
        assert IsHop(w, d, route[t + 1], route[t + 1 + 1], final);
      }
      RouteWeight(w, d, n, rest, final);
    }
  }

  /** Following links on shortest walks arrives at every switch within reach, over links only, with
      the weight of the distance and without visiting a switch twice. */
  lemma {:induction false} RouteArrives(w: Matrix, d: Matrix, n: nat, src: nat, final: nat) returns (route: seq<nat>)
    requires IsNetwork(w, n) && AreDistances(w, d, n) && src < n && final < n && w[final][final] == 0
    requires d[src][final] < INFINITE
    ensures IsRoute(w, d, n, route, final) && route[0] == src && route[|route| - 1] == final
    ensures Length(w, n, route) == d[src][final]
    ensures forall s, t :: 0 <= s < t < |route| ==> route[s] != route[t]
    decreases d[src][final]
  {
    DistanceToSelf(w, d, n, final);
    DistanceNonNegative(w, d, n, src, final);
    if src == final {
      route := [src];
    } else {
      var next := RouteExists(w, d, n, src, final);
      DistanceNonNegative(w, d, n, next, final);
      var rest := RouteArrives(w, d, n, next, final);
      route := [src] + rest;
      RouteCons(w, d, n, src, rest, final);
    }
    RouteWeight(w, d, n, route, final);
    RoutesDoNotLoop(w, d, n, route, final);
  }

  lemma {:induction false} RouteCons(w: Matrix, d: Matrix, n: nat, src: nat, rest: seq<nat>, final: nat)
    requires Square(w, n) && Square(d, n) && final < n && src < n && IsRoute(w, d, n, rest, final)
    requires IsHop(w, d, src, rest[0], final)
    ensures IsRoute(w, d, n, [src] + rest, final)
  {
    var route := [src] + rest;
    forall t | 0 <= t < |route| - 1
      ensures IsHop(w, d, route[t], route[t + 1], final)
    {
      if t > 0 {
        assert IsHop(w, d, rest[t - 1], rest[t - 1 + 1], final);
      }
    }
  }

  /** A step of infinite weight can be all there is: between two switches without a link the one on the
      shortest walk is no link. */
  lemma {:induction false} NoLinkExample()
    ensures var w := [[0, INFINITE], [INFINITE, 0]];
      IsNetwork(w, 2) && AreDistances(w, w, 2) && OnShortestPath(w, w, 0, 1, 1) && !IsLink(w, 0, 1)
  {
    var w := [[0, INFINITE], [INFINITE, 0]];
    assert |w[0]| == 2 && |w[1]| == 2;
    ClosedAreDistances(w, 2);
  }

  /** Weights no detour undercuts are the distances. */
  lemma {:induction false} ClosedAreDistances(w: Matrix, n: nat)
    requires IsWeights(w, n) && Closed(w, n, n, 0)
    ensures AreDistances(w, w, n)
  {
    forall i: nat, j: nat | i < n && j < n ensures HasWalk(w, n, i, j, w[i][j]) {
      WalkDirect(w, n, i, j);
    }
    forall i: nat, j: nat, p | i < n && j < n && IsWalk(n, p, i, j) ensures w[i][j] <= Length(w, n, p) {
      ClosedBounds(w, w, n, p, i, j);
    }
  }

  /** A route that follows links on shortest paths never returns. */
  lemma {:induction false} RoutesDoNotLoop(w: Matrix, d: Matrix, n: nat, route: seq<nat>, final: nat)
    requires IsWeights(w, n) && Square(d, n) && final < n && IsRoute(w, d, n, route, final)
    ensures forall s, t :: 0 <= s < t < |route| ==> route[s] != route[t]
  {
    forall s, t | 0 <= s < t < |route| ensures route[s] != route[t] {
      Descends(w, d, n, route, final, s, t);
    }
  }

  lemma {:induction false} Descends(w: Matrix, d: Matrix, n: nat, route: seq<nat>, final: nat, s: nat, t: nat)
    requires IsWeights(w, n) && Square(d, n) && final < n && IsRoute(w, d, n, route, final)
    requires s < t < |route|
    ensures d[route[t]][final] < d[route[s]][final]
    decreases t - s
  {
    assert IsHop(w, d, route[t - 1], route[t - 1 + 1], final);
    if s < t - 1 {
      Descends(w, d, n, route, final, s, t - 1);
    }
  }
}

/**
  The whole network of a mesh or torus (Grid) with its controllers, as Topology::Topology and
  Topology::createLinks of gem5/src/mem/ruby/network/Topology.cc set it up, and what the
  shortest-path computation (ShortestPath) finds on it.

  With N controllers, switch m < N is the way in of controller m, switch N + m its way out, and switch
  2 * N + x is router x.
 */
module GridDistances {
  import opened Common
  import opened Grid
  import SP = ShortestPath

  /** at[m] is the router of controller m. */
  datatype Net = Net(rows: nat, cols: nat, wrap: bool, at: seq<nat>, links: seq<IntLink>) {
    function Routers(): (n: nat) {
      rows * cols
    }

    function Switches(): (n: nat) {
      2 * |at| + Routers()
    }

    function Out(m: nat): (s: nat) {
      |at| + m
    }

    function Router(x: nat): (s: nat) {
      2 * |at| + x
    }
  }

  ghost predicate IsNet(net: Net) {
    IsGrid(net.links, net.rows, net.cols, net.wrap) && forall m :: 0 <= m < |net.at| ==> net.at[m] < net.Routers()
  }

  // ----- The links, one way each

  /** m_link_map: the weight of the link from one switch to another */
  type LinkMap = map<(nat, nat), nat>

  /** Among the first e controllers and the first k links of the grid: a controller's way in leads to its
      router, which leads to its way out, both with weight 1; a link of the grid leads both ways. */
  ghost predicate HasLink(net: Net, e: nat, k: nat, u: nat, v: nat, weight: nat)
    requires e <= |net.at| && k <= |net.links|
  {
    || (weight == 1 && (LeadsIn(net, e, u, v) || LeadsOut(net, e, u, v)))
    || exists i :: 0 <= i < k && JoinsRouters(net, i, u, v) && weight == net.links[i].weight
  }

  ghost predicate Linked(net: Net, e: nat, k: nat, u: nat, v: nat)
    requires e <= |net.at| && k <= |net.links|
  {
    LeadsIn(net, e, u, v) || LeadsOut(net, e, u, v) || exists i :: 0 <= i < k && JoinsRouters(net, i, u, v)
  }

  predicate LeadsIn(net: Net, e: nat, u: nat, v: nat)
    requires e <= |net.at|
  {
    u < e && v == net.Router(net.at[u])
  }

  predicate LeadsOut(net: Net, e: nat, u: nat, v: nat)
    requires e <= |net.at|
  {
    net.Out(0) <= v < net.Out(e) && u == net.Router(net.at[v - |net.at|])
  }

  predicate JoinsRouters(net: Net, i: nat, u: nat, v: nat)
    requires i < |net.links|
  {
    u >= net.Router(0) && v >= net.Router(0) && Joins(net.links[i], u - net.Router(0), v - net.Router(0))
  }

  /** The map has an entry exactly for the linked pairs, the weight of one of their links. */
  ghost predicate IsLinkMap(net: Net, m: LinkMap, e: nat, k: nat)
    requires e <= |net.at| && k <= |net.links|
  {
    forall u: nat, v: nat {:trigger EntryOk(net, m, e, k, u, v)} :: EntryOk(net, m, e, k, u, v)
  }

  ghost predicate EntryOk(net: Net, m: LinkMap, e: nat, k: nat, u: nat, v: nat)
    requires e <= |net.at| && k <= |net.links|
  {
    && ((u, v) in m <==> Linked(net, e, k, u, v))
    && ((u, v) in m ==> HasLink(net, e, k, u, v, m[(u, v)]))
  }

  /** The loops of Topology::Topology, each link added both ways */
  method AddLinks(net: Net) returns (m: LinkMap)
    ensures IsLinkMap(net, m, |net.at|, |net.links|)
  {
    m := map[];
    for e := 0 to |net.at|
      invariant IsLinkMap(net, m, e, 0)
    {
      ExtAdded(net, m, e);
      m := m[(e, net.Router(net.at[e])) := 1];
      m := m[(net.Router(net.at[e]), net.Out(e)) := 1];
    }
    for k := 0 to |net.links|
      invariant IsLinkMap(net, m, |net.at|, k)
    {
      IntAdded(net, m, k);
      var a, b := net.Router(net.links[k].a), net.Router(net.links[k].b);
      m := m[(a, b) := net.links[k].weight];
      m := m[(b, a) := net.links[k].weight];
    }
  }

  lemma {:induction false} ExtAdded(net: Net, m: LinkMap, e: nat)
    requires e < |net.at| && IsLinkMap(net, m, e, 0)
    ensures IsLinkMap(net, m[(e, net.Router(net.at[e])) := 1][(net.Router(net.at[e]), net.Out(e)) := 1], e + 1, 0)
  {
    var r := m[(e, net.Router(net.at[e])) := 1][(net.Router(net.at[e]), net.Out(e)) := 1];
    var next := e + 1;
    forall u: nat, v: nat ensures EntryOk(net, r, next, 0, u, v) {
      assert EntryOk(net, m, e, 0, u, v);
    }
  }

  lemma {:induction false} IntAdded(net: Net, m: LinkMap, k: nat)
    requires k < |net.links| && IsLinkMap(net, m, |net.at|, k)
    ensures var a, b, x := net.Router(net.links[k].a), net.Router(net.links[k].b), net.links[k].weight;
      IsLinkMap(net, m[(a, b) := x][(b, a) := x], |net.at|, k + 1)
  {
    var a, b, x := net.Router(net.links[k].a), net.Router(net.links[k].b), net.links[k].weight;
    var r := m[(a, b) := x][(b, a) := x];
    var next := k + 1;
    forall u: nat, v: nat ensures EntryOk(net, r, |net.at|, next, u, v) {
      assert EntryOk(net, m, |net.at|, k, u, v);
      assert JoinsRouters(net, k, u, v) <==> (u, v) == (a, b) || (u, v) == (b, a);
    }
  }

  // ----- The number of switches

  /** Where a link of the grid lies, and that it weighs 1 or 2. */
  lemma {:induction false} LinkInRange(k: IntLink, rows: nat, cols: nat, wrap: bool)
    requires InGrid(k, rows, cols, wrap)
    ensures k.a < rows * cols && k.b < rows * cols && 1 <= k.weight <= 2
  {
    var r: nat, c: nat :| r < rows && c < cols && (IsRowLink(k, cols, wrap, r, c) || IsColLink(k, rows, cols, wrap, r, c));
    IdInRange(r, c, rows, cols);
    if IsRowLink(k, cols, wrap, r, c) {
      IdInRange(r, Next(cols, c), rows, cols);
    } else {
      IdInRange(Next(rows, r), c, rows, cols);
    }
  }

  /** What Topology::addLink and Topology::makeLink assert of every link: it leads from a way in to a
      router, from a router to a way out, or from a router to a router. */
  lemma {:induction false} LinkPlaced(net: Net, m: LinkMap, u: nat, v: nat)
    requires IsNet(net) && IsLinkMap(net, m, |net.at|, |net.links|) && (u, v) in m
    ensures u < net.Switches() && v < net.Switches() && 1 <= m[(u, v)] <= 2
    ensures (u < |net.at| && v >= net.Router(0)) || (u >= net.Router(0) && v >= net.Out(0))
  {
    assert EntryOk(net, m, |net.at|, |net.links|, u, v);
    if !LeadsIn(net, |net.at|, u, v) && !LeadsOut(net, |net.at|, u, v) {
      var i :| 0 <= i < |net.links| && JoinsRouters(net, i, u, v) && m[(u, v)] == net.links[i].weight;
      LinkInRange(net.links[i], net.rows, net.cols, net.wrap);
    }
  }

  /** One more than the largest switch a link touches; the first of them if there is none. */
  ghost predicate IsCount(m: LinkMap, n: nat) {
    && (forall u: nat, v: nat :: (u, v) in m ==> u < n && v < n)
    && n >= 1 && (n == 1 || exists u: nat, v: nat :: (u, v) in m && (u == n - 1 || v == n - 1))
  }

  method CountSwitches(m: LinkMap) returns (n: nat)
    ensures IsCount(m, n)
  {
    var top, todo := 0, m.Keys;
    while todo != {}
      invariant todo <= m.Keys
      invariant forall u: nat, v: nat :: (u, v) in m && (u, v) !in todo ==> u <= top && v <= top
      invariant top == 0 || exists u: nat, v: nat :: (u, v) in m && (u == top || v == top)
      decreases |todo|
    {
      var k :| k in todo;
      top := if k.0 > top then k.0 else top;
      top := if k.1 > top then k.1 else top;
      assert (k.0, k.1) in m;
      todo := todo - {k};
    }
    n := top + 1;
  }

  /** Some link touches the last router: one of the grid or, in a grid of one router, a controller's. */
  lemma {:induction false} LastLinked(net: Net) returns (u: nat)
    requires IsNet(net) && |net.at| > 0
    ensures net.Routers() > 0 && Linked(net, |net.at|, |net.links|, u, net.Router(net.Routers() - 1))
  {
    var r, c, last := net.rows - 1, net.cols - 1, net.Routers() - 1;
    Stands(net.at[0], net.rows, net.cols);
    LastId(net.rows, net.cols);
    if c > 0 {
      assert HasRowLink(net.links, net.cols, net.wrap, r, c - 1);
      var i :| 0 <= i < |net.links| && IsRowLink(net.links[i], net.cols, net.wrap, r, c - 1);
      u := net.Router(Id(r, c - 1, net.cols));
      assert JoinsRouters(net, i, u, net.Router(last));
    } else if r > 0 {
      assert HasColLink(net.links, net.rows, net.cols, net.wrap, r - 1, c);
      var i :| 0 <= i < |net.links| && IsColLink(net.links[i], net.rows, net.cols, net.wrap, r - 1, c);
      u := net.Router(Id(r - 1, c, net.cols));
      assert JoinsRouters(net, i, u, net.Router(last));
    } else {
      u := 0;
    }
  }

  lemma {:induction false} LastId(rows: nat, cols: nat)
    requires rows > 0 && cols > 0
    ensures rows * cols > 0 && Id(rows - 1, cols - 1, cols) == rows * cols - 1
  {
    assert rows * cols == (rows - 1) * cols + cols;
  }

  /** The matrix has a row for every way in, way out and router. */
  lemma {:induction false} CountIsSwitches(net: Net, m: LinkMap, n: nat)
    requires IsNet(net) && |net.at| > 0 && IsLinkMap(net, m, |net.at|, |net.links|) && IsCount(m, n)
    ensures n == net.Switches()
  {
    var u := LastLinked(net);
    assert EntryOk(net, m, |net.at|, |net.links|, u, net.Router(net.Routers() - 1));
    if n > 1 {
      var x: nat, y: nat :| (x, y) in m && (x == n - 1 || y == n - 1);
      LinkPlaced(net, m, x, y);
    }
  }

  // ----- The matrix of weights

  function Entry(m: LinkMap, u: nat, v: nat): (x: nat) {
    if (u, v) in m then m[(u, v)] else if u == v then 0 else SP.INFINITE
  }

  ghost predicate WeightsOf(w: SP.Matrix, n: nat, m: LinkMap) {
    SP.Square(w, n) && forall u: nat, v: nat {:trigger w[u][v]} :: u < n && v < n ==> w[u][v] == Entry(m, u, v)
  }

  /** The matrix while some entries are still to be filled in */
  ghost predicate Filling(w: SP.Matrix, n: nat, m: LinkMap, todo: set<(nat, nat)>) {
    && SP.Square(w, n)
    && forall u: nat, v: nat {:trigger w[u][v]} :: u < n && v < n ==>
      w[u][v] == if (u, v) in todo then Entry(map[], u, v) else Entry(m, u, v)
  }

  /** The matrix of Topology::createLinks: infinite, zero to oneself, then the links. */
  method FillWeights(m: LinkMap, n: nat) returns (w: SP.Matrix)
    requires forall u: nat, v: nat :: (u, v) in m ==> u < n && v < n
    ensures WeightsOf(w, n, m)
  {
    w := seq(n, i => seq(n, j => if i == j then 0 else SP.INFINITE));
    var todo := m.Keys;
    while todo != {}
      invariant todo <= m.Keys && Filling(w, n, m, todo)
      decreases |todo|
    {
      var k :| k in todo;
      assert (k.0, k.1) in m;
      Filled(w, n, m, todo, k);
      w := w[k.0 := w[k.0][k.1 := m[k]]];
      todo := todo - {k};
    }
  }

  lemma {:induction false} Filled(w: SP.Matrix, n: nat, m: LinkMap, todo: set<(nat, nat)>, k: (nat, nat))
    requires Filling(w, n, m, todo) && k in todo && k in m && k.0 < n && k.1 < n
    ensures Filling(w[k.0 := w[k.0][k.1 := m[k]]], n, m, todo - {k})
  {
    var r := w[k.0 := w[k.0][k.1 := m[k]]];
    forall u: nat, v: nat | u < n && v < n
      ensures r[u][v] == if (u, v) in todo - {k} then Entry(map[], u, v) else Entry(m, u, v)
    {
      assert (u, v) == k || r[u][v] == w[u][v];
    }
  }

  /** It is a network to route in: going anywhere costs something, and only a router can have a link to
      itself. */
  lemma {:induction false} WeightsAreNetwork(net: Net, m: LinkMap, w: SP.Matrix)
    requires IsNet(net) && IsLinkMap(net, m, |net.at|, |net.links|) && WeightsOf(w, net.Switches(), m)
    ensures SP.IsNetwork(w, net.Switches())
    ensures forall u: nat :: u < net.Router(0) ==> w[u][u] == 0
  {
    forall u: nat, v: nat | u < net.Switches() && v < net.Switches()
      ensures w[u][v] >= 0 && (u != v ==> w[u][v] > 0) && (u == v && u < net.Router(0) ==> w[u][v] == 0)
    {
      if (u, v) in m {
        LinkPlaced(net, m, u, v);
      }
    }
  }

  /** A torus of one row or one column links every router to itself; nothing else does. */
  predicate LinksToSelf(net: Net) {
    net.wrap && (net.rows == 1 || net.cols == 1)
  }

  lemma {:induction false} SelfLinkIff(net: Net, m: LinkMap, w: SP.Matrix, x: nat)
    requires IsNet(net) && IsLinkMap(net, m, |net.at|, |net.links|) && WeightsOf(w, net.Switches(), m)
    requires x < net.Routers()
    ensures w[net.Router(x)][net.Router(x)] == 0 <==> !LinksToSelf(net)
  {
    var u := net.Router(x);
    assert EntryOk(net, m, |net.at|, |net.links|, u, u);
    if LinksToSelf(net) {
      LinkedToSelf(net, x);
    }
    if (u, u) in m {
      LinkPlaced(net, m, u, u);
      var i :| 0 <= i < |net.links| && JoinsRouters(net, i, u, u);
      SelfLink(net.links[i], net.rows, net.cols, net.wrap);
    }
  }

  lemma {:induction false} LinkedToSelf(net: Net, x: nat)
    requires IsNet(net) && x < net.Routers() && LinksToSelf(net)
    ensures Linked(net, |net.at|, |net.links|, net.Router(x), net.Router(x))
  {
    var u := net.Router(x);
    var r, c := Coordinates(x, net.rows, net.cols);
    if net.cols == 1 {
      assert HasRowLink(net.links, net.cols, net.wrap, r, c);
      var i :| 0 <= i < |net.links| && IsRowLink(net.links[i], net.cols, net.wrap, r, c);
      assert JoinsRouters(net, i, u, u);
    } else {
      assert HasColLink(net.links, net.rows, net.cols, net.wrap, r, c);
      var i :| 0 <= i < |net.links| && IsColLink(net.links[i], net.rows, net.cols, net.wrap, r, c);
      assert JoinsRouters(net, i, u, u);
    }
  }

  lemma {:induction false} SelfLink(k: IntLink, rows: nat, cols: nat, wrap: bool)
    requires InGrid(k, rows, cols, wrap) && k.a == k.b
    ensures wrap && (rows == 1 || cols == 1)
  {
    var r: nat, c: nat :| r < rows && c < cols && (IsRowLink(k, cols, wrap, r, c) || IsColLink(k, rows, cols, wrap, r, c));
    if IsRowLink(k, cols, wrap, r, c) {
      IdInjective(cols, r, c, r, Next(cols, c));
    } else {
      IdInjective(cols, r, c, Next(rows, r), c);
    }
  }

  // ----- The distances

  function Capped(x: nat): (y: nat) {
    if x < SP.INFINITE then x else SP.INFINITE
  }

  /** The router of a switch, if it is not a way in */
  function RouterOf(net: Net, u: nat): (x: nat)
    requires net.Out(0) <= u
    requires u < net.Router(0) ==> u - net.Out(0) < |net.at|
  {
    if u < net.Router(0) then net.at[u - net.Out(0)] else u - net.Router(0)
  }

  /** What it costs from switch u to switch v: the cost between the routers, and 1 for each of the links in
      and out; nothing leads from a way out or to a way in. */
  ghost function Toll(net: Net, u: nat, v: nat): (x: nat)
    requires IsNet(net) && u < net.Switches() && v < net.Switches()
  {
    if u == v then 0
    else if v < |net.at| || |net.at| <= u < net.Router(0) then SP.INFINITE
    else
      var x := if u < |net.at| then net.at[u] else u - net.Router(0);
      var ends := (if u < |net.at| then 1 else 0) + (if v < net.Router(0) then 1 else 0);
      RouterCost(net.rows, net.cols, net.wrap, x, RouterOf(net, v)) + ends
  }

  /** A network, its links, the weights filled in from them, and the distances found on these */
  ghost predicate IsSolved(net: Net, m: LinkMap, w: SP.Matrix, d: SP.Matrix) {
    && IsNet(net) && IsLinkMap(net, m, |net.at|, |net.links|)
    && WeightsOf(w, net.Switches(), m) && SP.AreDistances(w, d, net.Switches())
  }

  /** A link of the grid gains no more than its weight. */
  lemma {:induction false} RouterHop(net: Net, k: IntLink, x: nat, y: nat, z: nat)
    requires InGrid(k, net.rows, net.cols, net.wrap) && Joins(k, x, y)
    requires x < net.Routers() && y < net.Routers() && z < net.Routers()
    ensures RouterCost(net.rows, net.cols, net.wrap, x, z) <= k.weight + RouterCost(net.rows, net.cols, net.wrap, y, z)
  {
    var r, c := Coordinates(x, net.rows, net.cols);
    var r', c' := Coordinates(z, net.rows, net.cols);
    var r1, c1 := Coordinates(y, net.rows, net.cols);
    var r2, c2 := HopGain(k, net.rows, net.cols, net.wrap, r, c, y, r', c');
    IdInjective(net.cols, r1, c1, r2, c2);
  }

  lemma {:induction false} SelfCost(net: Net, x: nat)
    requires x < net.Routers()
    ensures RouterCost(net.rows, net.cols, net.wrap, x, x) == 0
  {
  }

  /** No step of the matrix gains more than its weight. */
  lemma {:induction false} StepBound(net: Net, m: LinkMap, w: SP.Matrix, u: nat, v: nat, to: nat)
    requires IsNet(net) && IsLinkMap(net, m, |net.at|, |net.links|) && WeightsOf(w, net.Switches(), m)
    requires u < net.Switches() && v < net.Switches() && to < net.Switches()
    ensures Capped(Toll(net, u, to)) <= w[u][v] + Capped(Toll(net, v, to))
  {
    if (u, v) in m {
      LinkBound(net, m, u, v, to);
    }
  }

  lemma {:induction false} LinkBound(net: Net, m: LinkMap, u: nat, v: nat, to: nat)
    requires IsNet(net) && IsLinkMap(net, m, |net.at|, |net.links|) && (u, v) in m
    requires u < net.Switches() && v < net.Switches() && to < net.Switches()
    ensures Capped(Toll(net, u, to)) <= m[(u, v)] + Capped(Toll(net, v, to))
  {
    LinkPlaced(net, m, u, v);
    assert EntryOk(net, m, |net.at|, |net.links|, u, v);
    if |net.at| <= to && u != to {
      SelfCost(net, RouterOf(net, to));
      if u >= net.Router(0) && v >= net.Router(0) {
        var i :| 0 <= i < |net.links| && JoinsRouters(net, i, u, v) && m[(u, v)] == net.links[i].weight;
        RouterHop(net, net.links[i], u - net.Router(0), v - net.Router(0), RouterOf(net, to));
      }
    }
  }

  /** No walk is shorter than the capped toll. */
  lemma {:induction false} WalkAtLeast(net: Net, m: LinkMap, w: SP.Matrix, p: seq<nat>, to: nat)
    requires IsNet(net) && IsLinkMap(net, m, |net.at|, |net.links|) && WeightsOf(w, net.Switches(), m)
    requires p != [] && (forall t :: 0 <= t < |p| ==> p[t] < net.Switches()) && p[|p| - 1] == to
    ensures Capped(Toll(net, p[0], to)) <= SP.Length(w, net.Switches(), p)
    decreases |p|
  {
    if |p| > 1 {
      WalkAtLeast(net, m, w, p[1..], to);
      StepBound(net, m, w, p[0], p[1], to);
    }
  }

  lemma {:induction false} SameWeight(net: Net, i: nat, j: nat, x: nat, y: nat)
    requires IsNet(net) && i < |net.links| && j < |net.links| && x < net.Routers() && y < net.Routers() && x != y
    requires Joins(net.links[i], x, y) && Joins(net.links[j], x, y)
    ensures net.links[i].weight == net.links[j].weight
  {
    var r, c := Coordinates(x, net.rows, net.cols);
    var r', c' := Coordinates(y, net.rows, net.cols);
    LinkWeight(net.links[i], net.rows, net.cols, net.wrap, r, c, r', c');
    LinkWeight(net.links[j], net.rows, net.cols, net.wrap, r, c, r', c');
  }

  /** Between two different routers the matrix has the weight of any link that joins them. */
  lemma {:induction false} RouterWeight(net: Net, m: LinkMap, w: SP.Matrix, i: nat, x: nat, y: nat)
    requires IsNet(net) && IsLinkMap(net, m, |net.at|, |net.links|) && WeightsOf(w, net.Switches(), m)
    requires i < |net.links| && Joins(net.links[i], x, y) && x < net.Routers() && y < net.Routers() && x != y
    ensures w[net.Router(x)][net.Router(y)] == net.links[i].weight
  {
    var u, v := net.Router(x), net.Router(y);
    assert EntryOk(net, m, |net.at|, |net.links|, u, v);
    assert JoinsRouters(net, i, u, v);
    var j :| 0 <= j < |net.links| && JoinsRouters(net, j, u, v) && m[(u, v)] == net.links[j].weight;
    SameWeight(net, i, j, x, y);
  }

  /** Along a path over links of the grid, and out if that is where it goes */
  lemma {:induction false} AlongPath(net: Net, m: LinkMap, w: SP.Matrix, d: SP.Matrix, x: nat, p: seq<Hop>, to: nat)
    requires IsSolved(net, m, w, d) && SP.IsWeights(w, net.Switches())
    requires x < net.Routers() && net.Out(0) <= to < net.Switches() && to != net.Router(x)
    requires IsPath(net.links, x, p, RouterOf(net, to))
    ensures d[net.Router(x)][to] <= Weight(net.links, p) + if to < net.Router(0) then 1 else 0
    decreases |p|
  {
    var n := net.Switches();
    if p == [] {
      assert EntryOk(net, m, |net.at|, |net.links|, net.Router(x), to);
      SP.OneStep(w, d, n, net.Router(x), to, to);
    } else {
      var k, y := p[0].via, p[0].to;
      LinkInRange(net.links[k], net.rows, net.cols, net.wrap);
      if x != y {
        RouterWeight(net, m, w, k, x, y);
        SP.OneStep(w, d, n, net.Router(x), net.Router(y), to);
      }
      if to != net.Router(y) {
        AlongPath(net, m, w, d, y, p[1..], to);
      }
    }
  }

  lemma {:induction false} RouterAtMost(net: Net, m: LinkMap, w: SP.Matrix, d: SP.Matrix, x: nat, to: nat)
    requires IsSolved(net, m, w, d) && SP.IsWeights(w, net.Switches())
    requires x < net.Routers() && net.Out(0) <= to < net.Switches() && to != net.Router(x)
    ensures d[net.Router(x)][to] <= Toll(net, net.Router(x), to)
  {
    var r, c := Coordinates(x, net.rows, net.cols);
    var r', c' := Coordinates(RouterOf(net, to), net.rows, net.cols);
    var p := CheapestPath(net.links, net.rows, net.cols, net.wrap, r, c, r', c');
    AlongPath(net, m, w, d, x, p, to);
  }

  lemma {:induction false} InAtMost(net: Net, m: LinkMap, w: SP.Matrix, d: SP.Matrix, s: nat, to: nat)
    requires IsSolved(net, m, w, d) && SP.IsWeights(w, net.Switches())
    requires s < |net.at| && net.Out(0) <= to < net.Switches()
    ensures d[s][to] <= Toll(net, s, to)
  {
    var x := net.Router(net.at[s]);
    assert EntryOk(net, m, |net.at|, |net.links|, s, x);
    SP.OneStep(w, d, net.Switches(), s, x, to);
    if to != x {
      RouterAtMost(net, m, w, d, net.at[s], to);
    }
  }

  lemma {:induction false} AtMostToll(net: Net, m: LinkMap, w: SP.Matrix, d: SP.Matrix, u: nat, to: nat)
    requires IsSolved(net, m, w, d) && SP.IsWeights(w, net.Switches())
    requires u < net.Switches() && to < net.Switches() && (u != to || w[to][to] == 0)
    ensures d[u][to] <= Capped(Toll(net, u, to))
  {
    SP.OneStep(w, d, net.Switches(), u, to, to);
    if (u, to) in m {
      LinkPlaced(net, m, u, to);
    }
    if u != to && to >= net.Out(0) {
      if u < |net.at| {
        InAtMost(net, m, w, d, u, to);
      } else if u >= net.Router(0) {
        RouterAtMost(net, m, w, d, u - net.Router(0), to);
      }
    }
  }

  /** The distance between any two switches is the toll, up to the cap; from a switch to itself if it has
      no link to itself. */
  lemma {:induction false} DistancesAreTolls(net: Net, m: LinkMap, w: SP.Matrix, d: SP.Matrix, u: nat, to: nat)
    requires IsSolved(net, m, w, d) && u < net.Switches() && to < net.Switches() && (u != to || w[to][to] == 0)
    ensures d[u][to] == Capped(Toll(net, u, to))
  {
    WeightsAreNetwork(net, m, w);
    AtMostToll(net, m, w, d, u, to);
    assert SP.HasWalk(w, net.Switches(), u, to, d[u][to]);
    var p :| SP.IsWalk(net.Switches(), p, u, to) && SP.Length(w, net.Switches(), p) == d[u][to];
    WalkAtLeast(net, m, w, p, to);
  }

  // ----- Routing between controllers

  /** A route from controller s to controller f, every step a link the routing tables have for f. */
  ghost predicate IsRouteTo(net: Net, w: SP.Matrix, d: SP.Matrix, route: seq<nat>, s: nat, f: nat)
    requires SP.Square(w, net.Switches()) && SP.Square(d, net.Switches()) && f < |net.at|
  {
    SP.IsRoute(w, d, net.Switches(), route, net.Out(f)) && route[0] == s && route[|route| - 1] == net.Out(f)
  }

  ghost predicate Routed(net: Net, w: SP.Matrix, d: SP.Matrix, s: nat, f: nat)
    requires SP.Square(w, net.Switches()) && SP.Square(d, net.Switches()) && f < |net.at|
  {
    exists route :: IsRouteTo(net, w, d, route, s, f)
  }

  /** The one link out of a way in, to the router: whether it is on a shortest walk to a controller. */
  lemma {:induction false} FirstHopIff(net: Net, m: LinkMap, w: SP.Matrix, d: SP.Matrix, s: nat, f: nat, next: nat)
    requires IsSolved(net, m, w, d) && s < |net.at| && f < |net.at| && next < net.Switches()
    ensures SP.IsHop(w, d, s, next, net.Out(f)) <==> next == net.Router(net.at[s]) && Toll(net, s, net.Out(f)) <= SP.INFINITE
  {
    assert EntryOk(net, m, |net.at|, |net.links|, s, next);
    if next == net.Router(net.at[s]) {
      DistancesAreTolls(net, m, w, d, s, net.Out(f));
      DistancesAreTolls(net, m, w, d, next, net.Out(f));
    } else {
      assert (s, next) !in m;
    }
  }

  /** A controller's messages arrive, with the weight of the toll and without visiting a switch twice. */
  lemma {:induction false} ControllerRoute(net: Net, m: LinkMap, w: SP.Matrix, d: SP.Matrix, s: nat, f: nat)
    returns (route: seq<nat>)
    requires IsSolved(net, m, w, d) && s < |net.at| && f < |net.at| && Toll(net, s, net.Out(f)) <= SP.INFINITE
    ensures IsRouteTo(net, w, d, route, s, f) && SP.Length(w, net.Switches(), route) == Toll(net, s, net.Out(f))
    ensures forall i, j :: 0 <= i < j < |route| ==> route[i] != route[j]
  {
    var n, x := net.Switches(), net.Router(net.at[s]);
    WeightsAreNetwork(net, m, w);
    FirstHopIff(net, m, w, d, s, f, x);
    DistancesAreTolls(net, m, w, d, s, net.Out(f));
    DistancesAreTolls(net, m, w, d, x, net.Out(f));
    var rest := SP.RouteArrives(w, d, n, x, net.Out(f));
    route := [s] + rest;
    SP.RouteCons(w, d, n, s, rest, net.Out(f));
    SP.RouteWeight(w, d, n, route, net.Out(f));
    SP.RoutesDoNotLoop(w, d, n, route, net.Out(f));
  }

  /** There is a route between two controllers exactly when the toll is no more than the weight that
      stands for a missing link. */
  lemma {:induction false} RoutedIff(net: Net, m: LinkMap, w: SP.Matrix, d: SP.Matrix, s: nat, f: nat)
    requires IsSolved(net, m, w, d) && s < |net.at| && f < |net.at|
    ensures Routed(net, w, d, s, f) <==> Toll(net, s, net.Out(f)) <= SP.INFINITE
  {
    if Toll(net, s, net.Out(f)) <= SP.INFINITE {
      var route := ControllerRoute(net, m, w, d, s, f);
    } else if Routed(net, w, d, s, f) {
      var route :| IsRouteTo(net, w, d, route, s, f);
      assert SP.IsHop(w, d, route[0], route[0 + 1], net.Out(f));
      FirstHopIff(net, m, w, d, s, f, route[1]);
    }
  }

  /** Two controllers at the ends of a row of ten thousand routers are too far apart. */
  lemma {:induction false} TooFarExample(links: seq<IntLink>)
    requires IsGrid(links, 1, 10000, false)
    ensures var net := Net(1, 10000, false, [0, 9999], links);
      IsNet(net) && Toll(net, 0, net.Out(1)) > SP.INFINITE
  {
    assert Row(0, 10000) == 0 && Col(0, 10000) == 0 && Row(9999, 10000) == 0 && Col(9999, 10000) == 9999;
  }

  // ----- From the generator to the routes

  datatype Solved = Solved(net: Net, weights: SP.Matrix, dist: SP.Matrix)

  ghost predicate HoldsToll(net: Net, d: SP.Matrix, u: nat, to: nat)
    requires IsNet(net) && SP.Square(d, net.Switches()) && u < net.Switches() && to < net.Switches()
  {
    d[u][to] == Capped(Toll(net, u, to))
  }

  /** The distances are the tolls, and there are routes to the controllers within reach. */
  ghost predicate IsRight(r: Solved) {
    var n := r.net.Switches();
    && IsNet(r.net) && SP.Square(r.weights, n) && SP.Square(r.dist, n)
    && (forall u: nat, to: nat :: u < n && to < n && (u != to || to < r.net.Router(0) || !LinksToSelf(r.net)) ==>
      HoldsToll(r.net, r.dist, u, to))
    && (forall s: nat, f: nat :: s < |r.net.at| && f < |r.net.at| ==>
      (Routed(r.net, r.weights, r.dist, s, f) <==> Toll(r.net, s, r.net.Out(f)) <= SP.INFINITE))
  }

  lemma {:induction false} SolvedIsRight(r: Solved, m: LinkMap)
    requires IsSolved(r.net, m, r.weights, r.dist)
    ensures IsRight(r)
  {
    var n := r.net.Switches();
    WeightsAreNetwork(r.net, m, r.weights);
    forall u: nat, to: nat | u < n && to < n && (u != to || to < r.net.Router(0) || !LinksToSelf(r.net))
      ensures HoldsToll(r.net, r.dist, u, to)
    {
      if u == to >= r.net.Router(0) {
        SelfLinkIff(r.net, m, r.weights, to - r.net.Router(0));
      }
      DistancesAreTolls(r.net, m, r.weights, r.dist, u, to);
    }
    forall s: nat, f: nat | s < |r.net.at| && f < |r.net.at|
      ensures Routed(r.net, r.weights, r.dist, s, f) <==> Toll(r.net, s, r.net.Out(f)) <= SP.INFINITE
    {
      RoutedIff(r.net, m, r.weights, r.dist, s, f);
    }
  }

  /** makeTopology, Topology::Topology and Topology::createLinks together: the network of a mesh or torus
      with its controllers; None where one of them fails an assertion. */
  method Build(isDma: seq<bool>, routers: nat, rows: nat, wrap: bool) returns (r: Option<Solved>)
    ensures r.Some? <==> ShapeOk(routers, rows) && RestIsDma(isDma, routers) && |isDma| > 1
    ensures r.Some? ==> IsRight(r.value)
    ensures r.Some? ==>
      var net := r.value.net;
      && net.rows == rows && net.Routers() == routers && net.wrap == wrap && |net.at| == |isDma|
      && forall i :: 0 <= i < |isDma| ==> net.at[i] == RouterFor(i, |isDma|, routers)
  {
    var t := Connect(isDma, routers, rows, wrap);
    if t == None || |isDma| <= 1 {
      return None;
    }
    var net := t.value;
    var m := AddLinks(net);
    var n := CountSwitches(m);
    CountIsSwitches(net, m, n);
    var w := FillWeights(m, n);
    WeightsAreNetwork(net, m, w);
    var d := SP.Extend(w, n);
    r := Some(Solved(net, w, d));
    SolvedIsRight(r.value, m);
  }

  /** What makeTopology makes, as Topology::Topology sees it */
  method Connect(isDma: seq<bool>, routers: nat, rows: nat, wrap: bool) returns (r: Option<Net>)
    ensures r.Some? <==> ShapeOk(routers, rows) && RestIsDma(isDma, routers)
    ensures r.Some? ==>
      var net := r.value;
      && IsNet(net) && net.rows == rows && net.Routers() == routers && net.wrap == wrap && |net.at| == |isDma|
      && forall i :: 0 <= i < |isDma| ==> net.at[i] == RouterFor(i, |isDma|, routers)
  {
    var t := MakeTopology(isDma, routers, rows, wrap);
    if t == None {
      return None;
    }
    var ext := t.value.ext;
    assert rows * t.value.cols == t.value.cols * rows;
    r := Some(Net(rows, t.value.cols, wrap, seq(|ext|, i requires 0 <= i < |ext| => ext[i].router), t.value.links));
  }
}

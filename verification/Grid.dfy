/**
  The mesh and torus generators (gem5/configs/topologies/Mesh.py and Torus.py) and the
  weight of the cheapest path between two routers of the networks they build.

  Router `col + row * cols` stands at (row, col).  Links are bidirectional
  (gem5/src/mem/ruby/network/Topology.cc adds each of them in both directions).
 */
module Grid {
  import opened Common

  datatype IntLink = IntLink(id: nat, a: nat, b: nat, weight: nat)

  function Id(row: nat, col: nat, cols: nat): (id: nat) {
    col + row * cols
  }

  lemma {:induction false} RowsBelow(cols: nat, r: nat, r': nat)
    requires r < r'
    ensures r * cols + cols <= r' * cols
    decreases r'
  {
    assert r' * cols == (r' - 1) * cols + cols;
    if r < r' - 1 {
      RowsBelow(cols, r, r' - 1);
    }
  }

  lemma {:induction false} IdInjective(cols: nat, r: nat, c: nat, r': nat, c': nat)
    requires c < cols && c' < cols && Id(r, c, cols) == Id(r', c', cols)
    ensures r == r' && c == c'
  {
    if r < r' {
      RowsBelow(cols, r, r');
    } else if r' < r {
      RowsBelow(cols, r', r);
    }
  }

  /** Where router x stands */
  lemma {:induction false} Coordinates(x: nat, rows: nat, cols: nat) returns (r: nat, c: nat)
    requires x < rows * cols
    ensures cols > 0 && r < rows && c < cols && x == Id(r, c, cols) && r == Row(x, cols) && c == Col(x, cols)
  {
    assert cols > 0;
    r, c := x / cols, x % cols;
    assert x == c + r * cols;
    if r >= rows {
      if r > rows {
        RowsBelow(cols, rows, r);
      }
      assert false;
    }
  }

  function Row(x: nat, cols: nat): (r: nat)
    requires cols > 0
  {
    x / cols
  }

  function Col(x: nat, cols: nat): (c: nat)
    requires cols > 0
  {
    x % cols
  }

  lemma {:induction false} Stands(x: nat, rows: nat, cols: nat)
    requires x < rows * cols
    ensures cols > 0 && Row(x, cols) < rows && Col(x, cols) < cols && x == Id(Row(x, cols), Col(x, cols), cols)
  {
    var r, c := Coordinates(x, rows, cols);
  }

  lemma {:induction false} IdInRange(r: nat, c: nat, rows: nat, cols: nat)
    requires r < rows && c < cols
    ensures Id(r, c, cols) < rows * cols
  {
    RowsBelow(cols, r, rows);
  }

  // ----- One dimension: a line, or a ring when it wraps around

  /** Whether position x of n has a link to the next position, and which one that is. */
  predicate HasNext(n: nat, wrap: bool, x: nat) {
    x < n && (wrap || x + 1 < n)
  }

  function Next(n: nat, x: nat): (y: nat)
    requires x < n
    ensures y < n
  {
    if x + 1 < n then x + 1 else 0
  }

  function Abs(x: int): (y: nat) {
    if x < 0 then -x else x
  }

  /** The distance on the line, or the shorter way round the ring. */
  function Steps(n: nat, wrap: bool, x: nat, y: nat): (d: nat)
    requires x < n && y < n
  {
    var d := Abs(x - y);
    if wrap && n - d < d then n - d else d
  }

  lemma {:induction false} StepsNext(n: nat, wrap: bool, x: nat, y: nat)
    requires y < n && HasNext(n, wrap, x)
    ensures Abs(Steps(n, wrap, x, y) - Steps(n, wrap, Next(n, x), y)) <= 1
  {
  }

  /** Some neighbour is one step closer. */
  lemma {:induction false} StepCloser(n: nat, wrap: bool, x: nat, y: nat) returns (z: nat)
    requires x < n && y < n && x != y
    ensures z < n && Steps(n, wrap, z, y) == Steps(n, wrap, x, y) - 1
    ensures (HasNext(n, wrap, x) && z == Next(n, x)) || (HasNext(n, wrap, z) && x == Next(n, z))
  {
    var up := if wrap && n - Abs(x - y) < Abs(x - y) then x > y else x < y;
    z := if up then Next(n, x) else if x > 0 then x - 1 else n - 1;
  }

  // ----- The links of a grid

  /** `k` joins u and v, either way round. */
  predicate Joins(k: IntLink, u: nat, v: nat) {
    (k.a == u && k.b == v) || (k.a == v && k.b == u)
  }

  /** An east-west link of row r between columns c and the next. */
  predicate IsRowLink(k: IntLink, cols: nat, wrap: bool, r: nat, c: nat) {
    HasNext(cols, wrap, c) && k.weight == 1 && Joins(k, Id(r, c, cols), Id(r, Next(cols, c), cols))
  }

  /** A north-south link of column c between rows r and the next. */
  predicate IsColLink(k: IntLink, rows: nat, cols: nat, wrap: bool, r: nat, c: nat) {
    HasNext(rows, wrap, r) && c < cols && k.weight == 2 && Joins(k, Id(r, c, cols), Id(Next(rows, r), c, cols))
  }

  ghost predicate InGrid(k: IntLink, rows: nat, cols: nat, wrap: bool) {
    exists r: nat, c: nat :: r < rows && c < cols && (IsRowLink(k, cols, wrap, r, c) || IsColLink(k, rows, cols, wrap, r, c))
  }

  ghost predicate HasRowLink(links: seq<IntLink>, cols: nat, wrap: bool, r: nat, c: nat) {
    exists i :: 0 <= i < |links| && IsRowLink(links[i], cols, wrap, r, c)
  }

  ghost predicate HasColLink(links: seq<IntLink>, rows: nat, cols: nat, wrap: bool, r: nat, c: nat) {
    exists i :: 0 <= i < |links| && IsColLink(links[i], rows, cols, wrap, r, c)
  }

  /** Exactly the links of a rows x cols grid, every one of them at least once. */
  ghost predicate IsGrid(links: seq<IntLink>, rows: nat, cols: nat, wrap: bool) {
    && (forall i :: 0 <= i < |links| ==> InGrid(links[i], rows, cols, wrap))
    && (forall r: nat, c: nat :: r < rows && HasNext(cols, wrap, c) ==> HasRowLink(links, cols, wrap, r, c))
    && (forall r: nat, c: nat :: HasNext(rows, wrap, r) && c < cols ==> HasColLink(links, rows, cols, wrap, r, c))
  }

  // ----- Paths

  /** Take link `via` to router `to`. */
  datatype Hop = Hop(via: nat, to: nat)

  ghost predicate IsPath(links: seq<IntLink>, u: nat, p: seq<Hop>, v: nat)
    decreases |p|
  {
    if p == [] then u == v
    else p[0].via < |links| && Joins(links[p[0].via], u, p[0].to) && IsPath(links, p[0].to, p[1..], v)
  }

  ghost function Weight(links: seq<IntLink>, p: seq<Hop>): (w: nat) {
    if p == [] then 0 else (if p[0].via < |links| then links[p[0].via].weight else 0) + Weight(links, p[1..])
  }

  lemma {:induction false} PathConcat(links: seq<IntLink>, u: nat, p: seq<Hop>, v: nat, q: seq<Hop>, w: nat)
    requires IsPath(links, u, p, v) && IsPath(links, v, q, w)
    ensures IsPath(links, u, p + q, w) && Weight(links, p + q) == Weight(links, p) + Weight(links, q)
    decreases |p|
  {
    if p == [] {
      assert p + q == q;
    } else {
      assert (p + q)[1..] == p[1..] + q;
      PathConcat(links, p[0].to, p[1..], v, q, w);
    }
  }

  /** The cost between two positions: a column step costs 1, a row step 2. */
  function Cost(rows: nat, cols: nat, wrap: bool, r: nat, c: nat, r': nat, c': nat): (w: nat)
    requires r < rows && r' < rows && c < cols && c' < cols
  {
    Steps(cols, wrap, c, c') + 2 * Steps(rows, wrap, r, r')
  }

  /** Where a link of the grid can lead from (r, c), and how much closer that can be. */
  lemma {:induction false} HopGain(k: IntLink, rows: nat, cols: nat, wrap: bool, r: nat, c: nat, to: nat, r': nat, c': nat)
    returns (r1: nat, c1: nat)
    requires InGrid(k, rows, cols, wrap) && Joins(k, Id(r, c, cols), to)
    requires r < rows && c < cols && r' < rows && c' < cols
    ensures r1 < rows && c1 < cols && to == Id(r1, c1, cols)
    ensures Cost(rows, cols, wrap, r, c, r', c') <= k.weight + Cost(rows, cols, wrap, r1, c1, r', c')
  {
    var x: nat, y: nat :| x < rows && y < cols && (IsRowLink(k, cols, wrap, x, y) || IsColLink(k, rows, cols, wrap, x, y));
    if IsRowLink(k, cols, wrap, x, y) {
      var z := Next(cols, y);
      StepsNext(cols, wrap, y, c');
      if Id(r, c, cols) == Id(x, y, cols) && to == Id(x, z, cols) {
        IdInjective(cols, r, c, x, y);
        r1, c1 := x, z;
      } else {
        IdInjective(cols, r, c, x, z);
        r1, c1 := x, y;
      }
    } else {
      var z := Next(rows, x);
      StepsNext(rows, wrap, x, r');
      if Id(r, c, cols) == Id(x, y, cols) && to == Id(z, y, cols) {
        IdInjective(cols, r, c, x, y);
        r1, c1 := z, y;
      } else {
        IdInjective(cols, r, c, z, y);
        r1, c1 := x, y;
      }
    }
  }

  /** Links between the same two routers have the same weight: 1 within a row, 2 within a column. */
  lemma {:induction false} LinkWeight(k: IntLink, rows: nat, cols: nat, wrap: bool, r: nat, c: nat, r': nat, c': nat)
    requires InGrid(k, rows, cols, wrap) && Joins(k, Id(r, c, cols), Id(r', c', cols))
    requires r < rows && c < cols && r' < rows && c' < cols && Id(r, c, cols) != Id(r', c', cols)
    ensures k.weight == if r == r' then 1 else 2
  {
    var x: nat, y: nat :| x < rows && y < cols && (IsRowLink(k, cols, wrap, x, y) || IsColLink(k, rows, cols, wrap, x, y));
    if IsRowLink(k, cols, wrap, x, y) {
      var z := Next(cols, y);
      if Id(r, c, cols) == Id(x, y, cols) && Id(r', c', cols) == Id(x, z, cols) {
        IdInjective(cols, r, c, x, y);
        IdInjective(cols, r', c', x, z);
      } else {
        IdInjective(cols, r, c, x, z);
        IdInjective(cols, r', c', x, y);
      }
    } else {
      var z := Next(rows, x);
      if Id(r, c, cols) == Id(x, y, cols) && Id(r', c', cols) == Id(z, y, cols) {
        IdInjective(cols, r, c, x, y);
        IdInjective(cols, r', c', z, y);
      } else {
        IdInjective(cols, r, c, z, y);
        IdInjective(cols, r', c', x, y);
      }
    }
  }

  /** The cost between two routers */
  function RouterCost(rows: nat, cols: nat, wrap: bool, x: nat, y: nat): (w: nat)
    requires x < rows * cols && y < rows * cols
  {
    Stands(x, rows, cols);
    Stands(y, rows, cols);
    Cost(rows, cols, wrap, Row(x, cols), Col(x, cols), Row(y, cols), Col(y, cols))
  }

  /** No path is cheaper than the grid distance. */
  lemma {:induction false} PathAtLeast(links: seq<IntLink>, rows: nat, cols: nat, wrap: bool, p: seq<Hop>,
                                       r: nat, c: nat, r': nat, c': nat)
    requires IsGrid(links, rows, cols, wrap) && r < rows && c < cols && r' < rows && c' < cols
    requires IsPath(links, Id(r, c, cols), p, Id(r', c', cols))
    ensures Cost(rows, cols, wrap, r, c, r', c') <= Weight(links, p)
    decreases |p|
  {
    if p == [] {
      IdInjective(cols, r, c, r', c');
    } else {
      var r1, c1 := HopGain(links[p[0].via], rows, cols, wrap, r, c, p[0].to, r', c');
      PathAtLeast(links, rows, cols, wrap, p[1..], r1, c1, r', c');
    }
  }

  lemma {:induction false} OneHop(links: seq<IntLink>, i: nat, u: nat, v: nat)
    requires i < |links| && Joins(links[i], u, v)
    ensures IsPath(links, u, [Hop(i, v)], v) && Weight(links, [Hop(i, v)]) == links[i].weight
  {
    var p := [Hop(i, v)];
    assert p[1..] == [];
  }

  /** Along a row, one link per step. */
  lemma {:induction false} RowPath(links: seq<IntLink>, rows: nat, cols: nat, wrap: bool, r: nat, c: nat, c': nat)
    returns (p: seq<Hop>)
    requires IsGrid(links, rows, cols, wrap) && r < rows && c < cols && c' < cols
    ensures IsPath(links, Id(r, c, cols), p, Id(r, c', cols)) && Weight(links, p) == Steps(cols, wrap, c, c')
    decreases Steps(cols, wrap, c, c')
  {
    if c == c' {
      p := [];
    } else {
      var z := StepCloser(cols, wrap, c, c');
      var west := if HasNext(cols, wrap, c) && z == Next(cols, c) then c else z;
      assert HasRowLink(links, cols, wrap, r, west);
      var i :| 0 <= i < |links| && IsRowLink(links[i], cols, wrap, r, west);
      OneHop(links, i, Id(r, c, cols), Id(r, z, cols));
      var q := RowPath(links, rows, cols, wrap, r, z, c');
      PathConcat(links, Id(r, c, cols), [Hop(i, Id(r, z, cols))], Id(r, z, cols), q, Id(r, c', cols));
      p := [Hop(i, Id(r, z, cols))] + q;
    }
  }

  /** Along a column, one link of weight 2 per step. */
  lemma {:induction false} ColPath(links: seq<IntLink>, rows: nat, cols: nat, wrap: bool, r: nat, c: nat, r': nat)
    returns (p: seq<Hop>)
    requires IsGrid(links, rows, cols, wrap) && r < rows && r' < rows && c < cols
    ensures IsPath(links, Id(r, c, cols), p, Id(r', c, cols)) && Weight(links, p) == 2 * Steps(rows, wrap, r, r')
    decreases Steps(rows, wrap, r, r')
  {
    if r == r' {
      p := [];
    } else {
      var z := StepCloser(rows, wrap, r, r');
      var north := if HasNext(rows, wrap, r) && z == Next(rows, r) then r else z;
      assert HasColLink(links, rows, cols, wrap, north, c);
      var i :| 0 <= i < |links| && IsColLink(links[i], rows, cols, wrap, north, c);
      OneHop(links, i, Id(r, c, cols), Id(z, c, cols));
      var q := ColPath(links, rows, cols, wrap, z, c, r');
      PathConcat(links, Id(r, c, cols), [Hop(i, Id(z, c, cols))], Id(z, c, cols), q, Id(r', c, cols));
      p := [Hop(i, Id(z, c, cols))] + q;
    }
  }

  /** The cheapest path costs exactly the grid distance, and going along the row first is one. */
  lemma {:induction false} CheapestPath(links: seq<IntLink>, rows: nat, cols: nat, wrap: bool, r: nat, c: nat, r': nat, c': nat)
    returns (p: seq<Hop>)
    requires IsGrid(links, rows, cols, wrap) && r < rows && c < cols && r' < rows && c' < cols
    ensures IsPath(links, Id(r, c, cols), p, Id(r', c', cols))
    ensures Weight(links, p) == Cost(rows, cols, wrap, r, c, r', c')
    ensures forall q :: IsPath(links, Id(r, c, cols), q, Id(r', c', cols)) ==> Weight(links, p) <= Weight(links, q)
  {
    var p1 := RowPath(links, rows, cols, wrap, r, c, c');
    var p2 := ColPath(links, rows, cols, wrap, r, c', r');
    PathConcat(links, Id(r, c, cols), p1, Id(r, c', cols), p2, Id(r', c', cols));
    p := p1 + p2;
    forall q | IsPath(links, Id(r, c, cols), q, Id(r', c', cols)) ensures Weight(links, p) <= Weight(links, q) {
      PathAtLeast(links, rows, cols, wrap, q, r, c, r', c');
    }
  }

  // ----- The generators

  datatype ExtLink = ExtLink(id: nat, node: nat, router: nat)

  /** Link ids run on from `first` without a gap. */
  ghost predicate Numbered(links: seq<IntLink>, first: nat) {
    forall i :: 0 <= i < |links| ==> links[i].id == first + i
  }

  lemma {:induction false} StillHasRow(links: seq<IntLink>, k: IntLink, cols: nat, wrap: bool, r: nat, c: nat)
    requires HasRowLink(links, cols, wrap, r, c) || IsRowLink(k, cols, wrap, r, c)
    ensures HasRowLink(links + [k], cols, wrap, r, c)
  {
    var s := links + [k];
    if IsRowLink(k, cols, wrap, r, c) {
      assert s[|links|] == k;
    } else {
      var i :| 0 <= i < |links| && IsRowLink(links[i], cols, wrap, r, c);
      assert s[i] == links[i];
    }
  }

  lemma {:induction false} StillHasCol(links: seq<IntLink>, k: IntLink, rows: nat, cols: nat, wrap: bool, r: nat, c: nat)
    requires HasColLink(links, rows, cols, wrap, r, c) || IsColLink(k, rows, cols, wrap, r, c)
    ensures HasColLink(links + [k], rows, cols, wrap, r, c)
  {
    var s := links + [k];
    if IsColLink(k, rows, cols, wrap, r, c) {
      assert s[|links|] == k;
    } else {
      var i :| 0 <= i < |links| && IsColLink(links[i], rows, cols, wrap, r, c);
      assert s[i] == links[i];
    }
  }

  /** The row links up to column `col` of row `row` are there, in the order of the first loop nest. */
  ghost predicate RowsDone(links: seq<IntLink>, cols: nat, wrap: bool, row: nat, col: nat) {
    forall r: nat, c: nat :: (r < row || (r == row && c < col)) && HasNext(cols, wrap, c) ==> HasRowLink(links, cols, wrap, r, c)
  }

  /** The column links up to row `row` of column `col` are there, in the order of the second. */
  ghost predicate ColsDone(links: seq<IntLink>, rows: nat, cols: nat, wrap: bool, col: nat, row: nat) {
    forall r: nat, c: nat :: (c < col || (c == col && r < row)) && c < cols && HasNext(rows, wrap, r) ==>
      HasColLink(links, rows, cols, wrap, r, c)
  }

  ghost predicate AllInGrid(links: seq<IntLink>, rows: nat, cols: nat, wrap: bool) {
    forall i :: 0 <= i < |links| ==> InGrid(links[i], rows, cols, wrap)
  }

  function Times(a: nat, b: nat): (p: nat) {
    a * b
  }

  lemma {:induction false} TimesNext(a: nat, b: nat)
    ensures Times(a + 1, b) == Times(a, b) + b && Times(0, b) == 0
  {
  }

  /** How many of the first x positions of n have a link to the next */
  function Gaps(n: nat, x: nat): (g: nat) {
    if x < n then x else if n == 0 then 0 else n - 1
  }

  predicate StepsByOne(k: IntLink) {
    k.weight == 1 && k.b == k.a + 1
  }

  predicate StepsByRow(k: IntLink, cols: nat) {
    k.weight == 2 && k.b == k.a + cols
  }

  /** Mesh.makeTopology: the internal links, numbered from linkCount. */
  method MeshLinks(rows: nat, cols: nat, linkCount: nat) returns (links: seq<IntLink>)
    ensures IsGrid(links, rows, cols, false)
    ensures Numbered(links, linkCount)
    // router x to router x + 1 with weight 1, or to router x + cols with weight 2
    ensures forall i :: 0 <= i < |links| ==> StepsByOne(links[i]) || StepsByRow(links[i], cols)
    // each of them once
    ensures rows > 0 && cols > 0 ==> |links| == rows * (cols - 1) + cols * (rows - 1)
    ensures rows == 0 || cols == 0 ==> links == []
  {
    links := [];
    var count := linkCount;
    var g, h := Gaps(cols, cols), Gaps(rows, rows);
    for row := 0 to rows
      invariant count == linkCount + |links| && Numbered(links, linkCount)
      invariant AllInGrid(links, rows, cols, false) && RowsDone(links, cols, false, row, 0)
      invariant |links| == Times(row, g) && forall i :: 0 <= i < |links| ==> StepsByOne(links[i])
    {
      TimesNext(row, g);
      for col := 0 to cols
        invariant count == linkCount + |links| && Numbered(links, linkCount)
        invariant AllInGrid(links, rows, cols, false) && RowsDone(links, cols, false, row, col)
        invariant |links| == Times(row, g) + Gaps(cols, col) && forall i :: 0 <= i < |links| ==> StepsByOne(links[i])
      {
        if col + 1 < cols {
          var east, west := col + row * cols, (col + 1) + row * cols;
          var k := IntLink(count, east, west, 1);
          AddRow(links, k, rows, cols, false, row, col);
          links := links + [k];
          count := count + 1;
        }
      }
    }
    for col := 0 to cols
      invariant count == linkCount + |links| && Numbered(links, linkCount)
      invariant AllInGrid(links, rows, cols, false) && RowsDone(links, cols, false, rows, 0)
      invariant ColsDone(links, rows, cols, false, col, 0) && |links| == Times(rows, g) + Times(col, h)
      invariant forall i :: 0 <= i < |links| ==> StepsByOne(links[i]) || StepsByRow(links[i], cols)
    {
      TimesNext(col, h);
      for row := 0 to rows
        invariant count == linkCount + |links| && Numbered(links, linkCount)
        invariant AllInGrid(links, rows, cols, false) && RowsDone(links, cols, false, rows, 0)
        invariant ColsDone(links, rows, cols, false, col, row)
        invariant |links| == Times(rows, g) + Times(col, h) + Gaps(rows, row)
        invariant forall i :: 0 <= i < |links| ==> StepsByOne(links[i]) || StepsByRow(links[i], cols)
      {
        if row + 1 < rows {
          var north, south := col + row * cols, col + (row + 1) * cols;
          var k := IntLink(count, north, south, 2);
          TimesNext(row, cols);
          AddCol(links, k, rows, cols, false, row, col);
          links := links + [k];
          count := count + 1;
        }
      }
    }
  }

  lemma {:induction false} AddRow(links: seq<IntLink>, k: IntLink, rows: nat, cols: nat, wrap: bool, row: nat, col: nat)
    requires AllInGrid(links, rows, cols, wrap) && RowsDone(links, cols, wrap, row, col)
    requires row < rows && IsRowLink(k, cols, wrap, row, col)
    ensures AllInGrid(links + [k], rows, cols, wrap) && RowsDone(links + [k], cols, wrap, row, col + 1)
  {
    assert InGrid(k, rows, cols, wrap);
    forall r: nat, c: nat | (r < row || (r == row && c < col + 1)) && HasNext(cols, wrap, c)
      ensures HasRowLink(links + [k], cols, wrap, r, c)
    {
      StillHasRow(links, k, cols, wrap, r, c);
    }
  }

  lemma {:induction false} AddCol(links: seq<IntLink>, k: IntLink, rows: nat, cols: nat, wrap: bool, row: nat, col: nat)
    requires AllInGrid(links, rows, cols, wrap) && RowsDone(links, cols, wrap, rows, 0)
    requires ColsDone(links, rows, cols, wrap, col, row)
    requires row < rows && col < cols && IsColLink(k, rows, cols, wrap, row, col)
    ensures AllInGrid(links + [k], rows, cols, wrap) && RowsDone(links + [k], cols, wrap, rows, 0)
    ensures ColsDone(links + [k], rows, cols, wrap, col, row + 1)
  {
    assert InGrid(k, rows, cols, wrap);
    forall r: nat, c: nat | r < rows && HasNext(cols, wrap, c) ensures HasRowLink(links + [k], cols, wrap, r, c) {
      StillHasRow(links, k, cols, wrap, r, c);
    }
    forall r: nat, c: nat | (c < col || (c == col && r < row + 1)) && c < cols && HasNext(rows, wrap, r)
      ensures HasColLink(links + [k], rows, cols, wrap, r, c)
    {
      StillHasCol(links, k, rows, cols, wrap, r, c);
    }
  }

  /** Torus.makeTopology: the internal links, the last of each row and column wrapping around. */
  method TorusLinks(rows: nat, cols: nat, linkCount: nat) returns (links: seq<IntLink>)
    ensures IsGrid(links, rows, cols, true)
    ensures Numbered(links, linkCount)
    ensures |links| == 2 * (rows * cols)
  {
    links := [];
    var count := linkCount;
    for row := 0 to rows
      invariant count == linkCount + |links| && Numbered(links, linkCount)
      invariant AllInGrid(links, rows, cols, true) && RowsDone(links, cols, true, row, 0)
      invariant |links| == Times(row, cols)
    {
      TimesNext(row, cols);
      for col := 0 to cols
        invariant count == linkCount + |links| && Numbered(links, linkCount)
        invariant AllInGrid(links, rows, cols, true) && RowsDone(links, cols, true, row, col)
        invariant |links| == Times(row, cols) + col
      {
        var west := col + row * cols;
        var east := if col + 1 < cols then (col + 1) + row * cols else row * cols;
        var k := IntLink(count, east, west, 1);
        AddRow(links, k, rows, cols, true, row, col);
        links := links + [k];
        count := count + 1;
      }
    }
    for col := 0 to cols
      invariant count == linkCount + |links| && Numbered(links, linkCount)
      invariant AllInGrid(links, rows, cols, true) && RowsDone(links, cols, true, rows, 0)
      invariant ColsDone(links, rows, cols, true, col, 0) && |links| == Times(rows, cols) + Times(col, rows)
    {
      TimesNext(col, rows);
      for row := 0 to rows
        invariant count == linkCount + |links| && Numbered(links, linkCount)
        invariant AllInGrid(links, rows, cols, true) && RowsDone(links, cols, true, rows, 0)
        invariant ColsDone(links, rows, cols, true, col, row) && |links| == Times(rows, cols) + Times(col, rows) + row
      {
        var north := col + row * cols;
        var south := if row + 1 < rows then col + (row + 1) * cols else col;
        var k := IntLink(count, north, south, 2);
        AddCol(links, k, rows, cols, true, row, col);
        links := links + [k];
        count := count + 1;
      }
    }
  }

  lemma {:induction false} Quotient(level: nat, r: nat, n: nat)
    requires r < n
    ensures Id(level, r, n) / n == level && Id(level, r, n) % n == r
  {
    var x := Id(level, r, n);
    assert x == (x % n) + (x / n) * n;
    IdInjective(n, level, r, x / n, x % n);
  }

  /** The nodes left over after every router has its share are DMA controllers. */
  ghost predicate RestIsDma(isDma: seq<bool>, routers: nat)
    requires routers > 0
  {
    forall i :: |isDma| - |isDma| % routers <= i < |isDma| ==> isDma[i]
  }

  /** The number of routers is a positive number of full rows. */
  predicate ShapeOk(routers: nat, rows: nat)
    ensures ShapeOk(routers, rows) ==> routers > 0
  {
    routers > 0 && rows > 0 && rows <= routers && (routers / rows) * rows == routers
  }

  /** The router of node i of so many: in turn, the remainder all at router 0 */
  function RouterFor(i: nat, nodes: nat, routers: nat): (r: nat)
    requires routers > 0
  {
    if i < nodes - nodes % routers then i % routers else 0
  }

  /**
    The external links of both generators.  All nodes but the remainder go round the routers
    in turn, level after level; the remainder, which must be DMA controllers, to router 0.
   */
  method AttachNodes(isDma: seq<bool>, routers: nat) returns (ok: bool, ext: seq<ExtLink>)
    requires routers > 0
    ensures ok <==> RestIsDma(isDma, routers)
    ensures ok ==> |ext| == |isDma| && forall i :: 0 <= i < |ext| ==> ext[i].id == ext[i].node == i && ext[i].router < routers
    ensures ok ==> forall level: nat, r: nat :: level < |isDma| / routers && r < routers ==>
      Id(level, r, routers) < |isDma| - |isDma| % routers && ext[Id(level, r, routers)].router == r
    ensures ok ==> forall i :: |isDma| - |isDma| % routers <= i < |isDma| ==> ext[i].router == 0
    ensures ok ==> forall i :: 0 <= i < |isDma| ==> ext[i].router == RouterFor(i, |isDma|, routers)
  {
    var perRouter, remainder := |isDma| / routers, |isDma| % routers;
    var n := |isDma| - remainder;
    assert n == perRouter * routers;
    ext := [];
    for i := 0 to n
      invariant |ext| == i && forall j :: 0 <= j < i ==> ext[j] == ExtLink(j, j, j % routers)
    {
      ext := ext + [ExtLink(i, i, i % routers)];
    }
    ok := true;
    for i := n to |isDma|
      invariant |ext| == i && forall j :: n <= j < i ==> isDma[j]
      invariant forall j :: 0 <= j < i ==> ext[j] == ExtLink(j, j, if j < n then j % routers else 0)
    {
      if !isDma[i] {
        ok := false;
        return;
      }
      ext := ext + [ExtLink(i, i, 0)];
    }
    forall level: nat, r: nat | level < perRouter && r < routers
      ensures Id(level, r, routers) < n && ext[Id(level, r, routers)].router == r
    {
      RowsBelow(routers, level, perRouter);
      Quotient(level, r, routers);
    }
  }

  datatype Topology = Topology(rows: nat, cols: nat, ext: seq<ExtLink>, links: seq<IntLink>)

  /** Every link has its own id, internal and external together. */
  ghost predicate DistinctIds(t: Topology) {
    && (forall i :: 0 <= i < |t.ext| ==> t.ext[i].id == i)
    && Numbered(t.links, |t.ext|)
  }

  /** makeTopology of Mesh, or of Torus if `wrap`; None where the source fails an assertion or divides by zero. */
  method MakeTopology(isDma: seq<bool>, routers: nat, rows: nat, wrap: bool) returns (t: Option<Topology>)
    ensures t.Some? <==> ShapeOk(routers, rows) && RestIsDma(isDma, routers)
    ensures t.Some? ==>
      && t.value.rows == rows && t.value.cols * rows == routers && |t.value.ext| == |isDma|
      && IsGrid(t.value.links, rows, t.value.cols, wrap) && DistinctIds(t.value)
      && forall i :: 0 <= i < |isDma| ==>
        t.value.ext[i].node == i && t.value.ext[i].router == RouterFor(i, |isDma|, routers) < routers
  {
    if !ShapeOk(routers, rows) {
      return None;
    }
    var cols := routers / rows;
    var ok, ext := AttachNodes(isDma, routers);
    if !ok {
      return None;
    }
    var links;
    if wrap {
      links := TorusLinks(rows, cols, |ext|);
    } else {
      links := MeshLinks(rows, cols, |ext|);
    }
    t := Some(Topology(rows, cols, ext, links));
  }
}

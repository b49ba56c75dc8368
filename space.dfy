/** The occupancy grid and the read-only queries made against it: whether a
    mask fits at a position, whether it is supported from below, and how much
    of its surface touches occupied cells. Grid axes are (width, depth,
    height) in cells; a mask cell [k][i][j] (height k, width i, depth j) lands
    on grid cell (x + i, y + j, z + k). */
module Space {
  import opened Masks

  /** A snapshot of the occupancy grid: a count per cell. */
  datatype Grid = Grid(l0: nat, l1: nat, l2: nat, v: seq<seq<seq<int>>>)
  {
    predicate WellFormed()
    {
      |v| == l0 &&
      forall p :: 0 <= p < l0 ==>
        |v[p]| == l1 && forall q :: 0 <= q < l1 ==> |v[p][q]| == l2
    }

    /** Every cell holds 0 or 1: no two items share a cell. */
    predicate Binary()
      requires WellFormed()
    {
      forall p, q, r :: 0 <= p < l0 && 0 <= q < l1 && 0 <= r < l2 ==> 0 <= v[p][q][r] <= 1
    }
  }

  /** The all-zero grid of the given extents. */
  function Zeros(l0: nat, l1: nat, l2: nat): (g: Grid)
    ensures g.WellFormed() && g.l0 == l0 && g.l1 == l1 && g.l2 == l2
    ensures forall p, q, r :: 0 <= p < l0 && 0 <= q < l1 && 0 <= r < l2 ==> g.v[p][q][r] == 0
  {
    Grid(l0, l1, l2, seq(l0, p => seq(l1, q => seq(l2, r => 0))))
  }

  /** The cells of a grid that hold something. */
  function OccupiedCells(g: Grid): (s: set<Cell>)
    requires g.WellFormed()
    ensures forall c :: c in s <==>
      0 <= c.0 < g.l0 && 0 <= c.1 < g.l1 && 0 <= c.2 < g.l2 && g.v[c.0][c.1][c.2] != 0
  {
    set p, q, r | 0 <= p < g.l0 && 0 <= q < g.l1 && 0 <= r < g.l2 && g.v[p][q][r] != 0 :: (p, q, r)
  }

  /** The all-zero grid is 0/1 and has no occupied cell. */
  lemma ZerosEmpty(l0: nat, l1: nat, l2: nat)
    ensures Zeros(l0, l1, l2).Binary() && OccupiedCells(Zeros(l0, l1, l2)) == {}
  {
    var g := Zeros(l0, l1, l2);
    forall c | c in OccupiedCells(g) ensures false {
    }
  }

  /** A mask placed at (x, y, z) stays within the grid. */
  predicate InBounds(g: Grid, x: nat, y: nat, z: nat, m: Mask)
  {
    x + m.w <= g.l0 && y + m.d <= g.l1 && z + m.h <= g.l2
  }

  /** The mask value landing on grid cell (p, q, r) when placed at (x, y, z);
      0 outside the mask. */
  function Cover(m: Mask, x: nat, y: nat, z: nat, p: int, q: int, r: int): (b: Bit)
    requires m.WellFormed()
    ensures b == 1 <==> m.Filled(r - z, p - x, q - y)
  {
    if x <= p < x + m.w && y <= q < y + m.d && z <= r < z + m.h then m.cells[r - z][p - x][q - y] else 0
  }

  /** Where mask voxel c = (height, width, depth) lands when the mask is
      placed at (x, y, z). */
  function Shift(c: Cell, x: int, y: int, z: int): Cell
  {
    (x + c.1, y + c.2, z + c.0)
  }

  /** The grid cells a mask placed at (x, y, z) fills. */
  function Footprint(m: Mask, x: nat, y: nat, z: nat): set<Cell>
    requires m.WellFormed()
  {
    set c | c in Occupied(m) :: Shift(c, x, y, z)
  }

  /** A grid cell is in the footprint exactly when the mask voxel landing on
      it is filled. */
  lemma InFootprint(m: Mask, x: nat, y: nat, z: nat, t: Cell)
    requires m.WellFormed()
    ensures t in Footprint(m, x, y, z) <==> m.Filled(t.2 - z, t.0 - x, t.1 - y)
  {
    var c := (t.2 - z, t.0 - x, t.1 - y);
    if m.Filled(c.0, c.1, c.2) {
      assert c in Occupied(m);
      assert Shift(c, x, y, z) == t;
    }
  }

  lemma ShiftInjective(c: Cell, e: Cell, x: int, y: int, z: int)
    requires Shift(c, x, y, z) == Shift(e, x, y, z)
    ensures c == e
  {
  }

  /** A placed mask fills as many grid cells as it has filled voxels. */
  lemma FootprintVolume(m: Mask, x: nat, y: nat, z: nat)
    requires m.WellFormed()
    ensures |Footprint(m, x, y, z)| == Volume(m)
  {
    var f := (c: Cell) => Shift(c, x, y, z);
    forall c, e | f(c) == f(e) ensures c == e {
      ShiftInjective(c, e, x, y, z);
    }
    BijectionCard(Occupied(m), Footprint(m, x, y, z), f);
  }

  // ---------------------------------------------------------------------------
  // check_fit

  /** The mask fits at (x, y, z): it stays within the grid and none of its
      filled voxels lands on an occupied cell. */
  predicate CheckFit(g: Grid, x: nat, y: nat, z: nat, m: Mask)
    requires g.WellFormed() && m.WellFormed()
  {
    InBounds(g, x, y, z, m) &&
    forall i, j, k :: 0 <= i < m.w && 0 <= j < m.d && 0 <= k < m.h ==>
      !(g.v[x + i][y + j][z + k] != 0 && m.cells[k][i][j] != 0)
  }

  /** A fitting position meets no occupied cell. */
  lemma FitIsDisjoint(g: Grid, x: nat, y: nat, z: nat, m: Mask)
    requires g.WellFormed() && m.WellFormed()
    ensures CheckFit(g, x, y, z, m) <==>
      InBounds(g, x, y, z, m) && Footprint(m, x, y, z) !! OccupiedCells(g)
  {
    if CheckFit(g, x, y, z, m) {
      forall t | t in Footprint(m, x, y, z) ensures t !in OccupiedCells(g) {
        InFootprint(m, x, y, z, t);
        var i, j, k := t.0 - x, t.1 - y, t.2 - z;
        assert g.v[x + i][y + j][z + k] == g.v[t.0][t.1][t.2];
      }
    } else if InBounds(g, x, y, z, m) {
      var i, j, k :| 0 <= i < m.w && 0 <= j < m.d && 0 <= k < m.h &&
        g.v[x + i][y + j][z + k] != 0 && m.cells[k][i][j] != 0;
      InFootprint(m, x, y, z, (x + i, y + j, z + k));
      assert (x + i, y + j, z + k) in OccupiedCells(g);
    }
  }

  // ---------------------------------------------------------------------------
  // place_item's update of the grid

  /** The grid after adding the mask's voxels at (x, y, z). */
  function Stamp(g: Grid, x: nat, y: nat, z: nat, m: Mask): (s: Grid)
    requires g.WellFormed() && m.WellFormed() && InBounds(g, x, y, z, m)
    ensures s.WellFormed() && s.l0 == g.l0 && s.l1 == g.l1 && s.l2 == g.l2
    ensures forall p, q, r {:trigger s.v[p][q][r]} :: 0 <= p < g.l0 && 0 <= q < g.l1 && 0 <= r < g.l2 ==>
      s.v[p][q][r] == g.v[p][q][r] + Cover(m, x, y, z, p, q, r)
  {
    Grid(g.l0, g.l1, g.l2,
      seq(g.l0, p requires 0 <= p < g.l0 =>
        seq(g.l1, q requires 0 <= q < g.l1 =>
          seq(g.l2, r requires 0 <= r < g.l2 => g.v[p][q][r] + Cover(m, x, y, z, p, q, r)))))
  }

  /** Adding a mask where it fits keeps every cell 0 or 1. */
  lemma StampKeepsBinary(g: Grid, x: nat, y: nat, z: nat, m: Mask)
    requires g.WellFormed() && m.WellFormed() && g.Binary()
    requires CheckFit(g, x, y, z, m)
    ensures Stamp(g, x, y, z, m).Binary()
  {
    var s := Stamp(g, x, y, z, m);
    forall p, q, r | 0 <= p < g.l0 && 0 <= q < g.l1 && 0 <= r < g.l2
      ensures 0 <= s.v[p][q][r] <= 1
    {
      if x <= p < x + m.w && y <= q < y + m.d && z <= r < z + m.h {
        var i, j, k := p - x, q - y, r - z;
        assert g.v[x + i][y + j][z + k] == g.v[p][q][r];
      }
    }
  }

  /** Adding a mask within the grid occupies exactly its footprint on top of
      what was occupied. */
  lemma StampOccupies(g: Grid, x: nat, y: nat, z: nat, m: Mask)
    requires g.WellFormed() && m.WellFormed() && g.Binary()
    requires InBounds(g, x, y, z, m)
    ensures OccupiedCells(Stamp(g, x, y, z, m)) == OccupiedCells(g) + Footprint(m, x, y, z)
  {
    var s := Stamp(g, x, y, z, m);
    forall c | c in OccupiedCells(s)
      ensures c in OccupiedCells(g) + Footprint(m, x, y, z)
    {
      InFootprint(m, x, y, z, c);
      assert s.v[c.0][c.1][c.2] == g.v[c.0][c.1][c.2] + Cover(m, x, y, z, c.0, c.1, c.2);
    }
    forall c | c in OccupiedCells(g)
      ensures c in OccupiedCells(s)
    {
      assert s.v[c.0][c.1][c.2] == g.v[c.0][c.1][c.2] + Cover(m, x, y, z, c.0, c.1, c.2);
    }
    forall c | c in Footprint(m, x, y, z)
      ensures c in OccupiedCells(s)
    {
      InFootprint(m, x, y, z, c);
      assert s.v[c.0][c.1][c.2] == g.v[c.0][c.1][c.2] + Cover(m, x, y, z, c.0, c.1, c.2);
    }
  }

  /** Adding a mask where it fits grows the number of occupied cells by the
      mask's volume. */
  lemma StampCount(g: Grid, x: nat, y: nat, z: nat, m: Mask)
    requires g.WellFormed() && m.WellFormed() && g.Binary()
    requires CheckFit(g, x, y, z, m)
    ensures |OccupiedCells(Stamp(g, x, y, z, m))| == |OccupiedCells(g)| + Volume(m)
  {
    StampOccupies(g, x, y, z, m);
    FitIsDisjoint(g, x, y, z, m);
    FootprintVolume(m, x, y, z);
  }

  // ---------------------------------------------------------------------------
  // Sums over planes

  /** The sum of a[b] * c[b] over b < n. */
  function RowDot(a: seq<int>, c: seq<int>, n: nat): int
    requires n <= |a| && n <= |c|
  {
    if n == 0 then 0 else RowDot(a, c, n - 1) + a[n - 1] * c[n - 1]
  }

  /** The sum of P[a][b] * Q[a][b] over a < n1, b < n2. */
  function Dot(P: seq<seq<int>>, Q: seq<seq<int>>, n1: nat, n2: nat): int
    requires n1 <= |P| && n1 <= |Q|
    requires forall a :: 0 <= a < n1 ==> n2 <= |P[a]| && n2 <= |Q[a]|
  {
    if n1 == 0 then 0 else Dot(P, Q, n1 - 1, n2) + RowDot(P[n1 - 1], Q[n1 - 1], n2)
  }

  /** The sum of Q[a][b] over a < n1, b < n2. */
  function Sum2(Q: seq<seq<int>>, n1: nat, n2: nat): int
    requires n1 <= |Q| && forall a :: 0 <= a < n1 ==> n2 <= |Q[a]|
  {
    if n1 == 0 then 0 else Sum2(Q, n1 - 1, n2) + RowSum(Q[n1 - 1], n2)
  }

  function RowSum(c: seq<int>, n: nat): int
    requires n <= |c|
  {
    if n == 0 then 0 else RowSum(c, n - 1) + c[n - 1]
  }

  /** The plane of a 2-D array with entries restricted to a range. */
  predicate PlaneIn(P: seq<seq<int>>, n1: nat, n2: nat, lo: int, hi: int)
  {
    n1 <= |P| && forall a :: 0 <= a < n1 ==> n2 <= |P[a]| && forall b :: 0 <= b < n2 ==> lo <= P[a][b] <= hi
  }

  lemma {:induction false} RowBounds(a: seq<int>, c: seq<int>, n: nat)
    requires n <= |a| && n <= |c|
    requires forall b :: 0 <= b < n ==> 0 <= a[b] <= 1 && 0 <= c[b]
    ensures 0 <= RowDot(a, c, n) <= RowSum(c, n)
  {
    if n > 0 {
      RowBounds(a, c, n - 1);
      assert 0 <= a[n - 1] * c[n - 1] <= c[n - 1];
    }
  }

  /** With 0/1 weights on a non-negative plane the weighted sum lies between
      zero and the plane's own sum. */
  lemma {:induction false} DotBounds(P: seq<seq<int>>, Q: seq<seq<int>>, n1: nat, n2: nat)
    requires PlaneIn(P, n1, n2, 0, 1) && n1 <= |Q|
    requires forall a :: 0 <= a < n1 ==> n2 <= |Q[a]| && forall b :: 0 <= b < n2 ==> 0 <= Q[a][b]
    ensures 0 <= Dot(P, Q, n1, n2) <= Sum2(Q, n1, n2)
  {
    if n1 > 0 {
      DotBounds(P, Q, n1 - 1, n2);
      RowBounds(P[n1 - 1], Q[n1 - 1], n2);
    }
  }

  /** Non-negative planes have a non-negative weighted sum. */
  lemma {:induction false} DotNonNeg(P: seq<seq<int>>, Q: seq<seq<int>>, n1: nat, n2: nat)
    requires n1 <= |P| && n1 <= |Q|
    requires forall a :: 0 <= a < n1 ==> n2 <= |P[a]| && n2 <= |Q[a]|
    requires forall a, b :: 0 <= a < n1 && 0 <= b < n2 ==> 0 <= P[a][b] && 0 <= Q[a][b]
    ensures Dot(P, Q, n1, n2) >= 0
  {
    if n1 > 0 {
      DotNonNeg(P, Q, n1 - 1, n2);
      RowNonNeg(P[n1 - 1], Q[n1 - 1], n2);
    }
  }

  lemma {:induction false} RowNonNeg(a: seq<int>, c: seq<int>, n: nat)
    requires n <= |a| && n <= |c|
    requires forall b :: 0 <= b < n ==> 0 <= a[b] && 0 <= c[b]
    ensures RowDot(a, c, n) >= 0
  {
    if n > 0 {
      RowNonNeg(a, c, n - 1);
    }
  }

  /** A zero plane contributes nothing. */
  lemma {:induction false} DotZero(P: seq<seq<int>>, Q: seq<seq<int>>, n1: nat, n2: nat)
    requires PlaneIn(P, n1, n2, 0, 0) && n1 <= |Q|
    requires forall a :: 0 <= a < n1 ==> n2 <= |Q[a]|
    ensures Dot(P, Q, n1, n2) == 0
  {
    if n1 > 0 {
      DotZero(P, Q, n1 - 1, n2);
      RowZero(P[n1 - 1], Q[n1 - 1], n2);
    }
  }

  lemma {:induction false} RowZero(a: seq<int>, c: seq<int>, n: nat)
    requires n <= |a| && n <= |c|
    requires forall b :: 0 <= b < n ==> a[b] == 0
    ensures RowDot(a, c, n) == 0
  {
    if n > 0 {
      RowZero(a, c, n - 1);
    }
  }

  /** A full 0/1 weight plane picks out the whole sum. */
  lemma {:induction false} DotFull(P: seq<seq<int>>, Q: seq<seq<int>>, n1: nat, n2: nat)
    requires PlaneIn(P, n1, n2, 1, 1) && n1 <= |Q|
    requires forall a :: 0 <= a < n1 ==> n2 <= |Q[a]|
    ensures Dot(P, Q, n1, n2) == Sum2(Q, n1, n2)
  {
    if n1 > 0 {
      DotFull(P, Q, n1 - 1, n2);
      RowFull(P[n1 - 1], Q[n1 - 1], n2);
    }
  }

  lemma {:induction false} RowFull(a: seq<int>, c: seq<int>, n: nat)
    requires n <= |a| && n <= |c|
    requires forall b :: 0 <= b < n ==> a[b] == 1
    ensures RowDot(a, c, n) == RowSum(c, n)
  {
    if n > 0 {
      RowFull(a, c, n - 1);
    }
  }

  // ---------------------------------------------------------------------------
  // Planes of the grid and faces of a mask

  /** Horizontal plane at height r: [a][b] = cell (x + a, y + b, r). */
  function PlaneZ(g: Grid, x: nat, y: nat, r: nat, n1: nat, n2: nat): (P: seq<seq<int>>)
    requires g.WellFormed() && x + n1 <= g.l0 && y + n2 <= g.l1 && r < g.l2
    ensures |P| == n1
    ensures forall a :: 0 <= a < n1 ==> (|P[a]| == n2 &&
      forall b :: 0 <= b < n2 ==> P[a][b] == g.v[x + a][y + b][r])
  {
    seq(n1, a requires 0 <= a < n1 => seq(n2, b requires 0 <= b < n2 => g.v[x + a][y + b][r]))
  }

  /** Plane across the width axis at p: [a][b] = cell (p, y + a, z + b). */
  function PlaneX(g: Grid, p: nat, y: nat, z: nat, n1: nat, n2: nat): (P: seq<seq<int>>)
    requires g.WellFormed() && p < g.l0 && y + n1 <= g.l1 && z + n2 <= g.l2
    ensures |P| == n1
    ensures forall a :: 0 <= a < n1 ==> (|P[a]| == n2 &&
      forall b :: 0 <= b < n2 ==> P[a][b] == g.v[p][y + a][z + b])
  {
    seq(n1, a requires 0 <= a < n1 => seq(n2, b requires 0 <= b < n2 => g.v[p][y + a][z + b]))
  }

  /** Plane across the depth axis at q: [a][b] = cell (x + a, q, z + b). */
  function PlaneY(g: Grid, x: nat, q: nat, z: nat, n1: nat, n2: nat): (P: seq<seq<int>>)
    requires g.WellFormed() && x + n1 <= g.l0 && q < g.l1 && z + n2 <= g.l2
    ensures |P| == n1
    ensures forall a :: 0 <= a < n1 ==> (|P[a]| == n2 &&
      forall b :: 0 <= b < n2 ==> P[a][b] == g.v[x + a][q][z + b])
  {
    seq(n1, a requires 0 <= a < n1 => seq(n2, b requires 0 <= b < n2 => g.v[x + a][q][z + b]))
  }

  /** Height layer k of a mask: [i][j] over (width, depth). */
  function Layer(m: Mask, k: nat): (F: seq<seq<int>>)
    requires m.WellFormed() && k < m.h
    ensures |F| == m.w
    ensures forall i :: 0 <= i < m.w ==> (|F[i]| == m.d &&
      forall j :: 0 <= j < m.d ==> F[i][j] == m.cells[k][i][j])
  {
    seq(m.w, i requires 0 <= i < m.w => seq(m.d, j requires 0 <= j < m.d => m.cells[k][i][j] as int))
  }

  /** Depth slice j of a mask: [i][k] over (width, height). */
  function DepthFace(m: Mask, j: nat): (F: seq<seq<int>>)
    requires m.WellFormed() && j < m.d
    ensures |F| == m.w
    ensures forall i :: 0 <= i < m.w ==> (|F[i]| == m.h &&
      forall k :: 0 <= k < m.h ==> F[i][k] == m.cells[k][i][j])
  {
    seq(m.w, i requires 0 <= i < m.w => seq(m.h, k requires 0 <= k < m.h => m.cells[k][i][j] as int))
  }

  function Min(a: nat, b: nat): nat
  {
    if a <= b then a else b
  }

  // ---------------------------------------------------------------------------
  // has_support and check_stability

  /** Filled voxels in the bottom layer of a mask. */
  function BaseCount(m: Mask): int
    requires m.WellFormed() && m.h > 0
  {
    Sum2(Layer(m, 0), m.w, m.d)
  }

  /** Bottom-layer voxels of a mask at (x, y, z) that rest on an occupied cell
      (counted by the cell's value). */
  function SupportedCount(g: Grid, x: nat, y: nat, z: nat, m: Mask): int
    requires g.WellFormed() && m.WellFormed() && InBounds(g, x, y, z, m) && z > 0 && m.h > 0
  {
    Dot(PlaneZ(g, x, y, z - 1, m.w, m.d), Layer(m, 0), m.w, m.d)
  }

  /** The mask rests on the floor, or at least 30 % of its bottom layer rests
      on occupied cells; a mask with an empty bottom layer is unsupported. */
  predicate HasSupport(g: Grid, x: nat, y: nat, z: nat, m: Mask)
    requires g.WellFormed() && m.WellFormed() && InBounds(g, x, y, z, m)
    requires z > 0 ==> m.h > 0
  {
    if z == 0 then true
    else
      var base := BaseCount(m);
      var supported := SupportedCount(g, x, y, z, m);
      (if base > 0 then supported as real / base as real else 0.0) >= 0.3
  }

  /** Stability is the same test as support. */
  predicate CheckStability(g: Grid, x: nat, y: nat, z: nat, m: Mask)
    requires g.WellFormed() && m.WellFormed() && InBounds(g, x, y, z, m)
    requires z > 0 ==> m.h > 0
  {
    HasSupport(g, x, y, z, m)
  }

  /** The 30 % rule in integers: off the floor, support holds exactly when the
      bottom layer is non-empty and ten times the supported count is at least
      three times the bottom-layer count. */
  lemma SupportThreshold(g: Grid, x: nat, y: nat, z: nat, m: Mask)
    requires g.WellFormed() && m.WellFormed() && InBounds(g, x, y, z, m)
    requires z > 0 && m.h > 0
    ensures HasSupport(g, x, y, z, m) <==>
      BaseCount(m) > 0 && 10 * SupportedCount(g, x, y, z, m) >= 3 * BaseCount(m)
  {
    var base := BaseCount(m);
    var s := SupportedCount(g, x, y, z, m);
    if base > 0 {
      var ratio := s as real / base as real;
      assert ratio * base as real == s as real;
      if ratio >= 0.3 {
        assert s as real >= 0.3 * base as real;
      }
      if 10 * s >= 3 * base {
        assert s as real >= 0.3 * base as real;
        assert ratio >= 0.3;
      }
    }
  }

  /** On the floor a mask is always supported. */
  lemma FloorSupports(g: Grid, x: nat, y: nat, m: Mask)
    requires g.WellFormed() && m.WellFormed() && InBounds(g, x, y, 0, m)
    ensures HasSupport(g, x, y, 0, m) && CheckStability(g, x, y, 0, m)
  {
  }

  /** Above the floor, a mask over nothing but empty cells is unsupported. */
  lemma FloatingUnsupported(g: Grid, x: nat, y: nat, z: nat, m: Mask)
    requires g.WellFormed() && m.WellFormed() && InBounds(g, x, y, z, m)
    requires z > 0 && m.h > 0
    requires PlaneIn(PlaneZ(g, x, y, z - 1, m.w, m.d), m.w, m.d, 0, 0)
    ensures !HasSupport(g, x, y, z, m)
  {
    DotZero(PlaneZ(g, x, y, z - 1, m.w, m.d), Layer(m, 0), m.w, m.d);
    SupportThreshold(g, x, y, z, m);
  }

  /** A mask whose whole footprint rests on occupied cells of a 0/1 grid is
      supported, provided its bottom layer is non-empty. */
  lemma FullySupported(g: Grid, x: nat, y: nat, z: nat, m: Mask)
    requires g.WellFormed() && m.WellFormed() && InBounds(g, x, y, z, m)
    requires z > 0 && m.h > 0 && BaseCount(m) > 0
    requires PlaneIn(PlaneZ(g, x, y, z - 1, m.w, m.d), m.w, m.d, 1, 1)
    ensures HasSupport(g, x, y, z, m)
  {
    DotFull(PlaneZ(g, x, y, z - 1, m.w, m.d), Layer(m, 0), m.w, m.d);
    SupportThreshold(g, x, y, z, m);
  }

  /** On a 0/1 grid the supported count never exceeds the bottom-layer count. */
  lemma SupportAtMostBase(g: Grid, x: nat, y: nat, z: nat, m: Mask)
    requires g.WellFormed() && m.WellFormed() && InBounds(g, x, y, z, m) && g.Binary()
    requires z > 0 && m.h > 0
    ensures 0 <= SupportedCount(g, x, y, z, m) <= BaseCount(m)
  {
    DotBounds(PlaneZ(g, x, y, z - 1, m.w, m.d), Layer(m, 0), m.w, m.d);
  }

  // ---------------------------------------------------------------------------
  // _calculate_contact

  /** Bottom term: every bottom-layer voxel on the floor, else the supported ones. */
  function BottomContact(g: Grid, x: nat, y: nat, z: nat, m: Mask): int
    requires g.WellFormed() && m.WellFormed() && InBounds(g, x, y, z, m) && m.h > 0
  {
    if z == 0 then BaseCount(m) else SupportedCount(g, x, y, z, m)
  }

  /** Front term: the plane at x - 1 against the mask's bottom layer, clipped
      to their common extents. */
  function FrontContact(g: Grid, x: nat, y: nat, z: nat, m: Mask): int
    requires g.WellFormed() && m.WellFormed() && InBounds(g, x, y, z, m) && m.h > 0
  {
    if x > 0 then
      Dot(PlaneX(g, x - 1, y, z, m.d, m.h), Layer(m, 0), Min(m.d, m.w), Min(m.h, m.d))
    else 0
  }

  /** Back term: the plane at x + w against the mask's top layer, clipped to
      their common extents. */
  function BackContact(g: Grid, x: nat, y: nat, z: nat, m: Mask): int
    requires g.WellFormed() && m.WellFormed() && InBounds(g, x, y, z, m) && m.h > 0
  {
    if x + m.w < g.l0 then
      Dot(PlaneX(g, x + m.w, y, z, m.d, m.h), Layer(m, m.h - 1), Min(m.d, m.w), Min(m.h, m.d))
    else 0
  }

  /** Left term: the plane at y - 1 against the mask's first depth slice. */
  function LeftContact(g: Grid, x: nat, y: nat, z: nat, m: Mask): int
    requires g.WellFormed() && m.WellFormed() && InBounds(g, x, y, z, m) && m.d > 0
  {
    if y > 0 then Dot(PlaneY(g, x, y - 1, z, m.w, m.h), DepthFace(m, 0), m.w, m.h) else 0
  }

  /** Right term: the plane at y + d against the mask's last depth slice. */
  function RightContact(g: Grid, x: nat, y: nat, z: nat, m: Mask): int
    requires g.WellFormed() && m.WellFormed() && InBounds(g, x, y, z, m) && m.d > 0
  {
    if y + m.d < g.l1 then Dot(PlaneY(g, x, y + m.d, z, m.w, m.h), DepthFace(m, m.d - 1), m.w, m.h) else 0
  }

  /** The contact score: bottom, front, back, left and right terms; the top
      face is never counted. */
  function Contact(g: Grid, x: nat, y: nat, z: nat, m: Mask): int
    requires g.WellFormed() && m.WellFormed() && InBounds(g, x, y, z, m) && m.h > 0 && m.d > 0
  {
    BottomContact(g, x, y, z, m) + FrontContact(g, x, y, z, m) + BackContact(g, x, y, z, m) +
    LeftContact(g, x, y, z, m) + RightContact(g, x, y, z, m)
  }

  /** A grid with no negative cell. */
  predicate NonNegative(g: Grid)
    requires g.WellFormed()
  {
    forall p, q, r :: 0 <= p < g.l0 && 0 <= q < g.l1 && 0 <= r < g.l2 ==> 0 <= g.v[p][q][r]
  }

  /** A grid with every cell empty. */
  predicate AllZero(g: Grid)
    requires g.WellFormed()
  {
    forall p, q, r :: 0 <= p < g.l0 && 0 <= q < g.l1 && 0 <= r < g.l2 ==> g.v[p][q][r] == 0
  }

  /** On a grid without negative cells the contact score is non-negative. */
  lemma ContactNonNeg(g: Grid, x: nat, y: nat, z: nat, m: Mask)
    requires g.WellFormed() && m.WellFormed() && InBounds(g, x, y, z, m) && m.h > 0 && m.d > 0
    requires NonNegative(g)
    ensures Contact(g, x, y, z, m) >= 0
  {
    FrontTerm(g, x, y, z, m);
    BackTerm(g, x, y, z, m);
    LeftTerm(g, x, y, z, m);
    RightTerm(g, x, y, z, m);
    if z == 0 {
      BaseNonNeg(m);
    } else {
      DotNonNeg(PlaneZ(g, x, y, z - 1, m.w, m.d), Layer(m, 0), m.w, m.d);
    }
  }

  /** The front term counts cells of the plane in front: it is non-negative on a
      grid without negative cells and zero on an empty grid. */
  lemma FrontTerm(g: Grid, x: nat, y: nat, z: nat, m: Mask)
    requires g.WellFormed() && m.WellFormed() && InBounds(g, x, y, z, m) && m.h > 0 && m.d > 0
    ensures NonNegative(g) ==> FrontContact(g, x, y, z, m) >= 0
    ensures AllZero(g) ==> FrontContact(g, x, y, z, m) == 0
  {
    if x > 0 {
      if NonNegative(g) {
        DotNonNeg(PlaneX(g, x - 1, y, z, m.d, m.h), Layer(m, 0), Min(m.d, m.w), Min(m.h, m.d));
      }
      if AllZero(g) {
        DotZero(PlaneX(g, x - 1, y, z, m.d, m.h), Layer(m, 0), Min(m.d, m.w), Min(m.h, m.d));
      }
    }
  }

  /** The back term counts cells of the plane behind: it is non-negative on a
      grid without negative cells and zero on an empty grid. */
  lemma BackTerm(g: Grid, x: nat, y: nat, z: nat, m: Mask)
    requires g.WellFormed() && m.WellFormed() && InBounds(g, x, y, z, m) && m.h > 0 && m.d > 0
    ensures NonNegative(g) ==> BackContact(g, x, y, z, m) >= 0
    ensures AllZero(g) ==> BackContact(g, x, y, z, m) == 0
  {
    if x + m.w < g.l0 {
      if NonNegative(g) {
        DotNonNeg(PlaneX(g, x + m.w, y, z, m.d, m.h), Layer(m, m.h - 1), Min(m.d, m.w), Min(m.h, m.d));
      }
      if AllZero(g) {
        DotZero(PlaneX(g, x + m.w, y, z, m.d, m.h), Layer(m, m.h - 1), Min(m.d, m.w), Min(m.h, m.d));
      }
    }
  }

  /** The left term counts cells of the plane on the left: it is non-negative on a
      grid without negative cells and zero on an empty grid. */
  lemma LeftTerm(g: Grid, x: nat, y: nat, z: nat, m: Mask)
    requires g.WellFormed() && m.WellFormed() && InBounds(g, x, y, z, m) && m.h > 0 && m.d > 0
    ensures NonNegative(g) ==> LeftContact(g, x, y, z, m) >= 0
    ensures AllZero(g) ==> LeftContact(g, x, y, z, m) == 0
  {
    if y > 0 {
      if NonNegative(g) {
        DotNonNeg(PlaneY(g, x, y - 1, z, m.w, m.h), DepthFace(m, 0), m.w, m.h);
      }
      if AllZero(g) {
        DotZero(PlaneY(g, x, y - 1, z, m.w, m.h), DepthFace(m, 0), m.w, m.h);
      }
    }
  }

  /** The right term counts cells of the plane on the right: it is non-negative on a
      grid without negative cells and zero on an empty grid. */
  lemma RightTerm(g: Grid, x: nat, y: nat, z: nat, m: Mask)
    requires g.WellFormed() && m.WellFormed() && InBounds(g, x, y, z, m) && m.h > 0 && m.d > 0
    ensures NonNegative(g) ==> RightContact(g, x, y, z, m) >= 0
    ensures AllZero(g) ==> RightContact(g, x, y, z, m) == 0
  {
    if y + m.d < g.l1 {
      if NonNegative(g) {
        DotNonNeg(PlaneY(g, x, y + m.d, z, m.w, m.h), DepthFace(m, m.d - 1), m.w, m.h);
      }
      if AllZero(g) {
        DotZero(PlaneY(g, x, y + m.d, z, m.w, m.h), DepthFace(m, m.d - 1), m.w, m.h);
      }
    }
  }

  /** A mask's bottom layer holds a non-negative count. */
  lemma BaseNonNeg(m: Mask)
    requires m.WellFormed() && m.h > 0
    ensures BaseCount(m) >= 0
  {
    var F := Layer(m, 0);
    var ones := seq(m.w, i requires 0 <= i < m.w => seq(m.d, j requires 0 <= j < m.d => 1));
    DotFull(ones, F, m.w, m.d);
    DotNonNeg(ones, F, m.w, m.d);
  }

  /** In an empty grid only the floor touches: the score is the bottom-layer
      count on the floor and zero elsewhere. */
  lemma ContactInEmptyGrid(l0: nat, l1: nat, l2: nat, x: nat, y: nat, z: nat, m: Mask)
    requires m.WellFormed() && InBounds(Zeros(l0, l1, l2), x, y, z, m) && m.h > 0 && m.d > 0
    ensures Contact(Zeros(l0, l1, l2), x, y, z, m) == if z == 0 then BaseCount(m) else 0
  {
    var g := Zeros(l0, l1, l2);
    FrontTerm(g, x, y, z, m);
    BackTerm(g, x, y, z, m);
    LeftTerm(g, x, y, z, m);
    RightTerm(g, x, y, z, m);
    if z > 0 {
      DotZero(PlaneZ(g, x, y, z - 1, m.w, m.d), Layer(m, 0), m.w, m.d);
    }
  }

  /** A side term is added only when the neighbouring slab lies inside the
      grid: against a wall of the grid it is zero. */
  lemma SideTermsAtWalls(g: Grid, x: nat, y: nat, z: nat, m: Mask)
    requires g.WellFormed() && m.WellFormed() && InBounds(g, x, y, z, m) && m.h > 0 && m.d > 0
    ensures x == 0 ==> FrontContact(g, x, y, z, m) == 0
    ensures x + m.w == g.l0 ==> BackContact(g, x, y, z, m) == 0
    ensures y == 0 ==> LeftContact(g, x, y, z, m) == 0
    ensures y + m.d == g.l1 ==> RightContact(g, x, y, z, m) == 0
  {
  }

  /** Two grids of the same extents whose cells agree below height top. */
  predicate AgreeBelow(g: Grid, g': Grid, top: nat)
    requires g.WellFormed() && g'.WellFormed()
  {
    g.l0 == g'.l0 && g.l1 == g'.l1 && g.l2 == g'.l2 &&
    forall p, q, r :: 0 <= p < g.l0 && 0 <= q < g.l1 && 0 <= r < g.l2 && r < top ==> g.v[p][q][r] == g'.v[p][q][r]
  }

  /** A plane lying wholly below height top reads the same in two grids
      that agree below top. */
  lemma PlaneZAgree(g: Grid, g': Grid, x: nat, y: nat, r: nat, n1: nat, n2: nat, top: nat)
    requires g.WellFormed() && g'.WellFormed() && AgreeBelow(g, g', top)
    requires x + n1 <= g.l0 && y + n2 <= g.l1 && r < g.l2 && r < top
    ensures PlaneZ(g, x, y, r, n1, n2) == PlaneZ(g', x, y, r, n1, n2)
  {
    var P, Q := PlaneZ(g, x, y, r, n1, n2), PlaneZ(g', x, y, r, n1, n2);
    forall a | 0 <= a < n1 ensures P[a] == Q[a] {
    }
  }

  lemma PlaneXAgree(g: Grid, g': Grid, p: nat, y: nat, z: nat, n1: nat, n2: nat, top: nat)
    requires g.WellFormed() && g'.WellFormed() && AgreeBelow(g, g', top)
    requires p < g.l0 && y + n1 <= g.l1 && z + n2 <= g.l2 && z + n2 <= top
    ensures PlaneX(g, p, y, z, n1, n2) == PlaneX(g', p, y, z, n1, n2)
  {
    var P, Q := PlaneX(g, p, y, z, n1, n2), PlaneX(g', p, y, z, n1, n2);
    forall a | 0 <= a < n1 ensures P[a] == Q[a] {
    }
  }

  lemma PlaneYAgree(g: Grid, g': Grid, x: nat, q: nat, z: nat, n1: nat, n2: nat, top: nat)
    requires g.WellFormed() && g'.WellFormed() && AgreeBelow(g, g', top)
    requires x + n1 <= g.l0 && q < g.l1 && z + n2 <= g.l2 && z + n2 <= top
    ensures PlaneY(g, x, q, z, n1, n2) == PlaneY(g', x, q, z, n1, n2)
  {
    var P, Q := PlaneY(g, x, q, z, n1, n2), PlaneY(g', x, q, z, n1, n2);
    forall a | 0 <= a < n1 ensures P[a] == Q[a] {
    }
  }

  /** Each contact term reads only cells below height z + h. */
  lemma BottomAgree(g: Grid, g': Grid, x: nat, y: nat, z: nat, m: Mask)
    requires g.WellFormed() && g'.WellFormed() && m.WellFormed() && InBounds(g, x, y, z, m) && m.h > 0
    requires AgreeBelow(g, g', z + m.h)
    ensures InBounds(g', x, y, z, m) && BottomContact(g, x, y, z, m) == BottomContact(g', x, y, z, m)
  {
    if z > 0 {
      PlaneZAgree(g, g', x, y, z - 1, m.w, m.d, z + m.h);
    }
  }

  lemma FrontAgree(g: Grid, g': Grid, x: nat, y: nat, z: nat, m: Mask)
    requires g.WellFormed() && g'.WellFormed() && m.WellFormed() && InBounds(g, x, y, z, m) && m.h > 0
    requires AgreeBelow(g, g', z + m.h)
    ensures InBounds(g', x, y, z, m) && FrontContact(g, x, y, z, m) == FrontContact(g', x, y, z, m)
  {
    if x > 0 {
      PlaneXAgree(g, g', x - 1, y, z, m.d, m.h, z + m.h);
    }
  }

  lemma BackAgree(g: Grid, g': Grid, x: nat, y: nat, z: nat, m: Mask)
    requires g.WellFormed() && g'.WellFormed() && m.WellFormed() && InBounds(g, x, y, z, m) && m.h > 0
    requires AgreeBelow(g, g', z + m.h)
    ensures InBounds(g', x, y, z, m) && BackContact(g, x, y, z, m) == BackContact(g', x, y, z, m)
  {
    if x + m.w < g.l0 {
      PlaneXAgree(g, g', x + m.w, y, z, m.d, m.h, z + m.h);
    }
  }

  lemma LeftAgree(g: Grid, g': Grid, x: nat, y: nat, z: nat, m: Mask)
    requires g.WellFormed() && g'.WellFormed() && m.WellFormed() && InBounds(g, x, y, z, m) && m.d > 0
    requires AgreeBelow(g, g', z + m.h)
    ensures InBounds(g', x, y, z, m) && LeftContact(g, x, y, z, m) == LeftContact(g', x, y, z, m)
  {
    if y > 0 {
      PlaneYAgree(g, g', x, y - 1, z, m.w, m.h, z + m.h);
    }
  }

  lemma RightAgree(g: Grid, g': Grid, x: nat, y: nat, z: nat, m: Mask)
    requires g.WellFormed() && g'.WellFormed() && m.WellFormed() && InBounds(g, x, y, z, m) && m.d > 0
    requires AgreeBelow(g, g', z + m.h)
    ensures InBounds(g', x, y, z, m) && RightContact(g, x, y, z, m) == RightContact(g', x, y, z, m)
  {
    if y + m.d < g.l1 {
      PlaneYAgree(g, g', x, y + m.d, z, m.w, m.h, z + m.h);
    }
  }

  /** The top face never counts: the cells at and above height z + h, the
      layer resting on the mask included, do not change the contact score. */
  lemma TopFaceIgnored(g: Grid, g': Grid, x: nat, y: nat, z: nat, m: Mask)
    requires g.WellFormed() && g'.WellFormed() && m.WellFormed() && InBounds(g, x, y, z, m) && m.h > 0 && m.d > 0
    requires AgreeBelow(g, g', z + m.h)
    ensures InBounds(g', x, y, z, m) && Contact(g, x, y, z, m) == Contact(g', x, y, z, m)
  {
    BottomAgree(g, g', x, y, z, m);
    FrontAgree(g, g', x, y, z, m);
    BackAgree(g, g', x, y, z, m);
    LeftAgree(g, g', x, y, z, m);
    RightAgree(g, g', x, y, z, m);
  }
}

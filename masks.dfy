/** Voxel masks: the 0/1 arrays that describe the volume an item occupies.
    A mask has axes (height, width, depth); its extents are kept separately
    from its cells because an array of shape (0, w, d) still has width w. */
module Masks {

  /** One voxel of a mask: empty (0) or filled (1). */
  type Bit = b: int | 0 <= b <= 1

  /** A voxel position (height index, width index, depth index) in a mask. */
  type Cell = (int, int, int)

  datatype Mask = Mask(h: nat, w: nat, d: nat, cells: seq<seq<seq<Bit>>>)
  {
    /** The cell array has exactly the declared extents. */
    predicate WellFormed()
    {
      |cells| == h &&
      forall i :: 0 <= i < h ==>
        |cells[i]| == w && forall j :: 0 <= j < w ==> |cells[i][j]| == d
    }

    /** Voxel (i, j, k) lies inside the mask and is filled. */
    predicate Filled(i: int, j: int, k: int)
      requires WellFormed()
    {
      0 <= i < h && 0 <= j < w && 0 <= k < d && cells[i][j][k] == 1
    }
  }

  /** The set of filled voxels. */
  function Occupied(m: Mask): (s: set<Cell>)
    requires m.WellFormed()
    ensures forall c :: c in s <==> m.Filled(c.0, c.1, c.2)
  {
    set i, j, k | 0 <= i < m.h && 0 <= j < m.w && 0 <= k < m.d && m.cells[i][j][k] == 1 :: (i, j, k)
  }

  /** The number of filled voxels (what a sum over a 0/1 array yields). */
  function Volume(m: Mask): nat
    requires m.WellFormed()
  {
    |Occupied(m)|
  }

  /** A mask is solid enough to be placed: it has at least one filled voxel. */
  predicate NonEmpty(m: Mask)
  {
    m.WellFormed() && exists i, j, k :: 0 <= i < m.h && 0 <= j < m.w && 0 <= k < m.d && m.Filled(i, j, k)
  }

  /** A mask has a filled voxel exactly when its volume is positive. */
  lemma NonEmptyVolume(m: Mask)
    requires m.WellFormed()
    ensures NonEmpty(m) <==> Volume(m) > 0
  {
    if NonEmpty(m) {
      var i, j, k :| m.Filled(i, j, k);
      assert (i, j, k) in Occupied(m);
    }
    if Volume(m) > 0 {
      var c :| c in Occupied(m);
      assert m.Filled(c.0, c.1, c.2);
    }
  }

  /** A mask with a filled voxel has positive extents on every axis. */
  lemma NonEmptyExtents(m: Mask)
    requires NonEmpty(m)
    ensures m.h > 0 && m.w > 0 && m.d > 0
  {
    var i, j, k :| m.Filled(i, j, k);
  }

  /** An all-ones block of the given extents. */
  function Block(h: nat, w: nat, d: nat): (m: Mask)
    ensures m.WellFormed() && m.h == h && m.w == w && m.d == d
    ensures forall i, j, k :: 0 <= i < h && 0 <= j < w && 0 <= k < d ==> m.cells[i][j][k] == 1
  {
    Mask(h, w, d, seq(h, _ => seq(w, _ => seq(d, _ => 1))))
  }

  /** A block with positive extents has a filled voxel. */
  lemma BlockNonEmpty(h: nat, w: nat, d: nat)
    requires h > 0 && w > 0 && d > 0
    ensures NonEmpty(Block(h, w, d))
  {
    assert Block(h, w, d).Filled(0, 0, 0);
  }

  /** The sample L-shaped mask of extents (2, 2, 2) with four filled voxels;
      the grid size argument is accepted and not used. */
  function CreateLShape(gridSize: int): (m: Mask)
    ensures m.WellFormed() && m.h == 2 && m.w == 2 && m.d == 2
  {
    Mask(2, 2, 2, [[[1, 0], [1, 0]], [[1, 1], [0, 0]]])
  }

  lemma LShapeVolume(gridSize: int)
    ensures Occupied(CreateLShape(gridSize)) == {(0, 0, 0), (0, 1, 0), (1, 0, 0), (1, 0, 1)}
    ensures Volume(CreateLShape(gridSize)) == 4
  {
    var m := CreateLShape(gridSize);
    var expected: set<Cell> := {(0, 0, 0), (0, 1, 0), (1, 0, 0), (1, 0, 1)};
    forall c | c in Occupied(m) ensures c in expected {
      assert m.Filled(c.0, c.1, c.2);
    }
    forall c | c in expected ensures c in Occupied(m) {
      assert m.Filled(c.0, c.1, c.2);
    }
    assert Occupied(m) == expected;
  }

  // ---------------------------------------------------------------------------
  // Flattening (row-major order, as an array's flatten yields)

  function Concat2(rows: seq<seq<Bit>>): seq<Bit>
  {
    if rows == [] then [] else rows[0] + Concat2(rows[1..])
  }

  function Concat3(layers: seq<seq<seq<Bit>>>): seq<Bit>
  {
    if layers == [] then [] else Concat2(layers[0]) + Concat3(layers[1..])
  }

  /** The cells in row-major order; the extents are not part of it. */
  function Flatten(m: Mask): seq<Bit>
  {
    Concat3(m.cells)
  }

  /** Flattening forgets the extents: a 1x1x2 bar and a 2x1x1 bar flatten alike. */
  lemma FlattenForgetsExtents()
    ensures Flatten(Block(1, 1, 2)) == Flatten(Block(2, 1, 1)) == [1, 1]
    ensures Block(1, 1, 2) != Block(2, 1, 1)
  {
    var a := Block(1, 1, 2);
    var b := Block(2, 1, 1);
    assert a.cells[0][0] == [1, 1];
    assert a.cells[0] == [[1, 1]];
    assert a.cells == [[[1, 1]]];
    assert b.cells[0][0] == [1] && b.cells[1][0] == [1];
    assert b.cells[0] == [[1]] && b.cells[1] == [[1]];
    assert b.cells == [[[1]], [[1]]];
  }

  // ---------------------------------------------------------------------------
  // Cardinality through a bijection

  /** An injective map of S onto T shows |S| == |T|. */
  lemma {:induction false} BijectionCard(S: set<Cell>, T: set<Cell>, f: Cell -> Cell)
    requires forall c :: c in S ==> f(c) in T
    requires forall c, e :: c in S && e in S && f(c) == f(e) ==> c == e
    requires forall t :: t in T ==> exists c :: c in S && f(c) == t
    ensures |S| == |T|
    decreases |S|
  {
    if S == {} {
      assert T == {};
    } else {
      var a :| a in S;
      var S' := S - {a};
      var T' := T - {f(a)};
      forall t | t in T' ensures exists c :: c in S' && f(c) == t {
        var c :| c in S && f(c) == t;
        assert c in S';
      }
      BijectionCard(S', T', f);
    }
  }

  // ---------------------------------------------------------------------------
  // Slice flags: whether a slice along an axis holds a filled voxel

  /** For each depth index, whether that depth slice holds a filled voxel. */
  function FlagsD(m: Mask): (f: seq<bool>)
    requires m.WellFormed()
    ensures |f| == m.d
    ensures forall k :: 0 <= k < m.d ==>
      (f[k] <==> exists i, j :: 0 <= i < m.h && 0 <= j < m.w && m.cells[i][j][k] == 1)
  {
    seq(m.d, k requires 0 <= k < m.d =>
      exists i, j :: 0 <= i < m.h && 0 <= j < m.w && m.cells[i][j][k] == 1)
  }

  /** For each width index, whether that width slice holds a filled voxel. */
  function FlagsW(m: Mask): (f: seq<bool>)
    requires m.WellFormed()
    ensures |f| == m.w
    ensures forall j :: 0 <= j < m.w ==>
      (f[j] <==> exists i, k :: 0 <= i < m.h && 0 <= k < m.d && m.cells[i][j][k] == 1)
  {
    seq(m.w, j requires 0 <= j < m.w =>
      exists i, k :: 0 <= i < m.h && 0 <= k < m.d && m.cells[i][j][k] == 1)
  }

  /** For each height index, whether that height layer holds a filled voxel. */
  function FlagsH(m: Mask): (f: seq<bool>)
    requires m.WellFormed()
    ensures |f| == m.h
    ensures forall i :: 0 <= i < m.h ==>
      (f[i] <==> exists j, k :: 0 <= j < m.w && 0 <= k < m.d && m.cells[i][j][k] == 1)
  {
    seq(m.h, i requires 0 <= i < m.h =>
      exists j, k :: 0 <= j < m.w && 0 <= k < m.d && m.cells[i][j][k] == 1)
  }

  /** No slice along any axis is empty. */
  predicate NoEmptySlice(m: Mask)
    requires m.WellFormed()
  {
    (forall k :: 0 <= k < m.d ==> FlagsD(m)[k]) &&
    (forall j :: 0 <= j < m.w ==> FlagsW(m)[j]) &&
    (forall i :: 0 <= i < m.h ==> FlagsH(m)[i])
  }

  /** The indices where f holds, in increasing order (boolean-mask indexing). */
  function Kept(f: seq<bool>): (ks: seq<nat>)
    ensures |ks| <= |f|
    ensures forall t :: 0 <= t < |ks| ==> ks[t] < |f| && f[ks[t]]
    ensures forall t, u :: 0 <= t < u < |ks| ==> ks[t] < ks[u]
    ensures forall k :: 0 <= k < |f| && f[k] ==> k in ks
    decreases |f|
  {
    if f == [] then []
    else
      var n := |f| - 1;
      var rest := Kept(f[..n]);
      assert forall k :: 0 <= k < n && f[k] ==> f[..n][k];
      rest + (if f[n] then [n] else [])
  }

  /** When every flag holds, every index is kept, in place. */
  lemma {:induction false} KeptAll(f: seq<bool>)
    requires forall k :: 0 <= k < |f| ==> f[k]
    ensures |Kept(f)| == |f| && forall t :: 0 <= t < |f| ==> Kept(f)[t] == t
    decreases |f|
  {
    if f != [] {
      var n := |f| - 1;
      KeptAll(f[..n]);
    }
  }

  /** When no flag holds, nothing is kept. */
  lemma {:induction false} KeptNone(f: seq<bool>)
    requires forall k :: 0 <= k < |f| ==> !f[k]
    ensures Kept(f) == []
    decreases |f|
  {
    if f != [] {
      var n := |f| - 1;
      KeptNone(f[..n]);
    }
  }

  /** Kept indices are distinct. */
  lemma KeptDistinct(f: seq<bool>, t: int, u: int)
    requires 0 <= t < |Kept(f)| && 0 <= u < |Kept(f)| && Kept(f)[t] == Kept(f)[u]
    ensures t == u
  {
  }

  // ---------------------------------------------------------------------------
  // Trimming: drop every empty slice, depth first, then width, then height

  function TrimD(m: Mask): (r: Mask)
    requires m.WellFormed()
    ensures r.WellFormed() && r.h == m.h && r.w == m.w && r.d == |Kept(FlagsD(m))|
    ensures var ks := Kept(FlagsD(m));
      forall i, j, t :: 0 <= i < r.h && 0 <= j < r.w && 0 <= t < r.d ==> r.cells[i][j][t] == m.cells[i][j][ks[t]]
  {
    var ks := Kept(FlagsD(m));
    Mask(m.h, m.w, |ks|,
      seq(m.h, i requires 0 <= i < m.h =>
        seq(m.w, j requires 0 <= j < m.w =>
          seq(|ks|, t requires 0 <= t < |ks| => m.cells[i][j][ks[t]]))))
  }

  function TrimW(m: Mask): (r: Mask)
    requires m.WellFormed()
    ensures r.WellFormed() && r.h == m.h && r.w == |Kept(FlagsW(m))| && r.d == m.d
    ensures var ks := Kept(FlagsW(m));
      forall i, t, k :: 0 <= i < r.h && 0 <= t < r.w && 0 <= k < r.d ==> r.cells[i][t][k] == m.cells[i][ks[t]][k]
  {
    var ks := Kept(FlagsW(m));
    Mask(m.h, |ks|, m.d,
      seq(m.h, i requires 0 <= i < m.h =>
        seq(|ks|, t requires 0 <= t < |ks| => m.cells[i][ks[t]])))
  }

  function TrimH(m: Mask): (r: Mask)
    requires m.WellFormed()
    ensures r.WellFormed() && r.h == |Kept(FlagsH(m))| && r.w == m.w && r.d == m.d
    ensures var ks := Kept(FlagsH(m));
      forall t, j, k :: 0 <= t < r.h && 0 <= j < r.w && 0 <= k < r.d ==> r.cells[t][j][k] == m.cells[ks[t]][j][k]
  {
    var ks := Kept(FlagsH(m));
    Mask(|ks|, m.w, m.d, seq(|ks|, t requires 0 <= t < |ks| => m.cells[ks[t]]))
  }

  /** Cut a mask down to its filled part by removing all-zero slices on each axis. */
  function Trim(m: Mask): (r: Mask)
    requires m.WellFormed()
    ensures r.WellFormed()
  {
    TrimH(TrimW(TrimD(m)))
  }

  // ---------------------------------------------------------------------------
  // Quarter turns (one turn of rot90 about an axis pair)

  /** One turn in the (height, width) plane: result [i][j][k] = input [j][w-1-i][k]. */
  function TurnHW(m: Mask): (r: Mask)
    requires m.WellFormed()
    ensures r.WellFormed() && r.h == m.w && r.w == m.h && r.d == m.d
    ensures forall i, j, k :: 0 <= i < r.h && 0 <= j < r.w && 0 <= k < r.d ==>
      r.cells[i][j][k] == m.cells[j][m.w - 1 - i][k]
  {
    Mask(m.w, m.h, m.d,
      seq(m.w, i requires 0 <= i < m.w =>
        seq(m.h, j requires 0 <= j < m.h =>
          seq(m.d, k requires 0 <= k < m.d => m.cells[j][m.w - 1 - i][k]))))
  }

  /** One turn in the (height, depth) plane: result [i][j][k] = input [k][j][d-1-i]. */
  function TurnHD(m: Mask): (r: Mask)
    requires m.WellFormed()
    ensures r.WellFormed() && r.h == m.d && r.w == m.w && r.d == m.h
    ensures forall i, j, k :: 0 <= i < r.h && 0 <= j < r.w && 0 <= k < r.d ==>
      r.cells[i][j][k] == m.cells[k][j][m.d - 1 - i]
  {
    Mask(m.d, m.w, m.h,
      seq(m.d, i requires 0 <= i < m.d =>
        seq(m.w, j requires 0 <= j < m.w =>
          seq(m.h, k requires 0 <= k < m.h => m.cells[k][j][m.d - 1 - i]))))
  }

  /** One turn in the (width, depth) plane: result [i][j][k] = input [i][k][d-1-j]. */
  function TurnWD(m: Mask): (r: Mask)
    requires m.WellFormed()
    ensures r.WellFormed() && r.h == m.h && r.w == m.d && r.d == m.w
    ensures forall i, j, k :: 0 <= i < r.h && 0 <= j < r.w && 0 <= k < r.d ==>
      r.cells[i][j][k] == m.cells[i][k][m.d - 1 - j]
  {
    Mask(m.h, m.d, m.w,
      seq(m.h, i requires 0 <= i < m.h =>
        seq(m.d, j requires 0 <= j < m.d =>
          seq(m.w, k requires 0 <= k < m.w => m.cells[i][k][m.d - 1 - j]))))
  }

  // ---------------------------------------------------------------------------
  // Quarter turns keep the number of filled voxels

  /** Where voxel c of m lands after one (height, width) turn, and where voxel t
      of the turned mask comes from. */
  function HWImage(m: Mask, c: Cell): Cell { (m.w - 1 - c.1, c.0, c.2) }
  function HWSource(m: Mask, t: Cell): Cell { (t.1, m.w - 1 - t.0, t.2) }

  lemma TurnHWForth(m: Mask, c: Cell)
    requires m.WellFormed() && c in Occupied(m)
    ensures HWImage(m, c) in Occupied(TurnHW(m))
  {
    var r, t := TurnHW(m), HWImage(m, c);
    assert r.cells[t.0][t.1][t.2] == m.cells[c.0][c.1][c.2];
  }

  lemma TurnHWBack(m: Mask, t: Cell)
    requires m.WellFormed() && t in Occupied(TurnHW(m))
    ensures HWSource(m, t) in Occupied(m) && HWImage(m, HWSource(m, t)) == t
  {
    var r, c := TurnHW(m), HWSource(m, t);
    assert r.cells[t.0][t.1][t.2] == m.cells[c.0][c.1][c.2];
  }

  lemma HWImageInjective(m: Mask, c: Cell, e: Cell)
    requires HWImage(m, c) == HWImage(m, e)
    ensures c == e
  {
  }

  lemma TurnHWVolume(m: Mask)
    requires m.WellFormed()
    ensures Volume(TurnHW(m)) == Volume(m)
  {
    var r := TurnHW(m);
    var f := (c: Cell) => HWImage(m, c);
    forall c | c in Occupied(m) ensures f(c) in Occupied(r) {
      TurnHWForth(m, c);
    }
    forall t | t in Occupied(r) ensures exists c :: c in Occupied(m) && f(c) == t {
      TurnHWBack(m, t);
      assert f(HWSource(m, t)) == t;
    }
    forall c, e | c in Occupied(m) && e in Occupied(m) && f(c) == f(e) ensures c == e {
      HWImageInjective(m, c, e);
    }
    BijectionCard(Occupied(m), Occupied(r), f);
  }

  /** Where voxel c of m lands after one (height, depth) turn, and where voxel t
      of the turned mask comes from. */
  function HDImage(m: Mask, c: Cell): Cell { (m.d - 1 - c.2, c.1, c.0) }
  function HDSource(m: Mask, t: Cell): Cell { (t.2, t.1, m.d - 1 - t.0) }

  lemma TurnHDForth(m: Mask, c: Cell)
    requires m.WellFormed() && c in Occupied(m)
    ensures HDImage(m, c) in Occupied(TurnHD(m))
  {
    var r, t := TurnHD(m), HDImage(m, c);
    assert r.cells[t.0][t.1][t.2] == m.cells[c.0][c.1][c.2];
  }

  lemma TurnHDBack(m: Mask, t: Cell)
    requires m.WellFormed() && t in Occupied(TurnHD(m))
    ensures HDSource(m, t) in Occupied(m) && HDImage(m, HDSource(m, t)) == t
  {
    var r, c := TurnHD(m), HDSource(m, t);
    assert r.cells[t.0][t.1][t.2] == m.cells[c.0][c.1][c.2];
  }

  lemma HDImageInjective(m: Mask, c: Cell, e: Cell)
    requires HDImage(m, c) == HDImage(m, e)
    ensures c == e
  {
  }

  lemma TurnHDVolume(m: Mask)
    requires m.WellFormed()
    ensures Volume(TurnHD(m)) == Volume(m)
  {
    var r := TurnHD(m);
    var f := (c: Cell) => HDImage(m, c);
    forall c | c in Occupied(m) ensures f(c) in Occupied(r) {
      TurnHDForth(m, c);
    }
    forall t | t in Occupied(r) ensures exists c :: c in Occupied(m) && f(c) == t {
      TurnHDBack(m, t);
      assert f(HDSource(m, t)) == t;
    }
    forall c, e | c in Occupied(m) && e in Occupied(m) && f(c) == f(e) ensures c == e {
      HDImageInjective(m, c, e);
    }
    BijectionCard(Occupied(m), Occupied(r), f);
  }

  /** Where voxel c of m lands after one (width, depth) turn, and where voxel t
      of the turned mask comes from. */
  function WDImage(m: Mask, c: Cell): Cell { (c.0, m.d - 1 - c.2, c.1) }
  function WDSource(m: Mask, t: Cell): Cell { (t.0, t.2, m.d - 1 - t.1) }

  lemma TurnWDForth(m: Mask, c: Cell)
    requires m.WellFormed() && c in Occupied(m)
    ensures WDImage(m, c) in Occupied(TurnWD(m))
  {
    var r, t := TurnWD(m), WDImage(m, c);
    assert r.cells[t.0][t.1][t.2] == m.cells[c.0][c.1][c.2];
  }

  lemma TurnWDBack(m: Mask, t: Cell)
    requires m.WellFormed() && t in Occupied(TurnWD(m))
    ensures WDSource(m, t) in Occupied(m) && WDImage(m, WDSource(m, t)) == t
  {
    var r, c := TurnWD(m), WDSource(m, t);
    assert r.cells[t.0][t.1][t.2] == m.cells[c.0][c.1][c.2];
  }

  lemma WDImageInjective(m: Mask, c: Cell, e: Cell)
    requires WDImage(m, c) == WDImage(m, e)
    ensures c == e
  {
  }

  lemma TurnWDVolume(m: Mask)
    requires m.WellFormed()
    ensures Volume(TurnWD(m)) == Volume(m)
  {
    var r := TurnWD(m);
    var f := (c: Cell) => WDImage(m, c);
    forall c | c in Occupied(m) ensures f(c) in Occupied(r) {
      TurnWDForth(m, c);
    }
    forall t | t in Occupied(r) ensures exists c :: c in Occupied(m) && f(c) == t {
      TurnWDBack(m, t);
      assert f(WDSource(m, t)) == t;
    }
    forall c, e | c in Occupied(m) && e in Occupied(m) && f(c) == f(e) ensures c == e {
      WDImageInjective(m, c, e);
    }
    BijectionCard(Occupied(m), Occupied(r), f);
  }

  // ---------------------------------------------------------------------------
  // Each trimming step keeps the filled voxels and empties no other slice

  /** The kept index at position t; 0 outside the kept list. */
  function ShiftIndex(ks: seq<nat>, t: int): int
  {
    if 0 <= t < |ks| then ks[t] else 0
  }

  /** Every filled voxel of the D-trimmed mask comes from a filled voxel. */
  lemma TrimDInto(m: Mask)
    requires m.WellFormed()
    ensures forall c :: c in Occupied(TrimD(m)) ==> (c.0, c.1, ShiftIndex(Kept(FlagsD(m)), c.2)) in Occupied(m)
  {
    var r, ks := TrimD(m), Kept(FlagsD(m));
    forall c | c in Occupied(r) ensures (c.0, c.1, ShiftIndex(ks, c.2)) in Occupied(m) {
      assert r.cells[c.0][c.1][c.2] == m.cells[c.0][c.1][ks[c.2]];
    }
  }

  /** Every filled voxel survives D-trimming. */
  lemma TrimDOnto(m: Mask)
    requires m.WellFormed()
    ensures forall t :: t in Occupied(m) ==>
      exists c :: c in Occupied(TrimD(m)) && (c.0, c.1, ShiftIndex(Kept(FlagsD(m)), c.2)) == t
  {
    var r, ks := TrimD(m), Kept(FlagsD(m));
    forall t | t in Occupied(m) ensures exists c :: c in Occupied(r) && (c.0, c.1, ShiftIndex(ks, c.2)) == t {
      assert FlagsD(m)[t.2];
      var u :| 0 <= u < |ks| && ks[u] == t.2;
      assert r.cells[t.0][t.1][u] == m.cells[t.0][t.1][t.2];
      var c := (t.0, t.1, u);
      assert c in Occupied(r) && (c.0, c.1, ShiftIndex(ks, c.2)) == t;
    }
  }

  lemma TrimDVolume(m: Mask)
    requires m.WellFormed()
    ensures Volume(TrimD(m)) == Volume(m)
  {
    var r, ks := TrimD(m), Kept(FlagsD(m));
    var f := (c: Cell) => (c.0, c.1, ShiftIndex(ks, c.2));
    TrimDInto(m);
    TrimDOnto(m);
    forall c, e | c in Occupied(r) && e in Occupied(r) && f(c) == f(e) ensures c == e {
      KeptDistinct(FlagsD(m), c.2, e.2);
    }
    BijectionCard(Occupied(r), Occupied(m), f);
  }

  /** Every filled voxel of the W-trimmed mask comes from a filled voxel. */
  lemma TrimWInto(m: Mask)
    requires m.WellFormed()
    ensures forall c :: c in Occupied(TrimW(m)) ==> (c.0, ShiftIndex(Kept(FlagsW(m)), c.1), c.2) in Occupied(m)
  {
    var r, ks := TrimW(m), Kept(FlagsW(m));
    forall c | c in Occupied(r) ensures (c.0, ShiftIndex(ks, c.1), c.2) in Occupied(m) {
      assert r.cells[c.0][c.1][c.2] == m.cells[c.0][ks[c.1]][c.2];
    }
  }

  /** Every filled voxel survives W-trimming. */
  lemma TrimWOnto(m: Mask)
    requires m.WellFormed()
    ensures forall t :: t in Occupied(m) ==>
      exists c :: c in Occupied(TrimW(m)) && (c.0, ShiftIndex(Kept(FlagsW(m)), c.1), c.2) == t
  {
    var r, ks := TrimW(m), Kept(FlagsW(m));
    forall t | t in Occupied(m) ensures exists c :: c in Occupied(r) && (c.0, ShiftIndex(ks, c.1), c.2) == t {
      assert FlagsW(m)[t.1];
      var u :| 0 <= u < |ks| && ks[u] == t.1;
      assert r.cells[t.0][u][t.2] == m.cells[t.0][t.1][t.2];
      var c := (t.0, u, t.2);
      assert c in Occupied(r) && (c.0, ShiftIndex(ks, c.1), c.2) == t;
    }
  }

  lemma TrimWVolume(m: Mask)
    requires m.WellFormed()
    ensures Volume(TrimW(m)) == Volume(m)
  {
    var r, ks := TrimW(m), Kept(FlagsW(m));
    var f := (c: Cell) => (c.0, ShiftIndex(ks, c.1), c.2);
    TrimWInto(m);
    TrimWOnto(m);
    forall c, e | c in Occupied(r) && e in Occupied(r) && f(c) == f(e) ensures c == e {
      KeptDistinct(FlagsW(m), c.1, e.1);
    }
    BijectionCard(Occupied(r), Occupied(m), f);
  }

  /** Every filled voxel of the H-trimmed mask comes from a filled voxel. */
  lemma TrimHInto(m: Mask)
    requires m.WellFormed()
    ensures forall c :: c in Occupied(TrimH(m)) ==> (ShiftIndex(Kept(FlagsH(m)), c.0), c.1, c.2) in Occupied(m)
  {
    var r, ks := TrimH(m), Kept(FlagsH(m));
    forall c | c in Occupied(r) ensures (ShiftIndex(ks, c.0), c.1, c.2) in Occupied(m) {
      assert r.cells[c.0][c.1][c.2] == m.cells[ks[c.0]][c.1][c.2];
    }
  }

  /** Every filled voxel survives H-trimming. */
  lemma TrimHOnto(m: Mask)
    requires m.WellFormed()
    ensures forall t :: t in Occupied(m) ==>
      exists c :: c in Occupied(TrimH(m)) && (ShiftIndex(Kept(FlagsH(m)), c.0), c.1, c.2) == t
  {
    var r, ks := TrimH(m), Kept(FlagsH(m));
    forall t | t in Occupied(m) ensures exists c :: c in Occupied(r) && (ShiftIndex(ks, c.0), c.1, c.2) == t {
      assert FlagsH(m)[t.0];
      var u :| 0 <= u < |ks| && ks[u] == t.0;
      assert r.cells[u][t.1][t.2] == m.cells[t.0][t.1][t.2];
      var c := (u, t.1, t.2);
      assert c in Occupied(r) && (ShiftIndex(ks, c.0), c.1, c.2) == t;
    }
  }

  lemma TrimHVolume(m: Mask)
    requires m.WellFormed()
    ensures Volume(TrimH(m)) == Volume(m)
  {
    var r, ks := TrimH(m), Kept(FlagsH(m));
    var f := (c: Cell) => (ShiftIndex(ks, c.0), c.1, c.2);
    TrimHInto(m);
    TrimHOnto(m);
    forall c, e | c in Occupied(r) && e in Occupied(r) && f(c) == f(e) ensures c == e {
      KeptDistinct(FlagsH(m), c.0, e.0);
    }
    BijectionCard(Occupied(r), Occupied(m), f);
  }

  lemma TrimDFullD(m: Mask)
    requires m.WellFormed()
    ensures forall t :: 0 <= t < TrimD(m).d ==> FlagsD(TrimD(m))[t]
  {
    var r := TrimD(m);
    var ks := Kept(FlagsD(m));
    forall t | 0 <= t < r.d ensures FlagsD(r)[t] {
      assert FlagsD(m)[ks[t]];
      var i, j :| 0 <= i < m.h && 0 <= j < m.w && m.cells[i][j][ks[t]] == 1;
      assert r.cells[i][j][t] == 1;
    }
  }

  lemma TrimDKeepsW(m: Mask)
    requires m.WellFormed()
    ensures FlagsW(TrimD(m)) == FlagsW(m)
  {
    var r := TrimD(m);
    var ks := Kept(FlagsD(m));
    forall j | 0 <= j < m.w ensures FlagsW(r)[j] == FlagsW(m)[j] {
      if FlagsW(m)[j] {
        var i, k :| 0 <= i < m.h && 0 <= k < m.d && m.cells[i][j][k] == 1;
        assert FlagsD(m)[k];
        var u :| 0 <= u < |ks| && ks[u] == k;
        assert r.cells[i][j][u] == 1;
      }
    }
  }

  lemma TrimDKeepsH(m: Mask)
    requires m.WellFormed()
    ensures FlagsH(TrimD(m)) == FlagsH(m)
  {
    var r := TrimD(m);
    var ks := Kept(FlagsD(m));
    forall i | 0 <= i < m.h ensures FlagsH(r)[i] == FlagsH(m)[i] {
      if FlagsH(m)[i] {
        var j, k :| 0 <= j < m.w && 0 <= k < m.d && m.cells[i][j][k] == 1;
        assert FlagsD(m)[k];
        var u :| 0 <= u < |ks| && ks[u] == k;
        assert r.cells[i][j][u] == 1;
      }
    }
  }

  lemma TrimWFullW(m: Mask)
    requires m.WellFormed()
    ensures forall t :: 0 <= t < TrimW(m).w ==> FlagsW(TrimW(m))[t]
  {
    var r := TrimW(m);
    var ks := Kept(FlagsW(m));
    forall t | 0 <= t < r.w ensures FlagsW(r)[t] {
      assert FlagsW(m)[ks[t]];
      var i, k :| 0 <= i < m.h && 0 <= k < m.d && m.cells[i][ks[t]][k] == 1;
      assert r.cells[i][t][k] == 1;
    }
  }

  lemma TrimWKeepsD(m: Mask)
    requires m.WellFormed()
    ensures FlagsD(TrimW(m)) == FlagsD(m)
  {
    var r := TrimW(m);
    var ks := Kept(FlagsW(m));
    forall k | 0 <= k < m.d ensures FlagsD(r)[k] == FlagsD(m)[k] {
      if FlagsD(m)[k] {
        var i, j :| 0 <= i < m.h && 0 <= j < m.w && m.cells[i][j][k] == 1;
        assert FlagsW(m)[j];
        var u :| 0 <= u < |ks| && ks[u] == j;
        assert r.cells[i][u][k] == 1;
      }
    }
  }

  lemma TrimWKeepsH(m: Mask)
    requires m.WellFormed()
    ensures FlagsH(TrimW(m)) == FlagsH(m)
  {
    var r := TrimW(m);
    var ks := Kept(FlagsW(m));
    forall i | 0 <= i < m.h ensures FlagsH(r)[i] == FlagsH(m)[i] {
      if FlagsH(m)[i] {
        var j, k :| 0 <= j < m.w && 0 <= k < m.d && m.cells[i][j][k] == 1;
        assert FlagsW(m)[j];
        var u :| 0 <= u < |ks| && ks[u] == j;
        assert r.cells[i][u][k] == 1;
      }
    }
  }

  lemma TrimHFullH(m: Mask)
    requires m.WellFormed()
    ensures forall t :: 0 <= t < TrimH(m).h ==> FlagsH(TrimH(m))[t]
  {
    var r := TrimH(m);
    var ks := Kept(FlagsH(m));
    forall t | 0 <= t < r.h ensures FlagsH(r)[t] {
      assert FlagsH(m)[ks[t]];
      var j, k :| 0 <= j < m.w && 0 <= k < m.d && m.cells[ks[t]][j][k] == 1;
      assert r.cells[t][j][k] == 1;
    }
  }

  lemma TrimHKeepsD(m: Mask)
    requires m.WellFormed()
    ensures FlagsD(TrimH(m)) == FlagsD(m)
  {
    var r := TrimH(m);
    var ks := Kept(FlagsH(m));
    forall k | 0 <= k < m.d ensures FlagsD(r)[k] == FlagsD(m)[k] {
      if FlagsD(m)[k] {
        var i, j :| 0 <= i < m.h && 0 <= j < m.w && m.cells[i][j][k] == 1;
        assert FlagsH(m)[i];
        var u :| 0 <= u < |ks| && ks[u] == i;
        assert r.cells[u][j][k] == 1;
      }
    }
  }

  lemma TrimHKeepsW(m: Mask)
    requires m.WellFormed()
    ensures FlagsW(TrimH(m)) == FlagsW(m)
  {
    var r := TrimH(m);
    var ks := Kept(FlagsH(m));
    forall j | 0 <= j < m.w ensures FlagsW(r)[j] == FlagsW(m)[j] {
      if FlagsW(m)[j] {
        var i, k :| 0 <= i < m.h && 0 <= k < m.d && m.cells[i][j][k] == 1;
        assert FlagsH(m)[i];
        var u :| 0 <= u < |ks| && ks[u] == i;
        assert r.cells[u][j][k] == 1;
      }
    }
  }

  /** A mask without empty depth slices is left as it is by the depth step. */
  lemma TrimDFixes(m: Mask)
    requires m.WellFormed() && forall k :: 0 <= k < m.d ==> FlagsD(m)[k]
    ensures TrimD(m) == m
  {
    KeptAll(FlagsD(m));
    var a := TrimD(m);
    forall i, j | 0 <= i < m.h && 0 <= j < m.w ensures a.cells[i][j] == m.cells[i][j] { }
    forall i | 0 <= i < m.h ensures a.cells[i] == m.cells[i] { }
  }

  lemma TrimWFixes(m: Mask)
    requires m.WellFormed() && forall j :: 0 <= j < m.w ==> FlagsW(m)[j]
    ensures TrimW(m) == m
  {
    KeptAll(FlagsW(m));
    var b := TrimW(m);
    forall i, j | 0 <= i < m.h && 0 <= j < m.w ensures b.cells[i][j] == m.cells[i][j] { }
    forall i | 0 <= i < m.h ensures b.cells[i] == m.cells[i] { }
  }

  lemma TrimHFixes(m: Mask)
    requires m.WellFormed() && forall i :: 0 <= i < m.h ==> FlagsH(m)[i]
    ensures TrimH(m) == m
  {
    KeptAll(FlagsH(m));
    var c := TrimH(m);
    forall i | 0 <= i < m.h ensures c.cells[i] == m.cells[i] { }
  }

  // ---------------------------------------------------------------------------
  // What trimming promises

  /** Trimming keeps every filled voxel and never enlarges an extent. */
  lemma TrimKeepsVolume(m: Mask)
    requires m.WellFormed()
    ensures Volume(Trim(m)) == Volume(m)
    ensures Trim(m).h <= m.h && Trim(m).w <= m.w && Trim(m).d <= m.d
  {
    TrimDVolume(m);
    TrimWVolume(TrimD(m));
    TrimHVolume(TrimW(TrimD(m)));
  }

  /** After trimming, no slice along any axis is all zero, interior slices included. */
  lemma TrimLeavesNoEmptySlice(m: Mask)
    requires m.WellFormed()
    ensures NoEmptySlice(Trim(m))
  {
    var a := TrimD(m);
    TrimDFullD(m);
    var b := TrimW(a);
    TrimWFullW(a);
    TrimWKeepsD(a);
    TrimHFullH(b);
    TrimHKeepsD(b);
    TrimHKeepsW(b);
  }

  /** Trimming twice is trimming once. */
  lemma TrimIdempotent(m: Mask)
    requires m.WellFormed()
    ensures Trim(Trim(m)) == Trim(m)
  {
    var r := Trim(m);
    TrimLeavesNoEmptySlice(m);
    TrimDFixes(r);
    TrimWFixes(r);
    TrimHFixes(r);
  }

  /** A mask with no filled voxel trims to extents (0, 0, 0). */
  lemma TrimAllZero(m: Mask)
    requires m.WellFormed() && Volume(m) == 0
    ensures Trim(m).h == 0 && Trim(m).w == 0 && Trim(m).d == 0
  {
    assert Occupied(m) == {};
    forall k | 0 <= k < m.d ensures !FlagsD(m)[k] {
      forall i, j | 0 <= i < m.h && 0 <= j < m.w ensures m.cells[i][j][k] != 1 {
        assert (i, j, k) !in Occupied(m);
      }
    }
    KeptNone(FlagsD(m));
    var a := TrimD(m);
    KeptNone(FlagsW(a));
    var b := TrimW(a);
    KeptNone(FlagsH(b));
  }

  /** A trimmed mask with a filled voxel has one in its bottom layer. */
  lemma TrimmedBottomFilled(m: Mask)
    requires m.WellFormed() && NoEmptySlice(m) && m.h > 0
    ensures exists j, k :: 0 <= j < m.w && 0 <= k < m.d && m.cells[0][j][k] == 1
  {
    assert FlagsH(m)[0];
  }
}

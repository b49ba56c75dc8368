/** The orientations of an item: for a plain box, the distinct permutations of
    its size that fit the container; for a voxel mask, its quarter turns about
    the three axes, trimmed and de-duplicated by their flattened cells. */
module Rotations {
  import opened Masks
  import opened Cargo

  /** The axis pair a rotation about the named axis turns. */
  function GetAxes(axis: string): (r: (int, int))
    ensures r == (0, 1) || r == (0, 2) || r == (1, 2)
    ensures axis == "x" ==> r == (1, 2)
    ensures axis == "y" ==> r == (0, 2)
    ensures axis !in {"x", "y"} ==> r == (0, 1)
  {
    if axis == "x" then (1, 2)
    else if axis == "y" then (0, 2)
    else if axis == "z" then (0, 1)
    else (0, 1)
  }

  /** One quarter turn in the plane of the axis pair. */
  function Turn(m: Mask, axes: (int, int)): (r: Mask)
    requires m.WellFormed()
    requires axes == (0, 1) || axes == (0, 2) || axes == (1, 2)
    ensures r.WellFormed() && Volume(r) == Volume(m)
  {
    if axes == (0, 1) then
      TurnHWVolume(m);
      TurnHW(m)
    else if axes == (0, 2) then
      TurnHDVolume(m);
      TurnHD(m)
    else
      TurnWDVolume(m);
      TurnWD(m)
  }

  /** k quarter turns in the plane of the axis pair. */
  function Rot90(m: Mask, k: nat, axes: (int, int)): (r: Mask)
    requires m.WellFormed()
    requires axes == (0, 1) || axes == (0, 2) || axes == (1, 2)
    ensures r.WellFormed() && Volume(r) == Volume(m)
    ensures k == 0 ==> r == m
    decreases k
  {
    if k == 0 then m else Turn(Rot90(m, k - 1, axes), axes)
  }

  const AxisNames: seq<string> := ["x", "y", "z"]

  /** The trimmed result of k turns about the a-th axis name. */
  function Candidate(m: Mask, a: nat, k: nat): (r: Mask)
    requires m.WellFormed() && a < 3
    ensures r.WellFormed()
  {
    Trim(Rot90(m, k, GetAxes(AxisNames[a])))
  }

  /** The four turns about the a-th axis name, in turn order. */
  function AxisTurns(m: Mask, a: nat): (r: seq<Mask>)
    requires m.WellFormed() && a < 3
    ensures |r| == 4
  {
    seq(4, k requires 0 <= k < 4 => Candidate(m, a, k))
  }

  /** All twelve candidates, axis by axis and turn by turn. */
  function Candidates(m: Mask): (r: seq<Mask>)
    requires m.WellFormed()
    ensures |r| == 12
  {
    AxisTurns(m, 0) + (AxisTurns(m, 1) + AxisTurns(m, 2))
  }

  /** Position 4 * a + k of three blocks of four is position k of block a. */
  lemma BlockIndex<T>(t0: seq<T>, t1: seq<T>, t2: seq<T>, a: nat, k: nat)
    requires |t0| == 4 && |t1| == 4 && |t2| == 4 && a < 3 && k < 4
    ensures (t0 + (t1 + t2))[4 * a + k] == [t0, t1, t2][a][k]
  {
  }

  /** Position 4 * a + k of the candidate list holds k turns about axis a. */
  lemma CandidateAt(m: Mask, a: nat, k: nat)
    requires m.WellFormed() && a < 3 && k < 4
    ensures Candidates(m)[4 * a + k] == Candidate(m, a, k)
  {
    var t0, t1, t2 := AxisTurns(m, 0), AxisTurns(m, 1), AxisTurns(m, 2);
    BlockIndex(t0, t1, t2, a, k);
    assert [t0, t1, t2][a] == AxisTurns(m, a);
  }

  /** One candidate is a trimmed mask with as many filled voxels as m. */
  lemma CandidateKeepsVolume(m: Mask, a: nat, k: nat)
    requires m.WellFormed() && a < 3
    ensures var r := Candidate(m, a, k); r.WellFormed() && Volume(r) == Volume(m) && NoEmptySlice(r)
  {
    var rotated := Rot90(m, k, GetAxes(AxisNames[a]));
    TrimKeepsVolume(rotated);
    TrimLeavesNoEmptySlice(rotated);
  }

  /** Every candidate is a trimmed mask with as many filled voxels as m. */
  lemma CandidatesKeepVolume(m: Mask)
    requires m.WellFormed()
    ensures forall x :: x in Candidates(m) ==> x.WellFormed() && Volume(x) == Volume(m) && NoEmptySlice(x)
  {
    forall x | x in Candidates(m) ensures x.WellFormed() && Volume(x) == Volume(m) && NoEmptySlice(x) {
      var t0, t1, t2 := AxisTurns(m, 0), AxisTurns(m, 1), AxisTurns(m, 2);
      var a: nat := if x in t0 then 0 else if x in t1 then 1 else 2;
      var t := AxisTurns(m, a);
      assert x in t;
      var k :| 0 <= k < 4 && t[k] == x;
      CandidateKeepsVolume(m, a, k);
    }
  }

  /** Keep, in order, each candidate whose flattened cells were not kept
      before and whose extents fit the container. */
  function KeepNew(c: Container, cands: seq<Mask>, seen: set<seq<Bit>>): (r: seq<Mask>)
    ensures |r| <= |cands|
    ensures forall i :: 0 <= i < |r| ==> r[i] in cands && CheckShapeDimensions(c, r[i]) && Flatten(r[i]) !in seen
    ensures forall i, j :: 0 <= i < j < |r| ==> Flatten(r[i]) != Flatten(r[j])
    decreases |cands|
  {
    if cands == [] then []
    else if Flatten(cands[0]) !in seen && CheckShapeDimensions(c, cands[0]) then
      [cands[0]] + KeepNew(c, cands[1..], seen + {Flatten(cands[0])})
    else
      KeepNew(c, cands[1..], seen)
  }

  /** Every candidate that fits and whose flattened cells are not yet seen
      has its key among the kept candidates. */
  lemma {:induction false} KeepNewComplete(c: Container, cands: seq<Mask>, seen: set<seq<Bit>>, i: nat)
    requires i < |cands| && CheckShapeDimensions(c, cands[i]) && Flatten(cands[i]) !in seen
    ensures exists j :: 0 <= j < |KeepNew(c, cands, seen)| && Flatten(KeepNew(c, cands, seen)[j]) == Flatten(cands[i])
    decreases |cands|
  {
    var r := KeepNew(c, cands, seen);
    var key := Flatten(cands[i]);
    var head := Flatten(cands[0]) !in seen && CheckShapeDimensions(c, cands[0]);
    var seen' := if head then seen + {Flatten(cands[0])} else seen;
    var rest := KeepNew(c, cands[1..], seen');
    assert r == (if head then [cands[0]] + rest else rest);
    if head && key == Flatten(cands[0]) {
      assert Flatten(r[0]) == key;
    } else {
      assert 0 < i && cands[1..][i - 1] == cands[i];
      assert key !in seen';
      KeepNewComplete(c, cands[1..], seen', i - 1);
      var j :| 0 <= j < |rest| && Flatten(rest[j]) == key;
      var j' := if head then j + 1 else j;
      assert r[j'] == rest[j];
    }
  }

  /** The six orderings of (w, h, d), in the order they are generated. */
  function Permutations(w: real, h: real, d: real): seq<(real, real, real)>
  {
    [(w, h, d), (w, d, h), (h, w, d), (h, d, w), (d, w, h), (d, h, w)]
  }

  /** Every size in the list has non-negative lengths. */
  predicate NonNegSizes(sizes: seq<(real, real, real)>)
  {
    forall r :: r in sizes ==> r.0 >= 0.0 && r.1 >= 0.0 && r.2 >= 0.0
  }

  /** The distinct elements of s, each at its first occurrence. */
  function Distinct(s: seq<(real, real, real)>): (r: seq<(real, real, real)>)
    ensures |r| <= |s|
    ensures forall x :: x in r <==> x in s
    ensures forall i, j :: 0 <= i < j < |r| ==> r[i] != r[j]
  {
    if s == [] then []
    else
      var r := Distinct(s[..|s| - 1]);
      assert forall x :: x in s <==> x in s[..|s| - 1] || x == s[|s| - 1];
      if s[|s| - 1] in r then r else r + [s[|s| - 1]]
  }

  /** The all-ones mask of a (width, height, depth) size: extents
      (height/5, width/5, depth/5). */
  function BoxShape(r: (real, real, real)): (m: Mask)
    requires r.0 >= 0.0 && r.1 >= 0.0 && r.2 >= 0.0
    ensures m.WellFormed()
  {
    Block(GridCells(r.1), GridCells(r.0), GridCells(r.2))
  }

  /** Keep, in order, the sizes that fit the container, as all-ones masks. */
  function BoxShapes(c: Container, sizes: seq<(real, real, real)>): (r: seq<Mask>)
    requires NonNegSizes(sizes)
  {
    if sizes == [] then []
    else
      var last := sizes[|sizes| - 1];
      assert last in sizes;
      BoxShapes(c, sizes[..|sizes| - 1]) + (if CheckDimensions(c, last) then [BoxShape(last)] else [])
  }

  /** The lengths an item's orientations are built from are usable. */
  predicate ItemDefined(it: Item)
  {
    match it.shape
    case None => it.width >= 0.0 && it.height >= 0.0 && it.depth >= 0.0
    case Some(m) => m.WellFormed()
  }

  /** The orientations of an item, in the order they are tried. */
  function Orientations(c: Container, it: Item): seq<Mask>
    requires ItemDefined(it)
  {
    if !it.rotatable then
      match it.shape
      case Some(m) => [m]
      case None => [BoxShape((it.width, it.height, it.depth))]
    else
      match it.shape
      case None =>
        var perms := Permutations(it.width, it.height, it.depth);
        assert NonNegSizes(perms);
        BoxShapes(c, Distinct(perms))
      case Some(m) => KeepNew(c, Candidates(m), {})
  }

  /** Every orientation can be searched and placed: it has a filled voxel. */
  predicate Placeable(c: Container, it: Item)
  {
    ItemDefined(it) &&
    forall o :: 0 <= o < |Orientations(c, it)| ==> NonEmpty(Orientations(c, it)[o])
  }

  /** Every item of a backlog is placeable. */
  predicate AllPlaceable(c: Container, s: seq<Item>)
  {
    forall k :: 0 <= k < |s| ==> Placeable(c, s[k])
  }

  // ---------------------------------------------------------------------------
  // What the orientations promise

  /** A non-rotatable item has exactly one orientation, not trimmed and not
      checked against the container. */
  lemma FixedOrientation(c: Container, it: Item)
    requires ItemDefined(it) && !it.rotatable
    ensures |Orientations(c, it)| == 1
    ensures it.shape.Some? ==> Orientations(c, it)[0] == it.shape.value
    ensures it.shape.None? ==>
      Orientations(c, it)[0] == Block(GridCells(it.height), GridCells(it.width), GridCells(it.depth))
  {
  }

  lemma {:induction false} BoxShapesSpec(c: Container, sizes: seq<(real, real, real)>)
    requires NonNegSizes(sizes)
    ensures |BoxShapes(c, sizes)| <= |sizes|
    ensures forall o :: o in BoxShapes(c, sizes) <==>
      exists r :: r in sizes && CheckDimensions(c, r) && o == BoxShape(r)
    decreases |sizes|
  {
    if sizes != [] {
      var init := sizes[..|sizes| - 1];
      BoxShapesSpec(c, init);
      assert forall r :: r in sizes <==> r in init || r == sizes[|sizes| - 1];
    }
  }

  /** Over pairwise distinct sizes, the box loop yields exactly one mask per
      size that fits: as many masks as fitting sizes, equal masks included. */
  lemma {:induction false} BoxShapesCount(c: Container, sizes: seq<(real, real, real)>)
    requires NonNegSizes(sizes)
    requires forall i, j :: 0 <= i < j < |sizes| ==> sizes[i] != sizes[j]
    ensures |BoxShapes(c, sizes)| == |set r | r in sizes && CheckDimensions(c, r)|
    decreases |sizes|
  {
    if sizes != [] {
      var init, last := sizes[..|sizes| - 1], sizes[|sizes| - 1];
      assert forall i, j :: 0 <= i < j < |init| ==> init[i] != init[j] by {
        forall i, j | 0 <= i < j < |init| ensures init[i] != init[j] {
          assert init[i] == sizes[i] && init[j] == sizes[j];
        }
      }
      BoxShapesCount(c, init);
      var before := set r | r in init && CheckDimensions(c, r);
      var after := set r | r in sizes && CheckDimensions(c, r);
      assert last !in init;
      assert forall r :: r in sizes <==> r in init || r == last;
      if CheckDimensions(c, last) {
        assert after == before + {last};
      } else {
        assert after == before;
      }
    }
  }

  /** A rotatable box yields one all-ones mask per distinct permutation of its
      size that fits the container, and at most six of them. */
  lemma BoxOrientations(c: Container, it: Item)
    requires ItemDefined(it) && it.rotatable && it.shape.None?
    ensures |Orientations(c, it)| <= 6
    ensures forall o :: o in Orientations(c, it) <==>
      exists r :: r in Permutations(it.width, it.height, it.depth) && CheckDimensions(c, r) &&
        o == Block(GridCells(r.1), GridCells(r.0), GridCells(r.2))
    ensures |Orientations(c, it)| ==
      |set r | r in Permutations(it.width, it.height, it.depth) && CheckDimensions(c, r)|
  {
    var all := Permutations(it.width, it.height, it.depth);
    var perms := Distinct(all);
    BoxShapesSpec(c, perms);
    BoxShapesCount(c, perms);
    assert (set r | r in perms && CheckDimensions(c, r)) == (set r | r in all && CheckDimensions(c, r));
  }

  /** A non-empty list whose elements are all x has x as its only distinct element. */
  lemma {:induction false} DistinctConstant(s: seq<(real, real, real)>, x: (real, real, real))
    requires |s| > 0 && forall i :: 0 <= i < |s| ==> s[i] == x
    ensures Distinct(s) == [x]
    decreases |s|
  {
    if |s| > 1 {
      DistinctConstant(s[..|s| - 1], x);
    }
  }

  /** A cube that fits yields exactly one orientation; one that does not, none. */
  lemma CubeOrientation(c: Container, it: Item)
    requires ItemDefined(it) && it.rotatable && it.shape.None?
    requires it.width == it.height == it.depth
    ensures var s := it.width;
      Orientations(c, it) == if CheckDimensions(c, (s, s, s)) then [Block(GridCells(s), GridCells(s), GridCells(s))] else []
  {
    var s := it.width;
    DistinctConstant(Permutations(s, s, s), (s, s, s));
    assert BoxShapes(c, [(s, s, s)]) == BoxShapes(c, []) + (if CheckDimensions(c, (s, s, s)) then [BoxShape((s, s, s))] else []);
  }

  /** A rotatable mask yields at most twelve orientations with pairwise distinct
      flattened cells; each fits the container, has no empty slice and as many
      filled voxels as the input; the trimmed input comes first when it fits;
      and every fitting candidate has its flattened cells among them. */
  lemma MaskOrientations(c: Container, it: Item)
    requires ItemDefined(it) && it.rotatable && it.shape.Some?
    ensures var r := Orientations(c, it);
      && |r| <= 12
      && (forall i, j :: 0 <= i < j < |r| ==> Flatten(r[i]) != Flatten(r[j]))
      && (forall i :: 0 <= i < |r| ==> CheckShapeDimensions(c, r[i]))
      && (forall i :: 0 <= i < |r| ==>
            r[i].WellFormed() && NoEmptySlice(r[i]) && Volume(r[i]) == Volume(it.shape.value))
      && (forall i :: 0 <= i < |r| ==> r[i] in Candidates(it.shape.value))
    ensures var m := it.shape.value;
      CheckShapeDimensions(c, Trim(m)) ==> Orientations(c, it)[0] == Trim(m)
    ensures var m, r := it.shape.value, Orientations(c, it);
      forall a: nat, k: nat :: a < 3 && k < 4 && CheckShapeDimensions(c, Candidate(m, a, k)) ==>
        exists j :: 0 <= j < |r| && Flatten(r[j]) == Flatten(Candidate(m, a, k))
  {
    var m := it.shape.value;
    var cands := Candidates(m);
    CandidatesKeepVolume(m);
    var r := Orientations(c, it);
    forall i | 0 <= i < |r|
      ensures r[i].WellFormed() && NoEmptySlice(r[i]) && Volume(r[i]) == Volume(m)
    {
      assert r[i] in cands;
    }
    CandidateAt(m, 0, 0);
    assert cands[0] == Trim(Rot90(m, 0, (1, 2)));
    forall a: nat, k: nat | a < 3 && k < 4 && CheckShapeDimensions(c, Candidate(m, a, k))
      ensures exists j :: 0 <= j < |r| && Flatten(r[j]) == Flatten(Candidate(m, a, k))
    {
      CandidateAt(m, a, k);
      KeepNewComplete(c, cands, {}, 4 * a + k);
    }
  }

  /** Every orientation of a non-empty mask keeps a filled voxel. */
  lemma MaskPlaceable(c: Container, it: Item)
    requires it.shape.Some? && NonEmpty(it.shape.value)
    ensures Placeable(c, it)
  {
    if it.rotatable {
      var r := Orientations(c, it);
      NonEmptyVolume(it.shape.value);
      MaskOrientations(c, it);
      forall o | 0 <= o < |r| ensures NonEmpty(r[o]) {
        NonEmptyVolume(r[o]);
      }
    }
  }

  /** A size at least one cell long on each side gives a solid block. */
  lemma SolidBlock(s: (real, real, real))
    requires s.0 >= 5.0 && s.1 >= 5.0 && s.2 >= 5.0
    ensures NonEmpty(Block(GridCells(s.1), GridCells(s.0), GridCells(s.2)))
  {
    CellsFit(1, s.0);
    CellsFit(1, s.1);
    CellsFit(1, s.2);
    BlockNonEmpty(GridCells(s.1), GridCells(s.0), GridCells(s.2));
  }

  /** Reordering a size keeps each side at least lo. */
  lemma PermutationsAtLeast(w: real, h: real, d: real, lo: real)
    requires w >= lo && h >= lo && d >= lo
    ensures forall s :: s in Permutations(w, h, d) ==> s.0 >= lo && s.1 >= lo && s.2 >= lo
  {
  }

  /** Every orientation of a box at least one cell long on each side is a
      solid block, so it has a filled voxel. */
  lemma BoxPlaceable(c: Container, it: Item)
    requires it.shape.None? && it.width >= 5.0 && it.height >= 5.0 && it.depth >= 5.0
    ensures Placeable(c, it)
  {
    var r := Orientations(c, it);
    if it.rotatable {
      BoxOrientations(c, it);
      PermutationsAtLeast(it.width, it.height, it.depth, 5.0);
      forall o | 0 <= o < |r| ensures NonEmpty(r[o]) {
        assert r[o] in r;
        var s :| s in Permutations(it.width, it.height, it.depth) && CheckDimensions(c, s) &&
          r[o] == Block(GridCells(s.1), GridCells(s.0), GridCells(s.2));
        SolidBlock(s);
      }
    } else {
      SolidBlock((it.width, it.height, it.depth));
    }
  }

  /** Orientations of a well-formed item can all be searched and placed: a
      non-empty mask keeps its filled voxels, and a box of at least one cell
      per side is a solid block. */
  lemma OrientationsPlaceable(c: Container, it: Item)
    requires match it.shape
      case None => it.width >= 5.0 && it.height >= 5.0 && it.depth >= 5.0
      case Some(m) => NonEmpty(m)
    ensures Placeable(c, it)
  {
    if it.shape.Some? {
      MaskPlaceable(c, it);
    } else {
      BoxPlaceable(c, it);
    }
  }

  // ---------------------------------------------------------------------------
  // The enumeration as a loop

  /** The fitting permutations of a box, one mask each, in order. */
  method BoxRotations(c: Container, rotations: seq<(real, real, real)>) returns (valid: seq<Mask>)
    requires NonNegSizes(rotations)
    ensures valid == BoxShapes(c, rotations)
  {
    valid := [];
    for n := 0 to |rotations|
      invariant valid == BoxShapes(c, rotations[..n])
    {
      assert rotations[..n + 1][..n] == rotations[..n];
      var r := rotations[n];
      if CheckDimensions(c, r) {
        valid := valid + [BoxShape(r)];
      }
    }
    assert rotations[..|rotations|] == rotations;
  }

  /** One step of KeepNew from position i: the candidate there is appended to
      the kept list, and its key remembered, exactly when it is new and fits. */
  lemma KeepNewStep(c: Container, cands: seq<Mask>, i: nat, cand: Mask, unique: seq<Mask>, seen: set<seq<Bit>>)
    requires i < |cands| && cands[i] == cand
    ensures var keep := Flatten(cand) !in seen && CheckShapeDimensions(c, cand);
      (if keep then unique + [cand] else unique) +
        KeepNew(c, cands[i + 1..], if keep then seen + {Flatten(cand)} else seen) ==
      unique + KeepNew(c, cands[i..], seen)
  {
    assert cands[i..][1..] == cands[i + 1..];
    if Flatten(cand) !in seen && CheckShapeDimensions(c, cand) {
      var rest := KeepNew(c, cands[i + 1..], seen + {Flatten(cand)});
      assert unique + ([cand] + rest) == (unique + [cand]) + rest;
    }
  }

  /** The four turns about axis a, each kept when new and fitting. */
  method KeepAxisTurns(c: Container, shape: Mask, a: nat, unique0: seq<Mask>, seen0: set<seq<Bit>>)
    returns (unique: seq<Mask>, seen: set<seq<Bit>>)
    requires shape.WellFormed() && a < 3
    ensures unique + KeepNew(c, Candidates(shape)[4 * a + 4..], seen) ==
      unique0 + KeepNew(c, Candidates(shape)[4 * a..], seen0)
  {
    ghost var cands := Candidates(shape);
    unique, seen := unique0, seen0;
    for k := 0 to 4
      invariant unique + KeepNew(c, cands[4 * a + k..], seen) == unique0 + KeepNew(c, cands[4 * a..], seen0)
    {
      var rotated := Rot90(shape, k, GetAxes(AxisNames[a]));
      rotated := Trim(rotated);
      CandidateAt(shape, a, k);
      KeepNewStep(c, cands, 4 * a + k, rotated, unique, seen);
      var key := Flatten(rotated);
      if key !in seen && CheckShapeDimensions(c, rotated) {
        seen := seen + {key};
        unique := unique + [rotated];
      }
    }
  }

  /** The new, fitting quarter-turn candidates of a mask, in order. */
  method MaskRotations(c: Container, shape: Mask) returns (unique: seq<Mask>)
    requires shape.WellFormed()
    ensures unique == KeepNew(c, Candidates(shape), {})
  {
    ghost var cands := Candidates(shape);
    unique := [];
    var seen: set<seq<Bit>> := {};
    assert cands[0..] == cands;
    for a := 0 to 3
      invariant unique + KeepNew(c, cands[4 * a..], seen) == KeepNew(c, cands, {})
    {
      unique, seen := KeepAxisTurns(c, shape, a, unique, seen);
    }
    assert cands[12..] == [];
  }

  /** get_possible_rotations: the orientation list, built step by step. */
  method GetPossibleRotations(c: Container, it: Item) returns (rots: seq<Mask>)
    requires ItemDefined(it)
    ensures rots == Orientations(c, it)
  {
    if !it.rotatable {
      match it.shape {
        case Some(m) => rots := [m];
        case None => rots := [BoxShape((it.width, it.height, it.depth))];
      }
    } else {
      match it.shape {
        case None =>
          var perms := Permutations(it.width, it.height, it.depth);
          assert NonNegSizes(perms);
          rots := BoxRotations(c, Distinct(perms));
        case Some(shape) =>
          rots := MaskRotations(c, shape);
      }
    }
  }
}

module Ledger {
  import opened Masks
  import opened Cargo
  import opened Rotations
  import opened Space
  import opened Search
  import opened Backlog

  /** A packed item as reported: name, position and size of the bounding box
      of its filled voxels in length units (width, depth, height order), and
      weight. The display colour is not modelled. */
  datatype Record = Record(name: string, position: (int, int, int), size: (int, int, int), weight: real)

  /** What a record was made from: the item, the orientation placed and the
      grid position. */
  datatype Placement = Placement(item: Item, shape: Mask, x: nat, y: nat, z: nat)

  /** The lowest index at which f holds; |f| when it holds nowhere. */
  function FirstSet(f: seq<bool>): nat
  {
    if f == [] then 0 else if f[0] then 0 else FirstSet(f[1..]) + 1
  }

  lemma {:induction false} FirstSetIsFirst(f: seq<bool>)
    requires true in f
    ensures FirstSet(f) < |f| && f[FirstSet(f)] && forall j :: 0 <= j < FirstSet(f) ==> !f[j]
  {
    if !f[0] {
      FirstSetIsFirst(f[1..]);
    }
  }

  /** The highest index at which f holds; 0 when it holds nowhere. */
  function LastSet(f: seq<bool>): nat
  {
    if f == [] then 0 else if f[|f| - 1] then |f| - 1 else LastSet(f[..|f| - 1])
  }

  lemma {:induction false} LastSetIsLast(f: seq<bool>)
    requires true in f
    ensures LastSet(f) < |f| && f[LastSet(f)] && forall j :: LastSet(f) < j < |f| ==> !f[j]
  {
    if !f[|f| - 1] {
      LastSetIsLast(f[..|f| - 1]);
    }
  }

  /** A mask with a filled voxel has a filled slice along every axis. */
  lemma FlagsHold(m: Mask)
    requires NonEmpty(m)
    ensures true in FlagsW(m) && true in FlagsD(m) && true in FlagsH(m)
  {
    var i, j, k :| 0 <= i < m.h && 0 <= j < m.w && 0 <= k < m.d && m.Filled(i, j, k);
    assert FlagsW(m)[j] && FlagsD(m)[k] && FlagsH(m)[i];
  }

  /** The smallest and largest (width, depth, height) indices of filled voxels. */
  function BoundingBox(m: Mask): (b: ((nat, nat, nat), (nat, nat, nat)))
    requires NonEmpty(m)
  {
    ((FirstSet(FlagsW(m)), FirstSet(FlagsD(m)), FirstSet(FlagsH(m))),
     (LastSet(FlagsW(m)), LastSet(FlagsD(m)), LastSet(FlagsH(m))))
  }

  /** Along the width axis, the bounding box holds every filled voxel and
      both its faces touch one. */
  lemma WidthBounds(m: Mask)
    requires NonEmpty(m)
    ensures forall k, i, j :: m.Filled(k, i, j) ==> BoundingBox(m).0.0 <= i <= BoundingBox(m).1.0
    ensures exists k, j :: m.Filled(k, BoundingBox(m).0.0, j)
    ensures exists k, j :: m.Filled(k, BoundingBox(m).1.0, j)
  {
    FlagsHold(m);
    var f := FlagsW(m);
    var lo, hi := FirstSet(f), LastSet(f);
    FirstSetIsFirst(f);
    LastSetIsLast(f);
    assert BoundingBox(m).0.0 == lo && BoundingBox(m).1.0 == hi;
    forall k, i, j | m.Filled(k, i, j) ensures lo <= i <= hi {
      assert f[i];
    }
    assert f[lo];
    var a, b :| 0 <= a < m.h && 0 <= b < m.d && m.cells[a][lo][b] == 1;
    assert m.Filled(a, lo, b);
    assert f[hi];
    var c, d :| 0 <= c < m.h && 0 <= d < m.d && m.cells[c][hi][d] == 1;
    assert m.Filled(c, hi, d);
  }

  /** The same along the depth axis. */
  lemma DepthBounds(m: Mask)
    requires NonEmpty(m)
    ensures forall k, i, j :: m.Filled(k, i, j) ==> BoundingBox(m).0.1 <= j <= BoundingBox(m).1.1
    ensures exists k, i :: m.Filled(k, i, BoundingBox(m).0.1)
    ensures exists k, i :: m.Filled(k, i, BoundingBox(m).1.1)
  {
    FlagsHold(m);
    var f := FlagsD(m);
    var lo, hi := FirstSet(f), LastSet(f);
    FirstSetIsFirst(f);
    LastSetIsLast(f);
    assert BoundingBox(m).0.1 == lo && BoundingBox(m).1.1 == hi;
    forall k, i, j | m.Filled(k, i, j) ensures lo <= j <= hi {
      assert f[j];
    }
    assert f[lo];
    var a, b :| 0 <= a < m.h && 0 <= b < m.w && m.cells[a][b][lo] == 1;
    assert m.Filled(a, b, lo);
    assert f[hi];
    var c, d :| 0 <= c < m.h && 0 <= d < m.w && m.cells[c][d][hi] == 1;
    assert m.Filled(c, d, hi);
  }

  /** The same along the height axis. */
  lemma HeightBounds(m: Mask)
    requires NonEmpty(m)
    ensures forall k, i, j :: m.Filled(k, i, j) ==> BoundingBox(m).0.2 <= k <= BoundingBox(m).1.2
    ensures exists i, j :: m.Filled(BoundingBox(m).0.2, i, j)
    ensures exists i, j :: m.Filled(BoundingBox(m).1.2, i, j)
  {
    FlagsHold(m);
    var f := FlagsH(m);
    var lo, hi := FirstSet(f), LastSet(f);
    FirstSetIsFirst(f);
    LastSetIsLast(f);
    assert BoundingBox(m).0.2 == lo && BoundingBox(m).1.2 == hi;
    forall k, i, j | m.Filled(k, i, j) ensures lo <= k <= hi {
      assert f[k];
    }
    assert f[lo];
    var a, b :| 0 <= a < m.w && 0 <= b < m.d && m.cells[lo][a][b] == 1;
    assert m.Filled(lo, a, b);
    assert f[hi];
    var c, d :| 0 <= c < m.w && 0 <= d < m.d && m.cells[hi][c][d] == 1;
    assert m.Filled(hi, c, d);
  }

  /** The record of an item placed with orientation m at (x, y, z). */
  function MakeRecord(it: Item, m: Mask, x: nat, y: nat, z: nat): (r: Record)
    requires NonEmpty(m)
  {
    var (lo, hi) := BoundingBox(m);
    Record(it.name,
      ((x + lo.0) * GridSize, (y + lo.1) * GridSize, (z + lo.2) * GridSize),
      ((hi.0 - lo.0 + 1) * GridSize, (hi.1 - lo.1 + 1) * GridSize, (hi.2 - lo.2 + 1) * GridSize),
      it.weight)
  }

  /** The grid cells covered by all placements. */
  function Covered(ps: seq<Placement>): set<Cell>
    requires forall k :: 0 <= k < |ps| ==> ps[k].shape.WellFormed()
  {
    if ps == [] then {}
    else
      var last := ps[|ps| - 1];
      Covered(ps[..|ps| - 1]) + Footprint(last.shape, last.x, last.y, last.z)
  }

  /** Each placement meets none of the cells of the placements before it. */
  ghost predicate Disjoint(ps: seq<Placement>)
    requires forall k :: 0 <= k < |ps| ==> ps[k].shape.WellFormed()
  {
    ps == [] ||
    var last := ps[|ps| - 1];
    Disjoint(ps[..|ps| - 1]) && Footprint(last.shape, last.x, last.y, last.z) !! Covered(ps[..|ps| - 1])
  }

  lemma {:induction false} CoveredContains(ps: seq<Placement>, k: nat)
    requires forall t :: 0 <= t < |ps| ==> ps[t].shape.WellFormed()
    requires k < |ps|
    ensures Footprint(ps[k].shape, ps[k].x, ps[k].y, ps[k].z) <= Covered(ps)
  {
    if k < |ps| - 1 {
      CoveredContains(ps[..|ps| - 1], k);
    }
  }

  /** The sum of the record weights. */
  function TotalWeight(rs: seq<Record>): real
  {
    if rs == [] then 0.0 else TotalWeight(rs[..|rs| - 1]) + rs[|rs| - 1].weight
  }

  /** The volume an item adds to the utilisation: a box its nominal size, a
      custom item its chosen orientation's filled voxels times 125. */
  function Contribution(p: Placement): real
    requires p.shape.WellFormed()
  {
    if p.item.shape.None? then p.item.width * p.item.height * p.item.depth
    else (Volume(p.shape) * GridSize * GridSize * GridSize) as real
  }

  /** Whatever orientation was placed, the volume added is the item's own
      volume, the first part of its sort key: a box its nominal size, a
      custom item its mask's filled voxels times 125. */
  lemma ContributionIsKeyVolume(c: Container, p: Placement)
    requires ItemDefined(p.item) && p.shape in Orientations(c, p.item)
    ensures Shaped(p.item) && p.shape.WellFormed() && Contribution(p) == Key(p.item).0
  {
    if p.item.shape.None? {
      BoxShapeFormed(c, p.item, p.shape);
    } else {
      MaskShapeVolume(c, p.item, p.shape);
    }
  }

  /** Every orientation of a box is well formed. */
  lemma BoxShapeFormed(c: Container, it: Item, o: Mask)
    requires ItemDefined(it) && it.shape.None? && o in Orientations(c, it)
    ensures o.WellFormed()
  {
    if it.rotatable {
      BoxOrientations(c, it);
    } else {
      FixedOrientation(c, it);
    }
  }

  /** Every orientation of a custom item has the item's filled voxels. */
  lemma MaskShapeVolume(c: Container, it: Item, o: Mask)
    requires ItemDefined(it) && it.shape.Some? && o in Orientations(c, it)
    ensures o.WellFormed() && Volume(o) == Volume(it.shape.value)
  {
    if it.rotatable {
      MaskOrientations(c, it);
      var rots := Orientations(c, it);
      var k :| 0 <= k < |rots| && rots[k] == o;
    } else {
      FixedOrientation(c, it);
    }
  }

  function TotalVolume(ps: seq<Placement>): real
    requires forall k :: 0 <= k < |ps| ==> ps[k].shape.WellFormed()
  {
    if ps == [] then 0.0 else TotalVolume(ps[..|ps| - 1]) + Contribution(ps[|ps| - 1])
  }

  /** The number of records with the given name. */
  function CountPacked(rs: seq<Record>, n: string): nat
  {
    if rs == [] then 0 else CountPacked(rs[..|rs| - 1], n) + (if rs[|rs| - 1].name == n then 1 else 0)
  }

  /** A failure count, zero for a name never counted. */
  function Get(failed: map<string, int>, n: string): int
  {
    if n in failed then failed[n] else 0
  }

  // ---------------------------------------------------------------------------
  // The bookkeeping of pack's loop

  /** Appending a record adds one to its name's count in every suffix that
      starts within the old sequence. */
  lemma CountPackedAppend(rs: seq<Record>, k: nat, r: Record, n: string)
    requires k <= |rs|
    ensures CountPacked((rs + [r])[k..], n) == CountPacked(rs[k..], n) + (if r.name == n then 1 else 0)
  {
    assert (rs + [r])[k..] == rs[k..] + [r];
    assert (rs[k..] + [r])[..|rs[k..]|] == rs[k..];
  }

  /** Appending a placement adds its contribution to every suffix that starts
      within the old sequence. */
  lemma TotalVolumeAppend(ps: seq<Placement>, k: nat, p: Placement)
    requires k <= |ps| && p.shape.WellFormed()
    requires forall t :: 0 <= t < |ps| ==> ps[t].shape.WellFormed()
    ensures TotalVolume((ps + [p])[k..]) == TotalVolume(ps[k..]) + Contribution(p)
  {
    assert (ps + [p])[k..] == ps[k..] + [p];
    assert (ps[k..] + [p])[..|ps[k..]|] == ps[k..];
  }

  /** The failure counts and the records added since position k0 account
      for every item taken from the backlog so far. */
  ghost predicate Tally(failed: map<string, int>, rs: seq<Record>, k0: nat, done: seq<Item>)
  {
    k0 <= |rs| && forall n :: Get(failed, n) + CountPacked(rs[k0..], n) == CountName(done, n)
  }

  /** A failed entry adds one to its name's failure count. */
  lemma TallyFailed(failed: map<string, int>, rs: seq<Record>, k0: nat, done: seq<Item>, it: Item)
    requires Tally(failed, rs, k0, done)
    ensures Tally(failed[it.name := Get(failed, it.name) + 1], rs, k0, done + [it])
  {
    forall n ensures CountName(done + [it], n) == CountName(done, n) + (if it.name == n then 1 else 0) {
      CountNameSplit(done, [it], n);
      assert [it][1..] == [];
    }
  }

  /** A placed entry adds one record of its name. */
  lemma TallyPlaced(failed: map<string, int>, rs: seq<Record>, k0: nat, done: seq<Item>, it: Item, r: Record)
    requires Tally(failed, rs, k0, done) && r.name == it.name
    ensures Tally(failed, rs + [r], k0, done + [it])
  {
    forall n ensures Get(failed, n) + CountPacked((rs + [r])[k0..], n) == CountName(done + [it], n) {
      CountNameSplit(done, [it], n);
      assert [it][1..] == [];
      CountPackedAppend(rs, k0, r, n);
    }
  }

  /** Once the whole sorted backlog is taken, the tally covers the backlog as
      it was before sorting. */
  lemma TallyResorted(failed: map<string, int>, rs: seq<Record>, k0: nat, s: seq<Item>)
    requires AllShaped(s) && Tally(failed, rs, k0, SortBacklog(s))
    ensures forall n :: Get(failed, n) + CountPacked(rs[k0..], n) == CountName(s, n)
  {
    forall n ensures CountName(SortBacklog(s), n) == CountName(s, n) {
      SortBacklogCounts(s, n);
    }
  }

  /** Sorting keeps every entry placeable. */
  lemma SortKeepsPlaceable(c: Container, s: seq<Item>)
    requires AllPlaceable(c, s)
    ensures AllShaped(s)
    ensures AllPlaceable(c, SortBacklog(s))
  {
    var t := SortBacklog(s);
    forall k | 0 <= k < |t| ensures Placeable(c, t[k]) {
      assert t[k] in multiset(s);
      var u :| 0 <= u < |s| && s[u] == t[k];
    }
  }

  /** Taking one more element of s extends the prefix by that element. */
  lemma TakeOneMore<T>(s: seq<T>, i: nat)
    requires i < |s|
    ensures s[..i + 1] == s[..i] + [s[i]]
  {
  }

  /** Appending leaves every prefix of the old sequence in place. */
  lemma AppendKeepsPrefix<T>(s: seq<T>, x: T, k: nat)
    requires k <= |s|
    ensures (s + [x])[..k] == s[..k]
  {
  }

  /** What pack's loop keeps after taking the entries `done` from the sorted
      backlog, starting from placements ps0, records rs0 and weight w0: the
      old history is a prefix of the new one, every placed shape is
      well formed, the failure counts and the new records account for
      `done`, the weight cap holds if it held at the start, and `total` is
      the volume placed since the start. */
  ghost predicate Accounted(ps0: seq<Placement>, rs0: seq<Record>, w0: real, cap: real,
                            ps: seq<Placement>, rs: seq<Record>, weight: real,
                            failed: map<string, int>, done: seq<Item>, total: real)
  {
    |ps0| <= |ps| && ps[..|ps0|] == ps0 && |rs0| <= |rs| && rs[..|rs0|] == rs0 &&
    (forall k :: 0 <= k < |ps| ==> ps[k].shape.WellFormed()) &&
    Tally(failed, rs, |rs0|, done) &&
    (w0 <= cap ==> weight <= cap) &&
    total == TotalVolume(ps[|ps0|..])
  }

  /** Before the first entry, nothing is counted and nothing is placed. */
  lemma AccountedStart(ps: seq<Placement>, rs: seq<Record>, w: real, cap: real)
    requires forall k :: 0 <= k < |ps| ==> ps[k].shape.WellFormed()
    ensures Accounted(ps, rs, w, cap, ps, rs, w, map[], [], 0.0)
  {
    assert ps[|ps|..] == [] && rs[|rs|..] == [];
  }

  /** An entry that fails adds one to its name's failure count and changes
      nothing else. */
  lemma AccountedFailed(ps0: seq<Placement>, rs0: seq<Record>, w0: real, cap: real,
                        ps: seq<Placement>, rs: seq<Record>, weight: real,
                        failed: map<string, int>, done: seq<Item>, it: Item, total: real,
                        failed': map<string, int>)
    requires Accounted(ps0, rs0, w0, cap, ps, rs, weight, failed, done, total)
    requires failed' == failed[it.name := Get(failed, it.name) + 1]
    ensures Accounted(ps0, rs0, w0, cap, ps, rs, weight, failed', done + [it], total)
  {
    TallyFailed(failed, rs, |rs0|, done, it);
  }

  /** An entry that is placed appends its placement p and its record r,
      keeps the weight under the cap and adds p's contribution to the total. */
  lemma AccountedPlaced(ps0: seq<Placement>, rs0: seq<Record>, w0: real, cap: real,
                        ps: seq<Placement>, rs: seq<Record>, weight: real,
                        failed: map<string, int>, done: seq<Item>, it: Item, total: real,
                        p: Placement, r: Record,
                        ps': seq<Placement>, rs': seq<Record>, weight': real, total': real)
    requires Accounted(ps0, rs0, w0, cap, ps, rs, weight, failed, done, total)
    requires p.shape.WellFormed() && r.name == it.name && weight' <= cap
    requires ps' == ps + [p] && rs' == rs + [r] && total' == total + Contribution(p)
    ensures Accounted(ps0, rs0, w0, cap, ps', rs', weight', failed, done + [it], total')
  {
    TallyPlaced(failed, rs, |rs0|, done, it, r);
    AppendKeepsPrefix(rs, r, |rs0|);
    AppendKeepsPrefix(ps, p, |ps0|);
    TotalVolumeAppend(ps, |ps0|, p);
  }

  /** Every orientation of a placeable item can be searched. */
  lemma PlaceableSearchable(c: Container, it: Item)
    requires Placeable(c, it)
    ensures Searchable(Orientations(c, it))
  {
    var rots := Orientations(c, it);
    forall o | 0 <= o < |rots| ensures rots[o].WellFormed() && rots[o].h > 0 && rots[o].d > 0 {
      NonEmptyExtents(rots[o]);
    }
  }

  /** Two grids with the same extents and the same cell values are equal. */
  lemma GridEquality(a: Grid, b: Grid)
    requires a.WellFormed() && b.WellFormed() && a.l0 == b.l0 && a.l1 == b.l1 && a.l2 == b.l2
    requires forall p, q, r :: 0 <= p < a.l0 && 0 <= q < a.l1 && 0 <= r < a.l2 ==> a.v[p][q][r] == b.v[p][q][r]
    ensures a == b
  {
    forall p | 0 <= p < a.l0 ensures a.v[p] == b.v[p] {
      forall q | 0 <= q < a.l1 ensures a.v[p][q] == b.v[p][q] {
      }
    }
  }

  /** rs holds one record per placement, each describing its placement,
      whose mask has a filled voxel. */
  ghost predicate Described(ps: seq<Placement>, rs: seq<Record>)
  {
    |rs| == |ps| &&
    (ps == [] ||
     var n := |ps| - 1;
     Described(ps[..n], rs[..n]) && NonEmpty(ps[n].shape) &&
     rs[n] == MakeRecord(ps[n].item, ps[n].shape, ps[n].x, ps[n].y, ps[n].z))
  }

  /** Each record describes the placement at the same index. */
  lemma {:induction false} DescribedAt(ps: seq<Placement>, rs: seq<Record>, k: nat)
    requires Described(ps, rs) && k < |ps|
    ensures NonEmpty(ps[k].shape) && rs[k] == MakeRecord(ps[k].item, ps[k].shape, ps[k].x, ps[k].y, ps[k].z)
  {
    var n := |ps| - 1;
    if k < n {
      DescribedAt(ps[..n], rs[..n], k);
    }
  }

  lemma CoveredAppend(ps: seq<Placement>, p: Placement)
    requires forall k :: 0 <= k < |ps| ==> ps[k].shape.WellFormed()
    requires p.shape.WellFormed()
    ensures Covered(ps + [p]) == Covered(ps) + Footprint(p.shape, p.x, p.y, p.z)
  {
    assert (ps + [p])[..|ps|] == ps;
  }

  /** No two placements share a grid cell. */
  lemma {:induction false} DisjointPairwise(ps: seq<Placement>, i: nat, j: nat)
    requires forall k :: 0 <= k < |ps| ==> ps[k].shape.WellFormed()
    requires Disjoint(ps) && i < j < |ps|
    ensures Footprint(ps[i].shape, ps[i].x, ps[i].y, ps[i].z) !! Footprint(ps[j].shape, ps[j].x, ps[j].y, ps[j].z)
  {
    var prefix := ps[..|ps| - 1];
    if j == |ps| - 1 {
      CoveredContains(prefix, i);
    } else {
      DisjointPairwise(prefix, i, j);
    }
  }

  lemma TotalWeightAppend(rs: seq<Record>, r: Record)
    ensures TotalWeight(rs + [r]) == TotalWeight(rs) + r.weight
  {
    assert (rs + [r])[..|rs|] == rs;
  }

  /** Stamping a fitting mask keeps the grid 0/1 and equal to the cells
      covered by the placements, now including the new one, which meets none
      of the earlier ones. */
  lemma StampCovers(g: Grid, ps: seq<Placement>, p: Placement)
    requires g.WellFormed() && g.Binary() && p.shape.WellFormed()
    requires forall k :: 0 <= k < |ps| ==> ps[k].shape.WellFormed()
    requires OccupiedCells(g) == Covered(ps) && Disjoint(ps) && CheckFit(g, p.x, p.y, p.z, p.shape)
    ensures Stamp(g, p.x, p.y, p.z, p.shape).Binary()
    ensures OccupiedCells(Stamp(g, p.x, p.y, p.z, p.shape)) == Covered(ps + [p])
    ensures Disjoint(ps + [p])
  {
    StampKeepsBinary(g, p.x, p.y, p.z, p.shape);
    StampOccupies(g, p.x, p.y, p.z, p.shape);
    CoveredAppend(ps, p);
    FitIsDisjoint(g, p.x, p.y, p.z, p.shape);
  }

  lemma DescribedAppend(ps: seq<Placement>, rs: seq<Record>, p: Placement)
    requires Described(ps, rs) && NonEmpty(p.shape)
    ensures Described(ps + [p], rs + [MakeRecord(p.item, p.shape, p.x, p.y, p.z)])
  {
    assert (ps + [p])[..|ps|] == ps;
    assert (rs + [MakeRecord(p.item, p.shape, p.x, p.y, p.z)])[..|rs|] == rs;
  }

  /** Each placement is well formed and fitted the grid made from base by
      the placements before it. */
  ghost predicate Fits(base: Grid, ps: seq<Placement>)
    requires base.WellFormed()
    decreases |ps|, 0
  {
    ps == [] ||
    var last := ps[|ps| - 1];
    Fits(base, ps[..|ps| - 1]) && last.shape.WellFormed() &&
    CheckFit(Layout(base, ps[..|ps| - 1]), last.x, last.y, last.z, last.shape)
  }

  /** The grid made from base by stamping the placements in order. */
  ghost function Layout(base: Grid, ps: seq<Placement>): (g: Grid)
    requires base.WellFormed() && Fits(base, ps)
    ensures g.WellFormed() && g.l0 == base.l0 && g.l1 == base.l1 && g.l2 == base.l2
    decreases |ps|, 1
  {
    if ps == [] then base
    else
      var last := ps[|ps| - 1];
      Stamp(Layout(base, ps[..|ps| - 1]), last.x, last.y, last.z, last.shape)
  }

  /** A placement that fits extends the layout by its stamp. */
  lemma LayoutAppend(base: Grid, ps: seq<Placement>, p: Placement)
    requires base.WellFormed() && Fits(base, ps) && p.shape.WellFormed()
    requires CheckFit(Layout(base, ps), p.x, p.y, p.z, p.shape)
    ensures Fits(base, ps + [p])
    ensures Layout(base, ps + [p]) == Stamp(Layout(base, ps), p.x, p.y, p.z, p.shape)
  {
    assert (ps + [p])[..|ps|] == ps;
  }

  /** Every placement of a fitting sequence is well formed. */
  lemma {:induction false} FitsFormed(base: Grid, ps: seq<Placement>)
    requires base.WellFormed() && Fits(base, ps)
    ensures forall k :: 0 <= k < |ps| ==> ps[k].shape.WellFormed()
  {
    if ps != [] {
      FitsFormed(base, ps[..|ps| - 1]);
    }
  }

  /** Stamping fitting placements one after another onto an empty grid
      leaves every cell 0 or 1, occupied exactly where some placement is,
      and no two placements overlap. */
  lemma {:induction false} LayoutConsistent(base: Grid, ps: seq<Placement>)
    requires base.WellFormed() && base.Binary() && OccupiedCells(base) == {} && Fits(base, ps)
    ensures forall k :: 0 <= k < |ps| ==> ps[k].shape.WellFormed()
    ensures Layout(base, ps).Binary()
    ensures OccupiedCells(Layout(base, ps)) == Covered(ps)
    ensures Disjoint(ps)
  {
    if ps != [] {
      var prefix, last := ps[..|ps| - 1], ps[|ps| - 1];
      LayoutConsistent(base, prefix);
      StampCovers(Layout(base, prefix), prefix, last);
      assert prefix + [last] == ps;
    }
  }

  /** The engine's state, as values, for a grid of extents (l0, l1, l2):
      the grid is the empty one with the placements stamped on in order,
      each of which fitted when it was placed; each record describes its
      placement; the weight is the records' total. */
  ghost predicate Consistent(l0: nat, l1: nat, l2: nat, g: Grid, ps: seq<Placement>, rs: seq<Record>, weight: real)
  {
    Fits(Zeros(l0, l1, l2), ps) && g == Layout(Zeros(l0, l1, l2), ps) &&
    Described(ps, rs) &&
    weight == TotalWeight(rs)
  }

  /** Placing a fitting, non-empty mask keeps the state consistent. */
  lemma PlacementKeepsConsistent(l0: nat, l1: nat, l2: nat, g: Grid, ps: seq<Placement>, rs: seq<Record>,
                                 weight: real, it: Item, m: Mask, x: nat, y: nat, z: nat)
    requires Consistent(l0, l1, l2, g, ps, rs, weight) && NonEmpty(m) && CheckFit(g, x, y, z, m)
    ensures Consistent(l0, l1, l2, Stamp(g, x, y, z, m), ps + [Placement(it, m, x, y, z)],
                       rs + [MakeRecord(it, m, x, y, z)], weight + it.weight)
  {
    var p := Placement(it, m, x, y, z);
    LayoutAppend(Zeros(l0, l1, l2), ps, p);
    DescribedAppend(ps, rs, p);
    TotalWeightAppend(rs, MakeRecord(it, m, x, y, z));
  }


  // ---------------------------------------------------------------------------
  // The engine's invariant

  /** The snapshot g holds the grid array's extents and values. */
  ghost predicate Mirrors(grid: array3<int>, g: Grid)
    reads grid
  {
    g.WellFormed() &&
    g.l0 == grid.Length0 && g.l1 == grid.Length1 && g.l2 == grid.Length2 &&
    forall p, q, r {:trigger grid[p, q, r]} :: 0 <= p < grid.Length0 && 0 <= q < grid.Length1 && 0 <= r < grid.Length2 ==>
      grid[p, q, r] == g.v[p][q][r]
  }

  /** The grid spans the container in whole cells (width, depth, height);
      g mirrors it and, with the placements, records and weight, is
      consistent. */
  ghost predicate Sound(c: Container, grid: array3<int>, g: Grid, ps: seq<Placement>, rs: seq<Record>, weight: real)
    reads grid
  {
    ValidContainer(c) &&
    grid.Length0 == GridCells(c.width) &&
    grid.Length1 == GridCells(c.depth) &&
    grid.Length2 == GridCells(c.height) &&
    Mirrors(grid, g) &&
    Consistent(grid.Length0, grid.Length1, grid.Length2, g, ps, rs, weight)
  }

  /** place_item keeps the engine sound: once the grid array holds the
      stamped snapshot, the extended history is consistent with it. */
  lemma PlacementKeepsSound(c: Container, grid: array3<int>, g: Grid, g': Grid, ps: seq<Placement>,
                            rs: seq<Record>, weight: real, it: Item, m: Mask, x: nat, y: nat, z: nat)
    requires ValidContainer(c) && grid.Length0 == GridCells(c.width) &&
             grid.Length1 == GridCells(c.depth) && grid.Length2 == GridCells(c.height)
    requires Consistent(grid.Length0, grid.Length1, grid.Length2, g, ps, rs, weight)
    requires NonEmpty(m) && CheckFit(g, x, y, z, m)
    requires Mirrors(grid, g') && g' == Stamp(g, x, y, z, m)
    ensures Sound(c, grid, g', ps + [Placement(it, m, x, y, z)], rs + [MakeRecord(it, m, x, y, z)],
                  weight + it.weight)
  {
    PlacementKeepsConsistent(grid.Length0, grid.Length1, grid.Length2, g, ps, rs, weight, it, m, x, y, z);
  }

  // ---------------------------------------------------------------------------
  // How each placement was chosen

  /** p was the search's answer on grid g: its shape is one of the item's
      orientations and, at p's position, that orientation is the best
      candidate of the search. */
  ghost predicate ChosenAt(c: Container, g: Grid, p: Placement)
    requires g.WellFormed()
  {
    ItemDefined(p.item) && Searchable(Orientations(c, p.item)) &&
    exists o :: 0 <= o < |Orientations(c, p.item)| && Orientations(c, p.item)[o] == p.shape &&
      IsBest(g, Orientations(c, p.item), Cand(o, p.x, p.y, p.z))
  }

  /** Every placement from index k0 on was the search's answer on the grid
      made from base by the placements before it. */
  ghost predicate Chosen(c: Container, base: Grid, ps: seq<Placement>, k0: nat)
    requires base.WellFormed()
  {
    forall k :: k0 <= k < |ps| ==> Fits(base, ps[..k]) && ChosenAt(c, Layout(base, ps[..k]), ps[k])
  }

  /** What a chosen placement promises: its shape is one of the item's
      orientations; it fits, is supported (on the floor or over at least 30 %
      of its bottom layer) and is stable where it was put; and no admissible
      candidate of the same search was lower, nor as low with more contact. */
  lemma ChosenMeaning(c: Container, base: Grid, ps: seq<Placement>, k0: nat, k: nat)
    requires base.WellFormed() && Chosen(c, base, ps, k0) && k0 <= k < |ps|
    ensures Fits(base, ps[..k])
    ensures var g, p := Layout(base, ps[..k]), ps[k];
      ItemDefined(p.item) && p.shape in Orientations(c, p.item) && Searchable(Orientations(c, p.item)) &&
      p.shape.WellFormed() && p.shape.h > 0 && p.shape.d > 0 &&
      CheckFit(g, p.x, p.y, p.z, p.shape) &&
      HasSupport(g, p.x, p.y, p.z, p.shape) && CheckStability(g, p.x, p.y, p.z, p.shape) &&
      forall d :: Admissible(g, Orientations(c, p.item), d) ==>
        p.z <= d.z &&
        (d.z == p.z ==> Score(g, Orientations(c, p.item), d) <= Contact(g, p.x, p.y, p.z, p.shape))
  {
    var g, p := Layout(base, ps[..k]), ps[k];
    var rots := Orientations(c, p.item);
    var o :| 0 <= o < |rots| && rots[o] == p.shape && IsBest(g, rots, Cand(o, p.x, p.y, p.z));
    forall d | Admissible(g, rots, d)
      ensures p.z <= d.z && (d.z == p.z ==> Score(g, rots, d) <= Contact(g, p.x, p.y, p.z, p.shape))
    {
      BestIsLowest(g, rots, Cand(o, p.x, p.y, p.z), d);
    }
  }

  /** Appending the search's best candidate b on the current layout keeps
      the history chosen. */
  lemma ChosenPlaced(c: Container, base: Grid, ps: seq<Placement>, k0: nat, it: Item, rots: seq<Mask>, b: Cand)
    requires base.WellFormed() && Fits(base, ps) && Chosen(c, base, ps, k0)
    requires ItemDefined(it) && rots == Orientations(c, it) && Searchable(rots)
    requires IsBest(Layout(base, ps), rots, b)
    ensures Chosen(c, base, ps + [Placement(it, rots[b.o], b.x, b.y, b.z)], k0)
  {
    var p := Placement(it, rots[b.o], b.x, b.y, b.z);
    var ps' := ps + [p];
    forall k | k0 <= k < |ps'|
      ensures Fits(base, ps'[..k]) && ChosenAt(c, Layout(base, ps'[..k]), ps'[k])
    {
      if k < |ps| {
        assert ps'[..k] == ps[..k];
        assert ps'[k] == ps[k];
      } else {
        assert ps'[..k] == ps;
        assert Cand(b.o, p.x, p.y, p.z) == b;
      }
    }
  }
}

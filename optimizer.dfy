module Optimizer {
  import opened Masks
  import opened Cargo
  import opened Rotations
  import opened Space
  import opened Search
  import opened Backlog
  import opened Ledger
  import opened Run

  class PackingOptimizer {
    const container: Container
    var items: seq<Item>
    var packed: seq<Record>
    var spaceUtilization: real
    /** Occupancy counts, axes (width, depth, height) in cells. */
    const grid: array3<int>
    var currentWeight: real
    /** The grid's values, and what was placed, for the proofs. */
    ghost var space: Grid
    ghost var placements: seq<Placement>

    /** The first n cells of the grid row at (p, q). */
    function RowOf(p: nat, q: nat, n: nat): (s: seq<int>)
      requires p < grid.Length0 && q < grid.Length1 && n <= grid.Length2
      reads grid
      ensures |s| == n
    {
      if n == 0 then [] else RowOf(p, q, n - 1) + [grid[p, q, n - 1]]
    }

    /** The first n rows of the grid plane at p. */
    function PlaneOf(p: nat, n: nat): (s: seq<seq<int>>)
      requires p < grid.Length0 && n <= grid.Length1
      reads grid
      ensures |s| == n && forall q :: 0 <= q < n ==> |s[q]| == grid.Length2
    {
      if n == 0 then [] else PlaneOf(p, n - 1) + [RowOf(p, n - 1, grid.Length2)]
    }

    /** The first n planes of the grid. */
    function PlanesOf(n: nat): (s: seq<seq<seq<int>>>)
      requires n <= grid.Length0
      reads grid
      ensures |s| == n
      ensures forall p :: 0 <= p < n ==> |s[p]| == grid.Length1 && forall q :: 0 <= q < grid.Length1 ==> |s[p][q]| == grid.Length2
    {
      if n == 0 then [] else PlanesOf(n - 1) + [PlaneOf(n - 1, grid.Length1)]
    }

    /** The grid's current values. */
    function Contents(): (g: Grid)
      reads grid
      ensures g.WellFormed() && g.l0 == grid.Length0 && g.l1 == grid.Length1 && g.l2 == grid.Length2
    {
      Grid(grid.Length0, grid.Length1, grid.Length2, PlanesOf(grid.Length0))
    }

    lemma {:induction false} RowOfValues(p: nat, q: nat, n: nat)
      requires p < grid.Length0 && q < grid.Length1 && n <= grid.Length2
      ensures forall r :: 0 <= r < n ==> RowOf(p, q, n)[r] == grid[p, q, r]
    {
      if n > 0 {
        RowOfValues(p, q, n - 1);
      }
    }

    lemma {:induction false} PlaneOfValues(p: nat, n: nat)
      requires p < grid.Length0 && n <= grid.Length1
      ensures forall q :: 0 <= q < n ==> PlaneOf(p, n)[q] == RowOf(p, q, grid.Length2)
    {
      if n > 0 {
        PlaneOfValues(p, n - 1);
      }
    }

    lemma {:induction false} PlanesOfValues(n: nat)
      requires n <= grid.Length0
      ensures forall p :: 0 <= p < n ==> PlanesOf(n)[p] == PlaneOf(p, grid.Length1)
    {
      if n > 0 {
        PlanesOfValues(n - 1);
      }
    }

    /** Contents() holds the grid's values cell by cell. */
    lemma ContentsValues()
      ensures forall p, q, r :: 0 <= p < grid.Length0 && 0 <= q < grid.Length1 && 0 <= r < grid.Length2 ==>
        Contents().v[p][q][r] == grid[p, q, r]
    {
      PlanesOfValues(grid.Length0);
      forall p | 0 <= p < grid.Length0
        ensures forall q, r :: 0 <= q < grid.Length1 && 0 <= r < grid.Length2 ==> Contents().v[p][q][r] == grid[p, q, r]
      {
        PlaneOfValues(p, grid.Length1);
        forall q | 0 <= q < grid.Length1
          ensures forall r :: 0 <= r < grid.Length2 ==> Contents().v[p][q][r] == grid[p, q, r]
        {
          RowOfValues(p, q, grid.Length2);
        }
      }
    }

    lemma ContentsIsSpace()
      requires Mirrors(grid, space)
      ensures Contents() == space
    {
      ContentsValues();
      GridEquality(Contents(), space);
    }

    /** The engine's invariant, over its current state. */
    ghost predicate Valid()
      reads this`space, this`placements, this`packed, this`currentWeight, grid
    {
      Sound(container, grid, space, placements, packed, currentWeight)
    }

    /** In a valid engine every placed orientation is well formed. */
    lemma ShapesFormed()
      requires Valid()
      ensures forall k :: 0 <= k < |placements| ==> placements[k].shape.WellFormed()
    {
      FitsFormed(Zeros(grid.Length0, grid.Length1, grid.Length2), placements);
    }

    /** In a valid engine no grid cell is counted twice, the occupied cells
        are exactly those of the placements, and no two placements share a
        cell. */
    lemma NoOverlap()
      requires Valid()
      ensures forall k :: 0 <= k < |placements| ==> placements[k].shape.WellFormed()
      ensures space.Binary() && OccupiedCells(space) == Covered(placements)
      ensures forall i, j :: 0 <= i < j < |placements| ==>
        Footprint(placements[i].shape, placements[i].x, placements[i].y, placements[i].z) !!
        Footprint(placements[j].shape, placements[j].x, placements[j].y, placements[j].z)
    {
      ZerosEmpty(grid.Length0, grid.Length1, grid.Length2);
      LayoutConsistent(Zeros(grid.Length0, grid.Length1, grid.Length2), placements);
      forall i, j | 0 <= i < j < |placements|
        ensures Footprint(placements[i].shape, placements[i].x, placements[i].y, placements[i].z) !!
          Footprint(placements[j].shape, placements[j].x, placements[j].y, placements[j].z)
      {
        DisjointPairwise(placements, i, j);
      }
    }

    /** An empty container: a zero grid of (width, depth, height) cells, no
        items, no records, no weight. */
    constructor (c: Container)
      requires ValidContainer(c)
      ensures Valid() && fresh(grid)
      ensures container == c && items == [] && packed == [] && placements == []
      ensures spaceUtilization == 0.0 && currentWeight == 0.0
      ensures space == Zeros(GridCells(c.width), GridCells(c.depth), GridCells(c.height))
    {
      container := c;
      items := [];
      packed := [];
      spaceUtilization := 0.0;
      grid := new int[GridCells(c.width), GridCells(c.depth), GridCells(c.height)]((p, q, r) => 0);
      currentWeight := 0.0;
      space := Zeros(GridCells(c.width), GridCells(c.depth), GridCells(c.height));
      placements := [];
      new;
    }

    /** add_item: appends quantity copies of the item to the backlog. */
    method AddItem(it: Item)
      requires Valid()
      modifies this
      ensures Valid()
      ensures items == old(items) + Repeat(it, it.quantity)
      ensures packed == old(packed) && placements == old(placements) && space == old(space)
      ensures currentWeight == old(currentWeight) && spaceUtilization == old(spaceUtilization)
    {
      items := items + Repeat(it, it.quantity);
    }

    /** find_best_position: the orientations of the item and the best
        admissible candidate among them, if any. */
    method FindBestPosition(it: Item) returns (best: Option<Cand>, rots: seq<Mask>)
      requires Valid() && Placeable(container, it)
      ensures rots == Orientations(container, it) && Searchable(rots)
      ensures best.None? <==> forall c :: !Admissible(space, rots, c)
      ensures best.Some? ==> IsBest(space, rots, best.value)
    {
      rots := GetPossibleRotations(container, it);
      PlaceableSearchable(container, it);
      var g := Contents();
      ContentsIsSpace();
      best := SearchBest(g, rots);
    }

    /** The slice update of place_item: the mask's voxels are added to the
        grid cells of its block at (x, y, z); it is written over the whole
        grid, where cells outside the block add 0. */
    method AddMask(x: nat, y: nat, z: nat, m: Mask)
      requires Mirrors(grid, space) && m.WellFormed() && InBounds(space, x, y, z, m)
      modifies this`space, grid
      ensures Mirrors(grid, space) && space == Stamp(old(space), x, y, z, m)
    {
      forall p, q, r | 0 <= p < grid.Length0 && 0 <= q < grid.Length1 && 0 <= r < grid.Length2 {
        grid[p, q, r] := grid[p, q, r] + Cover(m, x, y, z, p, q, r);
      }
      space := Stamp(space, x, y, z, m);
    }

    /** The bookkeeping of place_item: the record and weight of a placement
        whose voxels are already on the grid. */
    method Commit(p: Placement, r: Record)
      requires Sound(container, grid, space, placements + [p], packed + [r], currentWeight + p.item.weight)
      modifies this`packed, this`currentWeight, this`placements
      ensures Valid()
      ensures packed == old(packed) + [r] && placements == old(placements) + [p]
      ensures currentWeight == old(currentWeight) + p.item.weight
    {
      ghost var ps, rs, w := placements + [p], packed + [r], currentWeight + p.item.weight;
      packed := packed + [r];
      currentWeight := currentWeight + p.item.weight;
      placements := placements + [p];
      assert placements == ps && packed == rs && currentWeight == w;
    }

    /** place_item: adds the mask's voxels to the grid at (x, y, z), records
        the bounding box of its filled voxels and adds the item's weight. */
    method PlaceItem(x: nat, y: nat, z: nat, it: Item, m: Mask)
      requires Valid() && NonEmpty(m) && CheckFit(space, x, y, z, m)
      modifies this`space, this`packed, this`currentWeight, this`placements, grid
      ensures Valid()
      ensures space == Stamp(old(space), x, y, z, m)
      ensures packed == old(packed) + [MakeRecord(it, m, x, y, z)]
      ensures placements == old(placements) + [Placement(it, m, x, y, z)]
      ensures currentWeight == old(currentWeight) + it.weight
    {
      ghost var g := space;
      AddMask(x, y, z, m);
      PlacementKeepsSound(container, grid, g, space, placements, packed, currentWeight, it, m, x, y, z);
      Commit(Placement(it, m, x, y, z), MakeRecord(it, m, x, y, z));
    }

    /** One entry of pack's loop. An item that would exceed the weight cap
        changes nothing but its failure count; otherwise it is placed at the
        best candidate of the search and its volume is added to the total, or
        it is counted as failed when there is none. The choice made is
        reported for the proofs, and the loop's accounting since the state
        (ps0, rs0, w0) it started from is kept, `done` being the entries
        already taken. */
    method PackItem(it: Item, failed0: map<string, int>, total0: real,
                    ghost ps0: seq<Placement>, ghost rs0: seq<Record>, ghost w0: real, ghost done: seq<Item>,
                    ghost outs0: seq<Option<Cand>>)
      returns (failed: map<string, int>, total: real, ghost choice: Option<Cand>)
      requires Valid()
      requires currentWeight + it.weight <= container.maxWeight ==> Placeable(container, it)
      requires Accounted(ps0, rs0, w0, container.maxWeight, placements, packed, currentWeight,
                         failed0, done, total0)
      requires Chosen(container, Zeros(grid.Length0, grid.Length1, grid.Length2), placements, |ps0|)
      requires Ran(container, Zeros(grid.Length0, grid.Length1, grid.Length2), ps0, w0, done, outs0,
                   placements, currentWeight)
      requires Failures(failed0, done, outs0)
      modifies this`space, this`packed, this`currentWeight, this`placements, grid
      ensures Valid()
      ensures Accounted(ps0, rs0, w0, container.maxWeight, placements, packed, currentWeight,
                        failed, done + [it], total)
      ensures Chosen(container, Zeros(grid.Length0, grid.Length1, grid.Length2), placements, |ps0|)
      ensures Ran(container, Zeros(grid.Length0, grid.Length1, grid.Length2), ps0, w0, done + [it],
                  outs0 + [choice], placements, currentWeight)
      ensures Failures(failed, done + [it], outs0 + [choice])
      ensures old(currentWeight) + it.weight > container.maxWeight ==> choice.None?
      ensures choice.None? ==>
        failed == failed0[it.name := Get(failed0, it.name) + 1] && total == total0 &&
        packed == old(packed) && placements == old(placements) && space == old(space) &&
        currentWeight == old(currentWeight)
      ensures choice.None? && old(currentWeight) + it.weight <= container.maxWeight ==>
        forall c :: !Admissible(space, Orientations(container, it), c)
      ensures choice.Some? ==>
        old(currentWeight) + it.weight <= container.maxWeight &&
        var c, rots := choice.value, Orientations(container, it);
        Searchable(rots) && IsBest(old(space), rots, c) &&
        failed == failed0 &&
        space == Stamp(old(space), c.x, c.y, c.z, rots[c.o]) &&
        placements == old(placements) + [Placement(it, rots[c.o], c.x, c.y, c.z)] &&
        packed == old(packed) + [MakeRecord(it, rots[c.o], c.x, c.y, c.z)] &&
        currentWeight == old(currentWeight) + it.weight &&
        total == total0 + Contribution(Placement(it, rots[c.o], c.x, c.y, c.z))
    {
      ghost var base := Zeros(grid.Length0, grid.Length1, grid.Length2);
      if currentWeight + it.weight > container.maxWeight {
        failed, total, choice := failed0[it.name := Get(failed0, it.name) + 1], total0, None;
        AccountedFailed(ps0, rs0, w0, container.maxWeight, placements, packed, currentWeight, failed0, done, it,
                        total, failed);
        RanFailed(container, base, ps0, w0, done, outs0, placements, currentWeight, failed0, it);
        return;
      }
      var best, rots := FindBestPosition(it);
      if best.Some? {
        var c := best.value;
        var m := rots[c.o];
        ghost var ps, rs, weight := placements, packed, currentWeight;
        ChosenPlaced(container, base, ps, |ps0|, it, rots, c);
        RanPlaced(container, base, ps0, w0, done, outs0, ps, weight, failed0, it, c, Placement(it, m, c.x, c.y, c.z));
        PlaceItem(c.x, c.y, c.z, it, m);
        failed, total, choice := failed0, total0 + Contribution(Placement(it, m, c.x, c.y, c.z)), best;
        AccountedPlaced(ps0, rs0, w0, container.maxWeight, ps, rs, weight, failed, done, it, total0,
                        Placement(it, m, c.x, c.y, c.z), MakeRecord(it, m, c.x, c.y, c.z),
                        placements, packed, currentWeight, total);
      } else {
        failed, total, choice := failed0[it.name := Get(failed0, it.name) + 1], total0, None;
        AccountedFailed(ps0, rs0, w0, container.maxWeight, placements, packed, currentWeight, failed0, done, it,
                        total, failed);
        RanFailed(container, base, ps0, w0, done, outs0, placements, currentWeight, failed0, it);
      }
    }

    /** pack's loop over the (already sorted) backlog: tries every entry in
        order, counting failures per name and summing the volume placed. */
    method PackBacklog() returns (failed: map<string, int>, total: real, ghost outcomes: seq<Option<Cand>>)
      requires Valid()
      requires AllPlaceable(container, items)
      modifies this`space, this`packed, this`currentWeight, this`placements, grid
      ensures Valid()
      ensures Accounted(old(placements), old(packed), old(currentWeight), container.maxWeight,
                        placements, packed, currentWeight, failed, items, total)
      ensures Chosen(container, Zeros(grid.Length0, grid.Length1, grid.Length2), placements, |old(placements)|)
      ensures Ran(container, Zeros(grid.Length0, grid.Length1, grid.Length2), old(placements), old(currentWeight),
                  items, outcomes, placements, currentWeight)
      ensures Failures(failed, items, outcomes)
      ensures total == TotalVolume(placements[|old(placements)|..])
    {
      ghost var ps0, rs0, w0 := placements, packed, currentWeight;
      ShapesFormed();
      AccountedStart(ps0, rs0, w0, container.maxWeight);
      RanStart(container, Zeros(grid.Length0, grid.Length1, grid.Length2), ps0, w0);
      failed, total, outcomes := map[], 0.0, [];
      for i := 0 to |items|
        invariant Valid()
        invariant Accounted(ps0, rs0, w0, container.maxWeight, placements, packed, currentWeight,
                            failed, items[..i], total)
        invariant Chosen(container, Zeros(grid.Length0, grid.Length1, grid.Length2), placements, |ps0|)
        invariant |outcomes| == i
        invariant Ran(container, Zeros(grid.Length0, grid.Length1, grid.Length2), ps0, w0, items[..i], outcomes,
                      placements, currentWeight)
        invariant Failures(failed, items[..i], outcomes)
      {
        ghost var choice;
        failed, total, choice := PackItem(items[i], failed, total, ps0, rs0, w0, items[..i], outcomes);
        outcomes := outcomes + [choice];
        TakeOneMore(items, i);
      }
      assert items[..|items|] == items;
    }

    /** The sort at the head of pack: the backlog in the order of its sort
        key. */
    method SortItems()
      requires AllPlaceable(container, items)
      modifies this`items
      ensures AllShaped(old(items)) && items == SortBacklog(old(items))
      ensures AllPlaceable(container, items)
    {
      SortKeepsPlaceable(container, items);
      items := SortBacklog(items);
    }

    /** pack: sorts the backlog, then tries every entry in order; returns the
        utilisation and the failure count per name. */
    method Pack() returns (util: real, failed: map<string, int>, ghost outcomes: seq<Option<Cand>>)
      requires Valid()
      requires container.width * container.height * container.depth != 0.0
      requires AllPlaceable(container, items)
      modifies this`items, this`space, this`packed, this`currentWeight, this`placements, this`spaceUtilization, grid
      ensures Valid()
      ensures AllShaped(old(items)) && items == SortBacklog(old(items))
      ensures |old(placements)| <= |placements| && placements[..|old(placements)|] == old(placements)
      ensures |old(packed)| <= |packed| && packed[..|old(packed)|] == old(packed)
      ensures forall n :: Get(failed, n) + CountPacked(packed[|old(packed)|..], n) == CountName(old(items), n)
      ensures old(currentWeight) <= container.maxWeight ==> currentWeight <= container.maxWeight
      ensures forall k :: 0 <= k < |placements| ==> placements[k].shape.WellFormed()
      ensures Chosen(container, Zeros(grid.Length0, grid.Length1, grid.Length2), placements, |old(placements)|)
      ensures Ran(container, Zeros(grid.Length0, grid.Length1, grid.Length2), old(placements), old(currentWeight),
                  items, outcomes, placements, currentWeight)
      ensures Failures(failed, items, outcomes)
      ensures util == spaceUtilization
      ensures util == TotalVolume(placements[|old(placements)|..]) /
        (container.width * container.height * container.depth) * 100.0
    {
      SortItems();
      var totalVolume;
      failed, totalVolume, outcomes := PackBacklog();
      TallyResorted(failed, packed, |old(packed)|, old(items));
      spaceUtilization := totalVolume / (container.width * container.height * container.depth) * 100.0;
      util := spaceUtilization;
    }
  }
}


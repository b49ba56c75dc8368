module Run {
  import opened Masks
  import opened Cargo
  import opened Rotations
  import opened Space
  import opened Search
  import opened Ledger

  // ---------------------------------------------------------------------------
  // What became of each entry of pack's loop

  /** The number of entries that were placed. */
  function PlacedCount(outs: seq<Option<Cand>>): (r: nat)
    ensures r <= |outs|
  {
    if outs == [] then 0 else PlacedCount(outs[..|outs| - 1]) + (if outs[|outs| - 1].Some? then 1 else 0)
  }

  /** The total weight of the entries that were placed. */
  function PlacedWeight(done: seq<Item>, outs: seq<Option<Cand>>): real
    requires |outs| == |done|
  {
    if done == [] then 0.0
    else
      PlacedWeight(done[..|done| - 1], outs[..|done| - 1]) +
      (if outs[|done| - 1].Some? then done[|done| - 1].weight else 0.0)
  }

  /** The number of entries with name n that failed. */
  function FailCount(done: seq<Item>, outs: seq<Option<Cand>>, n: string): (r: nat)
    requires |outs| == |done|
    ensures r <= |done|
  {
    if done == [] then 0
    else
      FailCount(done[..|done| - 1], outs[..|done| - 1], n) +
      (if outs[|done| - 1].None? && done[|done| - 1].name == n then 1 else 0)
  }

  /** The failure counts are exactly the failed entries, name by name. */
  ghost predicate Failures(failed: map<string, int>, done: seq<Item>, outs: seq<Option<Cand>>)
    requires |outs| == |done|
  {
    forall n :: Get(failed, n) == FailCount(done, outs, n)
  }

  /** An entry that failed, with the weight w before it and the grid g:
      it would have exceeded the container's weight cap, or no candidate of
      any of its orientations was admissible on g. */
  ghost predicate FailedAt(c: Container, g: Grid, w: real, it: Item)
    requires g.WellFormed()
  {
    w + it.weight > c.maxWeight ||
    (ItemDefined(it) && Searchable(Orientations(c, it)) &&
     forall d :: !Admissible(g, Orientations(c, it), d))
  }

  /** An entry that was placed as p, with the weight w before it and the
      grid g: it was within the weight cap, b was the search's best
      candidate on g, and p puts the entry at b in orientation b.o. */
  ghost predicate PlacedAt(c: Container, g: Grid, w: real, it: Item, b: Cand, p: Placement)
    requires g.WellFormed()
  {
    w + it.weight <= c.maxWeight &&
    ItemDefined(it) && Searchable(Orientations(c, it)) && b.o < |Orientations(c, it)| &&
    p == Placement(it, Orientations(c, it)[b.o], b.x, b.y, b.z) &&
    IsBest(g, Orientations(c, it), b)
  }

  /** Entry k of a run, on the state before it: the placements made
      before it are the first |ps0| + PlacedCount(outs[..k]) of ps, and the
      weight then was w0 plus the weight of the entries placed before it. A
      failed entry failed on that weight and the layout of those placements;
      a placed entry was placed, on them, as the next placement of ps. */
  ghost predicate EntryAt(c: Container, base: Grid, ps0: seq<Placement>, w0: real,
                          done: seq<Item>, outs: seq<Option<Cand>>, ps: seq<Placement>, k: nat)
    requires base.WellFormed() && |outs| == |done| && k < |done|
  {
    var m, w := |ps0| + PlacedCount(outs[..k]), w0 + PlacedWeight(done[..k], outs[..k]);
    m <= |ps| && Fits(base, ps[..m]) &&
    (outs[k].None? ==> FailedAt(c, Layout(base, ps[..m]), w, done[k])) &&
    (outs[k].Some? ==> m < |ps| && PlacedAt(c, Layout(base, ps[..m]), w, done[k], outs[k].value, ps[m]))
  }

  /** The run of pack's loop over the entries `done`, starting from the
      placements ps0 and the weight w0 and ending with the placements ps and
      the weight `weight`: outs[k] is what became of done[k] (None: it
      failed; Some(b): it was placed at b). ps is ps0 followed by one
      placement per placed entry, in order, the weight grew by the weight of
      the placed entries, and every entry is as EntryAt says. */
  ghost predicate Ran(c: Container, base: Grid, ps0: seq<Placement>, w0: real,
                      done: seq<Item>, outs: seq<Option<Cand>>, ps: seq<Placement>, weight: real)
    requires base.WellFormed()
  {
    |outs| == |done| && |ps| == |ps0| + PlacedCount(outs) && ps[..|ps0|] == ps0 &&
    weight == w0 + PlacedWeight(done, outs) &&
    forall k :: 0 <= k < |done| ==> EntryAt(c, base, ps0, w0, done, outs, ps, k)
  }

  /** Before the first entry nothing has happened. */
  lemma RanStart(c: Container, base: Grid, ps: seq<Placement>, w: real)
    requires base.WellFormed()
    ensures Ran(c, base, ps, w, [], [], ps, w)
    ensures Failures(map[], [], [])
  {
  }

  /** One more entry adds its outcome to the counts. */
  lemma CountsAppend(done: seq<Item>, outs: seq<Option<Cand>>, it: Item, o: Option<Cand>)
    requires |outs| == |done|
    ensures PlacedCount(outs + [o]) == PlacedCount(outs) + (if o.Some? then 1 else 0)
    ensures PlacedWeight(done + [it], outs + [o]) == PlacedWeight(done, outs) + (if o.Some? then it.weight else 0.0)
    ensures forall n ::
      FailCount(done + [it], outs + [o], n) == FailCount(done, outs, n) + (if o.None? && it.name == n then 1 else 0)
  {
    assert (done + [it])[..|done|] == done;
    assert (outs + [o])[..|done|] == outs;
  }

  /** An entry keeps what it was when more entries follow it. */
  lemma EntryKept(c: Container, base: Grid, ps0: seq<Placement>, w0: real,
                  done: seq<Item>, outs: seq<Option<Cand>>, ps: seq<Placement>,
                  done': seq<Item>, outs': seq<Option<Cand>>, ps': seq<Placement>, k: nat)
    requires base.WellFormed() && |outs| == |done| && |outs'| == |done'| && k < |done| <= |done'|
    requires done == done'[..|done|] && outs == outs'[..|done|]
    requires |ps| <= |ps'| && ps == ps'[..|ps|]
    requires EntryAt(c, base, ps0, w0, done, outs, ps, k)
    ensures EntryAt(c, base, ps0, w0, done', outs', ps', k)
  {
    assert done'[..k] == done[..k] && outs'[..k] == outs[..k] && done'[k] == done[k] && outs'[k] == outs[k];
    var m := |ps0| + PlacedCount(outs[..k]);
    assert ps'[..m] == ps[..m];
    if outs[k].Some? {
      assert ps'[m] == ps[m];
    }
  }

  /** An entry over the weight cap, or with no admissible candidate, fails,
      adds one to its name's failure count and changes neither the
      placements nor the weight. */
  lemma RanFailed(c: Container, base: Grid, ps0: seq<Placement>, w0: real,
                  done: seq<Item>, outs: seq<Option<Cand>>, ps: seq<Placement>, weight: real,
                  failed: map<string, int>, it: Item)
    requires base.WellFormed() && Fits(base, ps)
    requires Ran(c, base, ps0, w0, done, outs, ps, weight) && Failures(failed, done, outs)
    requires FailedAt(c, Layout(base, ps), weight, it)
    ensures Ran(c, base, ps0, w0, done + [it], outs + [None], ps, weight)
    ensures Failures(failed[it.name := Get(failed, it.name) + 1], done + [it], outs + [None])
  {
    var done', outs' := done + [it], outs + [None];
    CountsAppend(done, outs, it, None);
    assert done == done'[..|done|] && outs == outs'[..|done|] && ps == ps[..|ps|];
    forall k | 0 <= k < |done'| ensures EntryAt(c, base, ps0, w0, done', outs', ps, k) {
      if k < |done| {
        EntryKept(c, base, ps0, w0, done, outs, ps, done', outs', ps, k);
      }
    }
  }

  /** An entry within the weight cap is placed as p at the search's best
      candidate b on the current layout; the failure counts stay. */
  lemma RanPlaced(c: Container, base: Grid, ps0: seq<Placement>, w0: real,
                  done: seq<Item>, outs: seq<Option<Cand>>, ps: seq<Placement>, weight: real,
                  failed: map<string, int>, it: Item, b: Cand, p: Placement)
    requires base.WellFormed() && Fits(base, ps)
    requires Ran(c, base, ps0, w0, done, outs, ps, weight) && Failures(failed, done, outs)
    requires PlacedAt(c, Layout(base, ps), weight, it, b, p)
    ensures Ran(c, base, ps0, w0, done + [it], outs + [Some(b)], ps + [p], weight + it.weight)
    ensures Failures(failed, done + [it], outs + [Some(b)])
  {
    var done', outs', ps' := done + [it], outs + [Some(b)], ps + [p];
    CountsAppend(done, outs, it, Some(b));
    assert done == done'[..|done|] && outs == outs'[..|done|] && ps == ps'[..|ps|];
    assert ps'[..|ps0|] == ps0;
    forall k | 0 <= k < |done'| ensures EntryAt(c, base, ps0, w0, done', outs', ps', k) {
      if k < |done| {
        EntryKept(c, base, ps0, w0, done, outs, ps, done', outs', ps', k);
      } else {
        assert ps'[|ps|] == p;
      }
    }
  }

  // ---------------------------------------------------------------------------
  // What a run promises

  /** A run that placed nothing: every entry was over the cap with the
      starting weight, or had no admissible candidate on the starting
      layout. */
  lemma RanNothingPlaced(c: Container, base: Grid, ps0: seq<Placement>, w0: real,
                         done: seq<Item>, outs: seq<Option<Cand>>, ps: seq<Placement>, weight: real)
    requires base.WellFormed() && Fits(base, ps) && Ran(c, base, ps0, w0, done, outs, ps, weight)
    requires forall k :: 0 <= k < |outs| ==> outs[k].None?
    ensures ps == ps0 && weight == w0
    ensures Fits(base, ps0)
    ensures forall k :: 0 <= k < |done| ==> FailedAt(c, Layout(base, ps0), w0, done[k])
  {
    forall j | 0 <= j <= |outs|
      ensures PlacedCount(outs[..j]) == 0 && PlacedWeight(done[..j], outs[..j]) == 0.0
    {
      NothingPlacedPrefix(done, outs, j);
    }
    assert outs[..|outs|] == outs && done[..|done|] == done;
    assert ps == ps[..|ps0|] == ps0;
    forall k | 0 <= k < |done|
      ensures FailedAt(c, Layout(base, ps0), w0, done[k])
    {
      assert EntryAt(c, base, ps0, w0, done, outs, ps, k);
      assert PlacedCount(outs[..k]) == 0 && PlacedWeight(done[..k], outs[..k]) == 0.0;
    }
  }

  /** Every placement a run added belongs to one placed entry: placement j
      is entry k's, made on the placements before it. */
  lemma RanEveryPlacement(c: Container, base: Grid, ps0: seq<Placement>, w0: real,
                          done: seq<Item>, outs: seq<Option<Cand>>, ps: seq<Placement>, weight: real, j: nat)
    requires base.WellFormed() && Ran(c, base, ps0, w0, done, outs, ps, weight)
    requires |ps0| <= j < |ps|
    ensures exists k ::
      0 <= k < |done| && outs[k].Some? && |ps0| + PlacedCount(outs[..k]) == j && Fits(base, ps[..j]) &&
      PlacedAt(c, Layout(base, ps[..j]), w0 + PlacedWeight(done[..k], outs[..k]), done[k], outs[k].value, ps[j])
  {
    PlacedIndex(outs, j - |ps0|);
    var k :| 0 <= k < |outs| && outs[k].Some? && PlacedCount(outs[..k]) == j - |ps0|;
    EntryPlaced(c, base, ps0, w0, done, outs, ps, k);
  }

  /** What EntryAt says of a placed entry. */
  lemma EntryPlaced(c: Container, base: Grid, ps0: seq<Placement>, w0: real,
                    done: seq<Item>, outs: seq<Option<Cand>>, ps: seq<Placement>, k: nat)
    requires base.WellFormed() && |outs| == |done| && k < |done| && outs[k].Some?
    requires EntryAt(c, base, ps0, w0, done, outs, ps, k)
    ensures var m := |ps0| + PlacedCount(outs[..k]);
      m < |ps| && Fits(base, ps[..m]) &&
      PlacedAt(c, Layout(base, ps[..m]), w0 + PlacedWeight(done[..k], outs[..k]), done[k], outs[k].value, ps[m])
  {
  }

  /** The j-th placed entry: the one before which exactly j entries were
      placed. */
  lemma {:induction false} PlacedIndex(outs: seq<Option<Cand>>, j: nat)
    requires j < PlacedCount(outs)
    ensures exists k :: 0 <= k < |outs| && outs[k].Some? && PlacedCount(outs[..k]) == j
    decreases |outs|
  {
    var n := |outs| - 1;
    if j < PlacedCount(outs[..n]) {
      PlacedIndex(outs[..n], j);
      var k :| 0 <= k < n && outs[..n][k].Some? && PlacedCount(outs[..n][..k]) == j;
      assert outs[..n][..k] == outs[..k];
    } else {
      assert outs[n].Some? && PlacedCount(outs[..n]) == j;
    }
  }

  /** With no entry placed, no prefix counts a placement or a weight. */
  lemma {:induction false} NothingPlacedPrefix(done: seq<Item>, outs: seq<Option<Cand>>, j: nat)
    requires |outs| == |done| && j <= |outs|
    requires forall k :: 0 <= k < |outs| ==> outs[k].None?
    ensures PlacedCount(outs[..j]) == 0 && PlacedWeight(done[..j], outs[..j]) == 0.0
    decreases j
  {
    if j > 0 {
      NothingPlacedPrefix(done, outs, j - 1);
      assert outs[..j][..j - 1] == outs[..j - 1];
      assert done[..j][..j - 1] == done[..j - 1];
    }
  }
}

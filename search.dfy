/** The exhaustive placement search: every orientation, height, width and
    depth offset is tried in that order; the lowest admissible placement wins,
    then the one with the most contact, then the first one found. */
module Search {
  import opened Masks
  import opened Cargo
  import opened Space

  /** A candidate placement: an index into the orientation list and a grid
      position. */
  datatype Cand = Cand(o: nat, x: nat, y: nat, z: nat)

  /** Orientations the search can score: well-formed with positive height
      and depth (the contact score reads the first and last layer and the
      first and last depth slice). */
  predicate Searchable(rots: seq<Mask>)
  {
    forall o :: 0 <= o < |rots| ==> rots[o].WellFormed() && rots[o].h > 0 && rots[o].d > 0
  }

  /** The candidate names an orientation that fits at its position, is
      supported and is stable. */
  predicate Admissible(g: Grid, rots: seq<Mask>, c: Cand)
    requires g.WellFormed() && Searchable(rots)
  {
    c.o < |rots| &&
    CheckFit(g, c.x, c.y, c.z, rots[c.o]) &&
    HasSupport(g, c.x, c.y, c.z, rots[c.o]) &&
    CheckStability(g, c.x, c.y, c.z, rots[c.o])
  }

  /** The contact score of an admissible candidate. */
  function Score(g: Grid, rots: seq<Mask>, c: Cand): int
    requires g.WellFormed() && Searchable(rots) && Admissible(g, rots, c)
  {
    Contact(g, c.x, c.y, c.z, rots[c.o])
  }

  /** Enumeration order: by orientation, then height, then width, then depth
      offset. */
  predicate Before(a: Cand, b: Cand)
  {
    a.o < b.o || (a.o == b.o && (a.z < b.z || (a.z == b.z && (a.x < b.x || (a.x == b.x && a.y < b.y)))))
  }

  /** Candidate a is preferred to b: it is lower, or as low with more
      contact, or as low with as much contact and found first. */
  predicate Beats(g: Grid, rots: seq<Mask>, a: Cand, b: Cand)
    requires g.WellFormed() && Searchable(rots) && Admissible(g, rots, a) && Admissible(g, rots, b)
  {
    a.z < b.z ||
    (a.z == b.z && (Score(g, rots, a) > Score(g, rots, b) ||
                    (Score(g, rots, a) == Score(g, rots, b) && Before(a, b))))
  }

  /** The search's answer: admissible and preferred to every other
      admissible candidate. */
  ghost predicate IsBest(g: Grid, rots: seq<Mask>, b: Cand)
    requires g.WellFormed() && Searchable(rots)
  {
    Admissible(g, rots, b) &&
    forall c :: Admissible(g, rots, c) && c != b ==> Beats(g, rots, b, c)
  }

  // ---------------------------------------------------------------------------
  // The preference order

  lemma BeforeTransitive(a: Cand, b: Cand, c: Cand)
    requires Before(a, b) && Before(b, c)
    ensures Before(a, c)
  {
  }

  /** The preference is a strict order: never both ways, and transitive. */
  lemma BeatsOrder(g: Grid, rots: seq<Mask>, a: Cand, b: Cand, c: Cand)
    requires g.WellFormed() && Searchable(rots)
    requires Admissible(g, rots, a) && Admissible(g, rots, b) && Admissible(g, rots, c)
    ensures !(Beats(g, rots, a, b) && Beats(g, rots, b, a))
    ensures Beats(g, rots, a, b) && Beats(g, rots, b, c) ==> Beats(g, rots, a, c)
  {
    if Before(a, b) && Before(b, c) {
      BeforeTransitive(a, b, c);
    }
  }

  /** There is at most one best candidate, so the answer is determined. */
  lemma BestUnique(g: Grid, rots: seq<Mask>, a: Cand, b: Cand)
    requires g.WellFormed() && Searchable(rots)
    requires IsBest(g, rots, a) && IsBest(g, rots, b)
    ensures a == b
  {
    if a != b {
      BeatsOrder(g, rots, a, b, a);
    }
  }

  /** The best candidate has the lowest height of all admissible candidates,
      and the most contact among those at its height. */
  lemma BestIsLowest(g: Grid, rots: seq<Mask>, b: Cand, c: Cand)
    requires g.WellFormed() && Searchable(rots)
    requires IsBest(g, rots, b) && Admissible(g, rots, c)
    ensures b.z <= c.z
    ensures c.z == b.z ==> Score(g, rots, c) <= Score(g, rots, b)
  {
    if c != b {
      assert Beats(g, rots, b, c);
    }
  }

  // ---------------------------------------------------------------------------
  // What the loops keep

  /** The search state after every candidate before cur was examined: best is
      the best of those (none when none was admissible), with its height and
      score recorded. */
  ghost predicate Scanned(g: Grid, rots: seq<Mask>, best: Option<Cand>, minZ: int, maxC: int, cur: Cand)
    requires g.WellFormed() && Searchable(rots)
  {
    match best
    case None => forall c :: Admissible(g, rots, c) ==> !Before(c, cur)
    case Some(b) =>
      Admissible(g, rots, b) && Before(b, cur) && minZ == b.z && maxC == Score(g, rots, b) &&
      forall c :: Admissible(g, rots, c) && Before(c, cur) && c != b ==> Beats(g, rots, b, c)
  }

  /** Moving the cursor past candidates that are inadmissible or higher than
      the best so far keeps the state. */
  lemma Advance(g: Grid, rots: seq<Mask>, best: Option<Cand>, minZ: int, maxC: int, cur: Cand, next: Cand)
    requires g.WellFormed() && Searchable(rots)
    requires Scanned(g, rots, best, minZ, maxC, cur) && Before(cur, next)
    requires forall c :: Admissible(g, rots, c) && Before(c, next) && !Before(c, cur) ==>
      best.Some? && c.z > best.value.z
    ensures Scanned(g, rots, best, minZ, maxC, next)
  {
    if best.Some? {
      BeforeTransitive(best.value, cur, next);
    }
  }

  /** The state after the candidate at cur is taken as the new best. */
  lemma TakeCandidate(g: Grid, rots: seq<Mask>, best: Option<Cand>, minZ: int, maxC: int, cur: Cand)
    requires g.WellFormed() && Searchable(rots)
    requires Scanned(g, rots, best, minZ, maxC, cur) && Admissible(g, rots, cur)
    requires best.None? || cur.z < minZ || (cur.z == minZ && Score(g, rots, cur) > maxC)
    ensures Scanned(g, rots, Some(cur), cur.z, Score(g, rots, cur), Cand(cur.o, cur.x, cur.y + 1, cur.z))
  {
    var next := Cand(cur.o, cur.x, cur.y + 1, cur.z);
    forall c | Admissible(g, rots, c) && Before(c, next) && c != cur
      ensures Beats(g, rots, cur, c)
    {
      assert Before(c, cur);
      var b := best.value;
      if c != b {
        assert Beats(g, rots, b, c);
        BeatsOrder(g, rots, cur, b, c);
      }
    }
  }

  /** The state after the candidate at cur is examined and not taken. */
  lemma PassCandidate(g: Grid, rots: seq<Mask>, best: Option<Cand>, minZ: int, maxC: int, cur: Cand)
    requires g.WellFormed() && Searchable(rots)
    requires Scanned(g, rots, best, minZ, maxC, cur)
    requires Admissible(g, rots, cur) ==>
      !(best.None? || cur.z < minZ || (cur.z == minZ && Score(g, rots, cur) > maxC))
    ensures Scanned(g, rots, best, minZ, maxC, Cand(cur.o, cur.x, cur.y + 1, cur.z))
  {
    var next := Cand(cur.o, cur.x, cur.y + 1, cur.z);
    if best.Some? {
      var b := best.value;
      BeforeTransitive(b, cur, next);
      forall c | Admissible(g, rots, c) && Before(c, next) && c != b
        ensures Beats(g, rots, b, c)
      {
        if c != cur {
          assert Before(c, cur);
        }
      }
    }
  }

  /** The search state after examining the candidate at cur: it becomes the
      new best exactly when it is admissible and lower than the best so far,
      or as low with more contact. */
  function Step(g: Grid, rots: seq<Mask>, best: Option<Cand>, minZ: int, maxC: int, cur: Cand): (Option<Cand>, int, int)
    requires g.WellFormed() && Searchable(rots)
  {
    if Admissible(g, rots, cur) && (best.None? || cur.z < minZ || (cur.z == minZ && Score(g, rots, cur) > maxC))
    then (Some(cur), cur.z, Score(g, rots, cur))
    else (best, minZ, maxC)
  }

  /** Examining the candidate at cur moves the state on to the next depth
      offset. */
  lemma Examine(g: Grid, rots: seq<Mask>, best: Option<Cand>, minZ: int, maxC: int, cur: Cand)
    requires g.WellFormed() && Searchable(rots)
    requires Scanned(g, rots, best, minZ, maxC, cur)
    ensures var s := Step(g, rots, best, minZ, maxC, cur);
      Scanned(g, rots, s.0, s.1, s.2, Cand(cur.o, cur.x, cur.y + 1, cur.z))
  {
    if Admissible(g, rots, cur) && (best.None? || cur.z < minZ || (cur.z == minZ && Score(g, rots, cur) > maxC)) {
      TakeCandidate(g, rots, best, minZ, maxC, cur);
    } else {
      PassCandidate(g, rots, best, minZ, maxC, cur);
    }
  }

  /** No depth offset at or past Stop fits, so the row is done. */
  lemma RowDone(g: Grid, rots: seq<Mask>, best: Option<Cand>, minZ: int, maxC: int, o: nat, x: nat, z: nat)
    requires g.WellFormed() && Searchable(rots) && o < |rots|
    requires Scanned(g, rots, best, minZ, maxC, Cand(o, x, Stop(g.l1, rots[o].d), z))
    ensures Scanned(g, rots, best, minZ, maxC, Cand(o, x + 1, 0, z))
  {
    Advance(g, rots, best, minZ, maxC, Cand(o, x, Stop(g.l1, rots[o].d), z), Cand(o, x + 1, 0, z));
  }

  /** No width offset at or past Stop fits, so the layer is done. */
  lemma LayerDone(g: Grid, rots: seq<Mask>, best: Option<Cand>, minZ: int, maxC: int, o: nat, z: nat)
    requires g.WellFormed() && Searchable(rots) && o < |rots|
    requires Scanned(g, rots, best, minZ, maxC, Cand(o, Stop(g.l0, rots[o].w), 0, z))
    ensures Scanned(g, rots, best, minZ, maxC, Cand(o, 0, 0, z + 1))
  {
    Advance(g, rots, best, minZ, maxC, Cand(o, Stop(g.l0, rots[o].w), 0, z), Cand(o, 0, 0, z + 1));
  }

  /** No height at or past Stop fits, so the orientation is done. */
  lemma OrientationDone(g: Grid, rots: seq<Mask>, best: Option<Cand>, minZ: int, maxC: int, o: nat)
    requires g.WellFormed() && Searchable(rots) && o < |rots|
    requires Scanned(g, rots, best, minZ, maxC, Cand(o, 0, 0, Stop(g.l2, rots[o].h)))
    ensures Scanned(g, rots, best, minZ, maxC, Cand(o + 1, 0, 0, 0))
  {
    Advance(g, rots, best, minZ, maxC, Cand(o, 0, 0, Stop(g.l2, rots[o].h)), Cand(o + 1, 0, 0, 0));
  }

  /** A height above the lowest placement found so far cannot hold a better
      candidate, so the whole layer is skipped. */
  lemma SkipHeight(g: Grid, rots: seq<Mask>, best: Option<Cand>, minZ: int, maxC: int, o: nat, z: nat)
    requires g.WellFormed() && Searchable(rots)
    requires Scanned(g, rots, best, minZ, maxC, Cand(o, 0, 0, z)) && best.Some? && z > minZ
    ensures Scanned(g, rots, best, minZ, maxC, Cand(o, 0, 0, z + 1))
  {
    Advance(g, rots, best, minZ, maxC, Cand(o, 0, 0, z), Cand(o, 0, 0, z + 1));
  }

  // ---------------------------------------------------------------------------
  // The loops

  /** One past the last offset a mask of extent n can start at along an
      axis of length l (the search tries 0 .. l - n): offset s would
      overrun the axis, and every offset below it, the last one s - 1
      included, keeps the mask inside. */
  function Stop(l: nat, n: nat): (s: nat)
    ensures l < s + n
    ensures s > 0 ==> s - 1 + n <= l
  {
    if n <= l then l - n + 1 else 0
  }

  /** The depth offsets of one row. */
  method ScanRow(g: Grid, rots: seq<Mask>, o: nat, z: nat, x: nat, best0: Option<Cand>, minZ0: int, maxC0: int)
    returns (best: Option<Cand>, minZ: int, maxC: int)
    requires g.WellFormed() && Searchable(rots) && o < |rots|
    requires x + rots[o].w <= g.l0 && z + rots[o].h <= g.l2
    requires Scanned(g, rots, best0, minZ0, maxC0, Cand(o, x, 0, z))
    ensures Scanned(g, rots, best, minZ, maxC, Cand(o, x + 1, 0, z))
  {
    var m := rots[o];
    best, minZ, maxC := best0, minZ0, maxC0;
    var stop := Stop(g.l1, m.d);
    for y := 0 to stop
      invariant Scanned(g, rots, best, minZ, maxC, Cand(o, x, y, z))
    {
      var cur := Cand(o, x, y, z);
      Examine(g, rots, best, minZ, maxC, cur);
      ghost var after := Step(g, rots, best, minZ, maxC, cur);
      if CheckFit(g, x, y, z, m) && HasSupport(g, x, y, z, m) && CheckStability(g, x, y, z, m) {
        var contact := Contact(g, x, y, z, m);
        if best.None? || z < minZ || (z == minZ && contact > maxC) {
          best, minZ, maxC := Some(cur), z, contact;
        }
      }
      assert (best, minZ, maxC) == after;
    }
    RowDone(g, rots, best, minZ, maxC, o, x, z);
  }

  /** The width offsets of one height layer. */
  method ScanLayer(g: Grid, rots: seq<Mask>, o: nat, z: nat, best0: Option<Cand>, minZ0: int, maxC0: int)
    returns (best: Option<Cand>, minZ: int, maxC: int)
    requires g.WellFormed() && Searchable(rots) && o < |rots|
    requires z + rots[o].h <= g.l2
    requires Scanned(g, rots, best0, minZ0, maxC0, Cand(o, 0, 0, z))
    ensures Scanned(g, rots, best, minZ, maxC, Cand(o, 0, 0, z + 1))
  {
    best, minZ, maxC := best0, minZ0, maxC0;
    var stop := Stop(g.l0, rots[o].w);
    for x := 0 to stop
      invariant Scanned(g, rots, best, minZ, maxC, Cand(o, x, 0, z))
    {
      best, minZ, maxC := ScanRow(g, rots, o, z, x, best, minZ, maxC);
    }
    LayerDone(g, rots, best, minZ, maxC, o, z);
  }

  /** The heights of one orientation; a height above the lowest placement
      found so far is skipped. */
  method ScanOrientation(g: Grid, rots: seq<Mask>, o: nat, best0: Option<Cand>, minZ0: int, maxC0: int)
    returns (best: Option<Cand>, minZ: int, maxC: int)
    requires g.WellFormed() && Searchable(rots) && o < |rots|
    requires Scanned(g, rots, best0, minZ0, maxC0, Cand(o, 0, 0, 0))
    ensures Scanned(g, rots, best, minZ, maxC, Cand(o + 1, 0, 0, 0))
  {
    best, minZ, maxC := best0, minZ0, maxC0;
    var stop := Stop(g.l2, rots[o].h);
    for z := 0 to stop
      invariant Scanned(g, rots, best, minZ, maxC, Cand(o, 0, 0, z))
    {
      if best.Some? && z > minZ {
        SkipHeight(g, rots, best, minZ, maxC, o, z);
      } else {
        best, minZ, maxC := ScanLayer(g, rots, o, z, best, minZ, maxC);
      }
    }
    OrientationDone(g, rots, best, minZ, maxC, o);
  }

  /** find_best_position's search over a given orientation list: no answer
      exactly when no candidate is admissible, otherwise the best one. */
  method SearchBest(g: Grid, rots: seq<Mask>) returns (best: Option<Cand>)
    requires g.WellFormed() && Searchable(rots)
    ensures best.None? <==> forall c :: !Admissible(g, rots, c)
    ensures best.Some? ==> IsBest(g, rots, best.value)
  {
    best := None;
    var minZ, maxC := 0, 0;
    for o := 0 to |rots|
      invariant Scanned(g, rots, best, minZ, maxC, Cand(o, 0, 0, 0))
    {
      best, minZ, maxC := ScanOrientation(g, rots, o, best, minZ, maxC);
    }
    assert forall c :: Admissible(g, rots, c) ==> Before(c, Cand(|rots|, 0, 0, 0));
  }
}

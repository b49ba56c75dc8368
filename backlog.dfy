/** The backlog of items waiting to be packed: copies added per quantity,
    and the stable ordering by decreasing volume, footprint and weight. */
module Backlog {
  import opened Masks
  import opened Cargo

  /** quantity copies of an item; none when quantity is zero or negative
      (a list repeated a non-positive number of times is empty). */
  function Repeat(it: Item, quantity: int): (r: seq<Item>)
    ensures quantity <= 0 ==> r == []
    ensures quantity > 0 ==> |r| == quantity
    ensures forall k :: 0 <= k < |r| ==> r[k] == it
    decreases quantity
  {
    if quantity <= 0 then [] else Repeat(it, quantity - 1) + [it]
  }

  /** A custom mask, when present, is well formed. */
  predicate Shaped(it: Item)
  {
    it.shape.Some? ==> it.shape.value.WellFormed()
  }

  /** The sort key: volume, footprint (width times depth) and weight. A
      custom item's volume is its filled voxels times 125 and its footprint
      its mask's width and depth extents times 25. */
  function Key(it: Item): (real, real, real)
    requires Shaped(it)
  {
    match it.shape
    case None => (it.width * it.height * it.depth, it.width * it.depth, it.weight)
    case Some(m) =>
      ((Volume(m) * GridSize * GridSize * GridSize) as real, (m.w * m.d * GridSize * GridSize) as real, it.weight)
  }

  /** a goes strictly before b: larger volume, or equal volume and larger
      footprint, or both equal and heavier. */
  predicate Precedes(a: Item, b: Item)
    requires Shaped(a) && Shaped(b)
  {
    var ka, kb := Key(a), Key(b);
    ka.0 > kb.0 || (ka.0 == kb.0 && (ka.1 > kb.1 || (ka.1 == kb.1 && ka.2 > kb.2)))
  }

  predicate AllShaped(s: seq<Item>)
  {
    forall k :: 0 <= k < |s| ==> Shaped(s[k])
  }

  /** No item goes strictly before an earlier one. */
  predicate Sorted(s: seq<Item>)
    requires AllShaped(s)
  {
    forall i, j :: 0 <= i < j < |s| ==> !Precedes(s[j], s[i])
  }

  /** Put x in front of the first item that does not strictly precede it. */
  function Insert(x: Item, s: seq<Item>): (r: seq<Item>)
    requires Shaped(x) && AllShaped(s)
    ensures AllShaped(r) && |r| == |s| + 1
    ensures multiset(r) == multiset(s) + multiset{x}
  {
    if s == [] || !Precedes(s[0], x) then [x] + s
    else
      assert s == [s[0]] + s[1..];
      [s[0]] + Insert(x, s[1..])
  }

  /** The backlog in packing order: a stable sort by decreasing key. */
  function SortBacklog(s: seq<Item>): (r: seq<Item>)
    requires AllShaped(s)
    ensures AllShaped(r) && |r| == |s|
    ensures multiset(r) == multiset(s)
  {
    if s == [] then []
    else
      assert s == [s[0]] + s[1..];
      Insert(s[0], SortBacklog(s[1..]))
  }

  /** The items of s with the given key, in order. */
  function WithKey(s: seq<Item>, k: (real, real, real)): (r: seq<Item>)
    requires AllShaped(s)
    ensures |r| <= |s|
  {
    if s == [] then []
    else (if Key(s[0]) == k then [s[0]] else []) + WithKey(s[1..], k)
  }

  /** The number of items of s with the given name. */
  function CountName(s: seq<Item>, n: string): (c: nat)
    ensures c <= |s|
  {
    if s == [] then 0 else (if s[0].name == n then 1 else 0) + CountName(s[1..], n)
  }

  // ---------------------------------------------------------------------------
  // What the sort promises

  /** If neither x nor any item of s goes strictly before y, no item of the
      list with x inserted does. */
  lemma {:induction false} InsertBelow(x: Item, s: seq<Item>, y: Item)
    requires Shaped(x) && AllShaped(s) && Shaped(y)
    requires !Precedes(x, y) && forall k :: 0 <= k < |s| ==> !Precedes(s[k], y)
    ensures forall k :: 0 <= k < |Insert(x, s)| ==> !Precedes(Insert(x, s)[k], y)
  {
    if s != [] && Precedes(s[0], x) {
      InsertBelow(x, s[1..], y);
      var r := Insert(x, s);
      assert r == [s[0]] + Insert(x, s[1..]);
      forall k | 0 < k < |r| ensures !Precedes(r[k], y) {
        assert r[k] == Insert(x, s[1..])[k - 1];
      }
    }
  }

  lemma {:induction false} InsertSorted(x: Item, s: seq<Item>)
    requires Shaped(x) && AllShaped(s) && Sorted(s)
    ensures Sorted(Insert(x, s))
  {
    if s != [] && Precedes(s[0], x) {
      InsertSorted(x, s[1..]);
      InsertBelow(x, s[1..], s[0]);
      var r := Insert(x, s);
      assert r == [s[0]] + Insert(x, s[1..]);
      forall i, j | 0 <= i < j < |r| ensures !Precedes(r[j], r[i]) {
        assert r[j] == Insert(x, s[1..])[j - 1];
        if i > 0 {
          assert r[i] == Insert(x, s[1..])[i - 1];
        }
      }
    }
  }

  /** The sorted backlog is ordered by decreasing key. */
  lemma {:induction false} SortBacklogSorted(s: seq<Item>)
    requires AllShaped(s)
    ensures Sorted(SortBacklog(s))
  {
    if s != [] {
      SortBacklogSorted(s[1..]);
      InsertSorted(s[0], SortBacklog(s[1..]));
    }
  }

  lemma PrecedesDistinct(a: Item, b: Item)
    requires Shaped(a) && Shaped(b) && Precedes(a, b)
    ensures Key(a) != Key(b)
  {
  }

  lemma {:induction false} InsertWithKey(x: Item, s: seq<Item>, k: (real, real, real))
    requires Shaped(x) && AllShaped(s)
    ensures WithKey(Insert(x, s), k) == (if Key(x) == k then [x] else []) + WithKey(s, k)
  {
    if s != [] && Precedes(s[0], x) {
      InsertWithKey(x, s[1..], k);
      PrecedesDistinct(s[0], x);
      assert Insert(x, s)[1..] == Insert(x, s[1..]);
    } else {
      assert ([x] + s)[1..] == s;
    }
  }

  /** The sort is stable: items with equal keys keep their backlog order. */
  lemma {:induction false} SortBacklogStable(s: seq<Item>, k: (real, real, real))
    requires AllShaped(s)
    ensures WithKey(SortBacklog(s), k) == WithKey(s, k)
  {
    if s != [] {
      SortBacklogStable(s[1..], k);
      InsertWithKey(s[0], SortBacklog(s[1..]), k);
    }
  }

  lemma {:induction false} InsertCount(x: Item, s: seq<Item>, n: string)
    requires Shaped(x) && AllShaped(s)
    ensures CountName(Insert(x, s), n) == CountName(s, n) + (if x.name == n then 1 else 0)
  {
    if s != [] && Precedes(s[0], x) {
      InsertCount(x, s[1..], n);
      assert Insert(x, s)[1..] == Insert(x, s[1..]);
    } else {
      assert ([x] + s)[1..] == s;
    }
  }

  /** Sorting keeps how many items of each name the backlog holds. */
  lemma {:induction false} SortBacklogCounts(s: seq<Item>, n: string)
    requires AllShaped(s)
    ensures CountName(SortBacklog(s), n) == CountName(s, n)
  {
    if s != [] {
      SortBacklogCounts(s[1..], n);
      InsertCount(s[0], SortBacklog(s[1..]), n);
    }
  }

  lemma {:induction false} CountNameSplit(a: seq<Item>, b: seq<Item>, n: string)
    ensures CountName(a + b, n) == CountName(a, n) + CountName(b, n)
  {
    if a != [] {
      CountNameSplit(a[1..], b, n);
      assert (a + b)[1..] == a[1..] + b;
    } else {
      assert a + b == b;
    }
  }

  /** Adding copies of an item adds that many to its name's count and
      nothing to any other name's. */
  lemma AddedCopies(s: seq<Item>, it: Item, quantity: int, n: string)
    ensures CountName(s + Repeat(it, quantity), n) ==
      CountName(s, n) + (if n == it.name && quantity > 0 then quantity else 0)
  {
    CountNameSplit(s, Repeat(it, quantity), n);
    RepeatCount(it, quantity, n);
  }

  lemma {:induction false} RepeatCount(it: Item, quantity: int, n: string)
    ensures CountName(Repeat(it, quantity), n) == if n == it.name && quantity > 0 then quantity else 0
    decreases quantity
  {
    if quantity > 0 {
      RepeatCount(it, quantity - 1, n);
      CountNameSplit(Repeat(it, quantity - 1), [it], n);
      assert [it][1..] == [];
    }
  }
}

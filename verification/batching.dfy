/** How `run_async` plans the restore: each deleted path gets its depth, the
    items are sorted by depth (stably, as Python's `list.sort` is), and the
    sorted list is cut into consecutive batches. */
module Batching {
  import opened Text

  /** A deleted path as listed, with its deletion id and its depth. */
  datatype DeletedItem = DeletedItem(path: string, deletionId: string, depth: nat)

  /** `len(path.split('/'))`: the number of `/`-separated segments, which is
      one more than the number of slashes. */
  function Depth(path: string): (d: nat)
    ensures d == CountChar(path, '/') + 1
  {
    |Split(path, '/')|
  }

  /** The item `run_async` builds from one listed path. */
  function MakeItem(path: string, deletionId: string): DeletedItem {
    DeletedItem(path, deletionId, Depth(path))
  }

  function MakeItems(listing: seq<(string, string)>): (items: seq<DeletedItem>)
    ensures |items| == |listing|
    ensures forall i :: 0 <= i < |items| ==>
      items[i].path == listing[i].0 && items[i].deletionId == listing[i].1 &&
      items[i].depth == CountChar(listing[i].0, '/') + 1
  {
    if listing == [] then [] else [MakeItem(listing[0].0, listing[0].1)] + MakeItems(listing[1..])
  }

  /** Each item is at most as deep as the next. */
  predicate SortedByDepth(s: seq<DeletedItem>) {
    forall i :: 0 < i < |s| ==> s[i - 1].depth <= s[i].depth
  }

  /** The items of depth `d`, in their original order. */
  function AtDepth(s: seq<DeletedItem>, d: nat): seq<DeletedItem> {
    if s == [] then []
    else (if s[0].depth == d then [s[0]] else []) + AtDepth(s[1..], d)
  }

  /** Places `x` before the first item that is at least as deep, which keeps
      `x` ahead of the items of equal depth that came after it. */
  function Insert(x: DeletedItem, s: seq<DeletedItem>): (r: seq<DeletedItem>)
    requires SortedByDepth(s)
    ensures SortedByDepth(r)
    ensures |r| == |s| + 1 && (r[0] == x || (s != [] && r[0] == s[0]))
  {
    if s == [] || x.depth <= s[0].depth then [x] + s
    else [s[0]] + Insert(x, s[1..])
  }

  lemma {:induction false} InsertPermutation(x: DeletedItem, s: seq<DeletedItem>)
    requires SortedByDepth(s)
    ensures multiset(Insert(x, s)) == multiset(s) + multiset{x}
  {
    if s != [] && x.depth > s[0].depth {
      InsertPermutation(x, s[1..]);
      assert s == [s[0]] + s[1..];
    }
  }

  /** `deleted_items.sort(key=lambda x: x['depth'])`: ascending by depth. */
  function SortByDepth(s: seq<DeletedItem>): (r: seq<DeletedItem>)
    ensures SortedByDepth(r) && |r| == |s|
  {
    if s == [] then [] else Insert(s[0], SortByDepth(s[1..]))
  }

  /** The sort only reorders: it is a permutation of its input. */
  lemma {:induction false} SortByDepthPermutation(s: seq<DeletedItem>)
    ensures multiset(SortByDepth(s)) == multiset(s)
  {
    if s != [] {
      SortByDepthPermutation(s[1..]);
      InsertKeepsMultiset(s[0], s[1..], SortByDepth(s[1..]));
      assert [s[0]] + s[1..] == s;
    }
  }

  /** Inserting into a sorted reordering of `s` gives a reordering of `s`
      with the new item. */
  lemma InsertKeepsMultiset(x: DeletedItem, s: seq<DeletedItem>, sorted: seq<DeletedItem>)
    requires SortedByDepth(sorted) && multiset(sorted) == multiset(s)
    ensures multiset(Insert(x, sorted)) == multiset([x] + s)
  {
    InsertPermutation(x, sorted);
  }

  lemma {:induction false} AtDepthInsert(x: DeletedItem, s: seq<DeletedItem>, d: nat)
    requires SortedByDepth(s)
    ensures AtDepth(Insert(x, s), d) == AtDepth([x] + s, d)
  {
    if s == [] || x.depth <= s[0].depth {
    } else {
      AtDepthInsert(x, s[1..], d);
      var rest := Insert(x, s[1..]);
      assert ([s[0]] + rest)[1..] == rest;
      assert ([x] + s)[1..] == s;
      assert ([x] + s[1..])[1..] == s[1..];
      // s[0] is shallower than x, so it is at depth d only when x is not
      assert s[0].depth < x.depth;
    }
  }

  /** The sort is stable: at every depth, the items of that depth keep
      their original relative order. */
  lemma {:induction false} SortByDepthStable(s: seq<DeletedItem>, d: nat)
    ensures AtDepth(SortByDepth(s), d) == AtDepth(s, d)
  {
    if s != [] {
      SortByDepthStable(s[1..], d);
      AtDepthInsert(s[0], SortByDepth(s[1..]), d);
      assert ([s[0]] + SortByDepth(s[1..]))[1..] == SortByDepth(s[1..]);
    }
  }

  /** `min(1000, max(10, n // 3))`. */
  function BatchSize(n: nat): (k: nat)
    ensures 10 <= k <= 1000
    ensures n < 30 ==> k == 10
    ensures 30 <= n < 3003 ==> 3 * k <= n < 3 * k + 3
    ensures n >= 3003 ==> k == 1000
  {
    var third := n / 3;
    if third < 10 then 10 else if third > 1000 then 1000 else third
  }

  /** Flattens a list of batches back into one list. */
  function Concat(bs: seq<seq<DeletedItem>>): seq<DeletedItem> {
    if bs == [] then [] else bs[0] + Concat(bs[1..])
  }

  /** `[s[i:i + k] for i in range(0, len(s), k)]`: consecutive slices of
      length `k`, the last one possibly shorter. Together they give `s`
      back; each is non-empty and at most `k` long, all but the last exactly
      `k`; and there are `ceil(|s| / k)` of them, that is, the fewest
      batches of `k` that hold `|s|` items. */
  function Chunk(s: seq<DeletedItem>, k: nat): (bs: seq<seq<DeletedItem>>)
    requires k > 0
    ensures Concat(bs) == s
    ensures forall i :: 0 <= i < |bs| ==> 0 < |bs[i]| <= k
    ensures forall i :: 0 <= i < |bs| - 1 ==> |bs[i]| == k
    ensures (|bs| - 1) * k < |s| <= |bs| * k
    decreases |s|
  {
    if |s| == 0 then []
    else if |s| <= k then
      assert Concat([s]) == s + Concat([]);
      [s]
    else
      var rest := Chunk(s[k..], k);
      assert ([s[..k]] + rest)[1..] == rest;
      assert s[..k] + s[k..] == s;
      assert (|rest| + 1) * k == |rest| * k + k;
      [s[..k]] + rest
  }

  /** The batches `run_async` builds, fallback included: the list of slices,
      or the whole list as one batch if there were no slices but there are
      items. */
  function PlanBatches(items: seq<DeletedItem>): seq<seq<DeletedItem>> {
    var batches := Chunk(items, BatchSize(|items|));
    if batches == [] && items != [] then [items] else batches
  }

  /** The fallback never fires: a non-empty list always yields at least one
      slice. */
  lemma FallbackUnreachable(items: seq<DeletedItem>)
    requires items != []
    ensures Chunk(items, BatchSize(|items|)) != []
  {
  }

  /** The whole plan of `run_async` for a listing: nothing to do for an empty
      listing; otherwise the depth-sorted items, cut into batches. */
  function PlanRestore(listing: seq<(string, string)>): seq<seq<DeletedItem>> {
    if listing == [] then [] else PlanBatches(SortByDepth(MakeItems(listing)))
  }

  /** Every listed path is restored exactly once, shallower before deeper,
      equal depths in listing order, in batches of at most `BatchSize` items
      that are full except possibly the last. */
  lemma PlanRestoreCorrect(listing: seq<(string, string)>)
    requires listing != []
    ensures var bs := PlanRestore(listing);
      var items := MakeItems(listing);
      var k := BatchSize(|listing|);
      multiset(Concat(bs)) == multiset(items) &&
      SortedByDepth(Concat(bs)) &&
      (forall d :: AtDepth(Concat(bs), d) == AtDepth(items, d)) &&
      (forall i :: 0 <= i < |bs| ==> 0 < |bs[i]| <= k) &&
      (forall i :: 0 <= i < |bs| - 1 ==> |bs[i]| == k) &&
      (|bs| - 1) * k < |listing| <= |bs| * k
  {
    var items := MakeItems(listing);
    var sorted := SortByDepth(items);
    var k := BatchSize(|sorted|);
    var bs := Chunk(sorted, k);
    SortByDepthPermutation(items);
    FallbackUnreachable(sorted);
    assert PlanRestore(listing) == bs;
    assert Concat(bs) == sorted;
    forall d ensures AtDepth(sorted, d) == AtDepth(items, d) {
      SortByDepthStable(items, d);
    }
  }

  /** An empty listing plans no batches: "No deleted items found." */
  lemma PlanRestoreEmpty()
    ensures PlanRestore([]) == []
  {
  }

  /** Paths of depths 2, 1, 1 are restored in the order of depths 1, 1, 2,
      the two top-level paths in their listing order. */
  lemma SortExample(a: DeletedItem, b: DeletedItem, c: DeletedItem)
    requires a.depth == 2 && b.depth == 1 && c.depth == 1
    ensures SortByDepth([a, b, c]) == [b, c, a]
  {
    assert [a, b, c][1..] == [b, c] && [b, c][1..] == [c];
    assert SortByDepth([b, c]) == [b, c] by {
      assert SortByDepth([c]) == [c];
    }
    assert Insert(a, [b, c]) == [b, c, a] by {
      assert [b, c][1..] == [c];
      assert Insert(a, [c]) == [c, a];
    }
  }

  /** Thirty items make batches of ten, three of them. */
  lemma ThirtyItemsExample(items: seq<DeletedItem>)
    requires |items| == 30
    ensures BatchSize(30) == 10 && |PlanBatches(items)| == 3
  {
  }
}

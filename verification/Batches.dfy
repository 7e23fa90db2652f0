/** The greedy batcher: pending items are packed in order into batches bounded by an item count and a
    character budget. */
module Batches {
  import opened Text
  import opened TranslateSession

  const MAX_BATCH_ITEMS := 20

  /** Characters of a batch: two for the enclosing object and eight around each entry. */
  function EstimateBatchChars(items: seq<Item>): nat {
    if items == [] then 2
    else
      var last := items[|items| - 1];
      EstimateBatchChars(items[..|items| - 1]) + JsLength(last.key) + JsLength(last.text) + 8
  }

  /** The running cost the loop keeps; it charges each item as a batch of its own. */
  function RunningChars(items: seq<Item>): nat {
    if items == [] then 2
    else RunningChars(items[..|items| - 1]) + EstimateBatchChars([items[|items| - 1]])
  }

  /** A single item always makes a batch; several must respect both caps. */
  predicate Fits(batch: seq<Item>, budget: int) {
    |batch| == 1 || (2 <= |batch| <= MAX_BATCH_ITEMS && RunningChars(batch) <= budget)
  }

  function Concat(batches: seq<seq<Item>>): seq<Item> {
    if batches == [] then [] else batches[0] + Concat(batches[1..])
  }

  predicate IsSplit(batches: seq<seq<Item>>, items: seq<Item>, budget: int) {
    Concat(batches) == items && forall b | b in batches :: Fits(b, budget)
  }

  /** No batch could have taken the first item of the batch after it. */
  predicate IsGreedy(batches: seq<seq<Item>>, budget: int) {
    forall i, j | 0 <= i && j == i + 1 < |batches| :: Full(batches[i], batches[j], budget)
  }

  predicate Full(batch: seq<Item>, next: seq<Item>, budget: int) {
    next != [] && !Fits(batch + [next[0]], budget)
  }

  /** What the loop has built after reading `items`: closed batches and the one being filled. */
  predicate Packed(batches: seq<seq<Item>>, current: seq<Item>, items: seq<Item>, budget: int) {
    && Concat(batches) + current == items
    && (forall b | b in batches :: Fits(b, budget))
    && (current == [] ==> batches == [])
    && (current != [] ==> Fits(current, budget) && IsGreedy(batches + [current], budget))
  }

  lemma {:induction false} PackMore(batches: seq<seq<Item>>, current: seq<Item>, items: seq<Item>, item: Item,
                                    budget: int)
    requires Packed(batches, current, items, budget)
    requires Fits(current + [item], budget)
    ensures Packed(batches, current + [item], items + [item], budget)
  {
    assert Concat(batches) + (current + [item]) == Concat(batches) + current + [item];
    var was, now := batches + [current], batches + [current + [item]];
    forall i, j | 0 <= i && j == i + 1 < |now|
      ensures Full(now[i], now[j], budget)
    {
      assert Full(was[i], was[j], budget);
    }
  }

  lemma {:induction false} PackNext(batches: seq<seq<Item>>, current: seq<Item>, items: seq<Item>, item: Item,
                                    budget: int)
    requires Packed(batches, current, items, budget)
    requires current != [] && !Fits(current + [item], budget)
    ensures Packed(batches + [current], [item], items + [item], budget)
  {
    ConcatAppend(batches, current);
    var was, now := batches + [current], batches + [current] + [[item]];
    forall i, j | 0 <= i && j == i + 1 < |now|
      ensures Full(now[i], now[j], budget)
    {
      if j < |was| {
        assert Full(was[i], was[j], budget);
      }
    }
  }

  lemma {:induction false} RunningCharsGrow(current: seq<Item>, item: Item)
    ensures RunningChars(current + [item]) == RunningChars(current) + EstimateBatchChars([item])
  {
    assert (current + [item])[..|current|] == current;
  }

  predicate StartsBatch(current: seq<Item>, item: Item, budget: int) {
    || (current != [] && RunningChars(current) + EstimateBatchChars([item]) > budget)
    || |current| >= MAX_BATCH_ITEMS
  }

  /** What the loop does with the next item. */
  lemma {:induction false} PackItem(batches: seq<seq<Item>>, current: seq<Item>, items: seq<Item>, item: Item,
                                    budget: int)
    requires Packed(batches, current, items, budget)
    ensures RunningChars(current + [item]) == RunningChars(current) + EstimateBatchChars([item])
    ensures RunningChars([item]) == 2 + EstimateBatchChars([item])
    ensures if StartsBatch(current, item, budget) then Packed(batches + [current], [item], items + [item], budget)
            else Packed(batches, current + [item], items + [item], budget)
  {
    RunningCharsGrow(current, item);
    RunningCharsGrow([], item);
    assert [] + [item] == [item];
    if StartsBatch(current, item, budget) {
      PackNext(batches, current, items, item, budget);
    } else {
      PackMore(batches, current, items, item, budget);
    }
  }

  method BuildTranslationBatches(items: seq<Item>, budget: int) returns (batches: seq<seq<Item>>)
    ensures IsSplit(batches, items, budget)
    ensures IsGreedy(batches, budget)
  {
    batches := [];
    var current: seq<Item> := [];
    var currentChars := 2;
    for i := 0 to |items|
      invariant Packed(batches, current, items[..i], budget)
      invariant currentChars == RunningChars(current)
    {
      var item := items[i];
      var itemChars := EstimateBatchChars([item]);
      var wouldOverflow := current != [] && currentChars + itemChars > budget;
      var reachedMaxItems := |current| >= MAX_BATCH_ITEMS;
      PackItem(batches, current, items[..i], item, budget);
      Appended(items, i);
      if wouldOverflow || reachedMaxItems {
        batches := batches + [current];
        current := [];
        currentChars := 2;
      }
      current := current + [item];
      currentChars := currentChars + itemChars;
    }
    assert items[..|items|] == items;
    AllPacked(batches, current, items, budget);
    if current != [] {
      batches := batches + [current];
    }
  }

  lemma {:induction false} Appended(items: seq<Item>, i: nat)
    requires i < |items|
    ensures items[..i + 1] == items[..i] + [items[i]] && [] + [items[i]] == [items[i]]
  {
  }

  lemma {:induction false} AllPacked(batches: seq<seq<Item>>, current: seq<Item>, items: seq<Item>, budget: int)
    requires Packed(batches, current, items, budget)
    ensures var all := if current != [] then batches + [current] else batches;
            IsSplit(all, items, budget) && IsGreedy(all, budget)
  {
    ConcatAppend(batches, current);
  }

  lemma {:induction false} ConcatAppend(batches: seq<seq<Item>>, b: seq<Item>)
    ensures Concat(batches + [b]) == Concat(batches) + b
  {
    if batches == [] {
      assert [b][1..] == [];
    } else {
      ConcatAppend(batches[1..], b);
      assert (batches + [b])[1..] == batches[1..] + [b];
      assert batches[0] + (Concat(batches[1..]) + b) == batches[0] + Concat(batches[1..]) + b;
    }
  }

  /** The running cost over-counts the estimate by two per item, so a batch within the running budget is
      within the estimated one. */
  lemma {:induction false} RunningCharsBoundEstimate(items: seq<Item>)
    ensures RunningChars(items) == EstimateBatchChars(items) + 2 * |items|
  {
    if items != [] {
      RunningCharsBoundEstimate(items[..|items| - 1]);
      var last := items[|items| - 1];
      assert [last][..|[last]| - 1] == [];
      assert EstimateBatchChars([last]) == EstimateBatchChars([]) + JsLength(last.key) + JsLength(last.text) + 8;
    }
  }

  /** What an item costs: in the estimate eight characters and its key and text, in the running cost two more. */
  lemma {:induction false} ItemCosts(items: seq<Item>, item: Item)
    ensures EstimateBatchChars([]) == 2 && RunningChars([]) == 2
    ensures var own := JsLength(item.key) + JsLength(item.text);
            && EstimateBatchChars(items + [item]) == EstimateBatchChars(items) + own + 8
            && RunningChars(items + [item]) == RunningChars(items) + own + 10
  {
    assert (items + [item])[..|items|] == items && [item][..0] == [];
    assert EstimateBatchChars([item]) == EstimateBatchChars([]) + JsLength(item.key) + JsLength(item.text) + 8;
  }

  /** A batch is closed exactly when it holds 20 items or the next one would exceed the budget. */
  lemma {:induction false} ClosedWhenFull(batches: seq<seq<Item>>, items: seq<Item>, budget: int, i: nat)
    requires IsSplit(batches, items, budget) && IsGreedy(batches, budget) && i + 1 < |batches|
    ensures batches[i + 1] != []
    ensures var next := batches[i + 1][0];
            |batches[i]| == 20 || RunningChars(batches[i]) + JsLength(next.key) + JsLength(next.text) + 10 > budget
  {
    assert Full(batches[i], batches[i + 1], budget) && Fits(batches[i], budget);
    ItemCosts(batches[i], batches[i + 1][0]);
  }

  /** Every batch is non-empty, holds at most 20 items, and if it holds two or more is within budget. */
  lemma {:induction false} BatchesRespectCaps(batches: seq<seq<Item>>, items: seq<Item>, budget: int, i: nat)
    requires IsSplit(batches, items, budget) && i < |batches|
    ensures 1 <= |batches[i]| <= 20
    ensures |batches[i]| >= 2 ==> EstimateBatchChars(batches[i]) <= budget
  {
    assert batches[i] in batches;
    RunningCharsBoundEstimate(batches[i]);
  }

  /** Dropping items from the front or the back keeps a batch within the caps. */
  lemma {:induction false} RunningCharsMonotone(a: seq<Item>, b: seq<Item>, c: seq<Item>)
    ensures RunningChars(b) <= RunningChars(a + b + c)
    decreases |c|, |b|
  {
    if c != [] {
      RunningCharsMonotone(a, b, c[..|c| - 1]);
      assert (a + b + c)[..|a + b + c| - 1] == a + b + c[..|c| - 1];
    } else if b != [] {
      RunningCharsMonotone(a, b[..|b| - 1], []);
      assert (a + b)[..|a + b| - 1] == a + b[..|b| - 1] + [];
      assert a + b + c == a + b;
      assert (a + b)[|a + b| - 1] == b[|b| - 1];
    }
  }

  lemma {:induction false} PartOfFitting(whole: seq<Item>, lo: nat, hi: nat, budget: int)
    requires Fits(whole, budget) && lo < hi <= |whole|
    ensures Fits(whole[lo..hi], budget)
  {
    RunningCharsMonotone(whole[..lo], whole[lo..hi], whole[hi..]);
    assert whole[..lo] + whole[lo..hi] + whole[hi..] == whole;
  }

  /** Greedy stays ahead: a greedy split of a tail of `items` needs no more batches than any split of
      the whole, whatever that split is. */
  lemma {:induction false} GreedyIsOptimal(greedy: seq<seq<Item>>, tail: seq<Item>, other: seq<seq<Item>>,
                                           items: seq<Item>, budget: int)
    requires IsSplit(greedy, tail, budget) && IsGreedy(greedy, budget)
    requires IsSplit(other, items, budget) && IsTail(tail, items)
    ensures |greedy| <= |other|
    decreases |other|
  {
    if greedy != [] {
      var greedy', tail' := Advance(greedy, tail, other, items, budget);
      GreedyIsOptimal(greedy', tail', other[1..], items[|other[0]|..], budget);
    }
  }

  /** `tail` is a final part of `items`. */
  predicate IsTail(tail: seq<Item>, items: seq<Item>) {
    |tail| <= |items| && tail == items[|items| - |tail|..]
  }

  /** After the other split's first batch, greedy is still ahead, and has used at most one batch more. */
  lemma {:induction false} Advance(greedy: seq<seq<Item>>, tail: seq<Item>, other: seq<seq<Item>>, items: seq<Item>,
                                   budget: int)
    returns (greedy': seq<seq<Item>>, tail': seq<Item>)
    requires IsSplit(greedy, tail, budget) && IsGreedy(greedy, budget) && greedy != []
    requires IsSplit(other, items, budget) && IsTail(tail, items)
    ensures other != [] && |other[0]| <= |items| && |greedy'| >= |greedy| - 1
    ensures IsSplit(greedy', tail', budget) && IsGreedy(greedy', budget)
    ensures IsSplit(other[1..], items[|other[0]|..], budget) && IsTail(tail', items[|other[0]|..])
  {
    EmptyOnlyTogether(greedy, tail, budget);
    EmptyOnlyTogether(other, items, budget);
    SplitOfRest(other, items, budget);
    if |tail| <= |items| - |other[0]| {
      TailOfTail(tail, items, |other[0]|, 0);
      greedy', tail' := greedy, tail;
    } else {
      greedy', tail' := TakeFirst(greedy, tail, other[0], items, budget);
    }
  }

  lemma {:induction false} TakeFirst(greedy: seq<seq<Item>>, tail: seq<Item>, first: seq<Item>, items: seq<Item>,
                                     budget: int)
    returns (greedy': seq<seq<Item>>, tail': seq<Item>)
    requires IsSplit(greedy, tail, budget) && IsGreedy(greedy, budget) && greedy != []
    requires |first| <= |items| && first == items[..|first|] && Fits(first, budget)
    requires |items| - |first| < |tail| && IsTail(tail, items)
    ensures greedy' == greedy[1..] && IsSplit(greedy', tail', budget) && IsGreedy(greedy', budget)
    ensures IsTail(tail', items[|first|..])
  {
    SplitOfRest(greedy, tail, budget);
    FirstBatchReaches(greedy, tail, first, items, budget);
    GreedyRest(greedy, budget);
    TailOfTail(tail, items, |first|, |greedy[0]|);
    greedy', tail' := greedy[1..], tail[|greedy[0]|..];
  }

  lemma {:induction false} EmptyOnlyTogether(batches: seq<seq<Item>>, items: seq<Item>, budget: int)
    requires IsSplit(batches, items, budget)
    ensures batches == [] <==> items == []
  {
    if batches != [] {
      SplitOfRest(batches, items, budget);
    }
  }

  lemma {:induction false} TailOfTail(tail: seq<Item>, items: seq<Item>, first: nat, taken: nat)
    requires IsTail(tail, items) && first <= |items| && taken <= |tail| && |tail| - taken <= |items| - first
    ensures IsTail(tail[taken..], items[first..])
  {
    var rest, tail' := items[first..], tail[taken..];
    var at := |rest| - |tail'|;
    forall k | 0 <= k < |tail'|
      ensures tail'[k] == rest[at..][k]
    {
      assert tail'[k] == tail[taken + k] == items[|items| - |tail| + taken + k];
      assert rest[at..][k] == rest[at + k] == items[first + at + k];
    }
  }

  /** A greedy first batch takes at least what another split's first batch takes of the same tail. */
  lemma {:induction false} FirstBatchReaches(greedy: seq<seq<Item>>, tail: seq<Item>, first: seq<Item>,
                                             items: seq<Item>, budget: int)
    requires IsSplit(greedy, tail, budget) && IsGreedy(greedy, budget) && greedy != []
    requires |first| <= |items| && first == items[..|first|] && Fits(first, budget)
    requires |items| - |first| < |tail| && IsTail(tail, items)
    ensures |greedy[0]| >= |tail| - (|items| - |first|)
  {
    var taken := |tail| - (|items| - |first|);
    HeadOfTail(items, |first|, |tail|);
    PartOfFitting(first, |first| - taken, |first|, budget);
    FirstBatchIsLongest(greedy, tail, taken, budget);
  }

  lemma {:induction false} HeadOfTail(items: seq<Item>, first: nat, length: nat)
    requires first <= |items| && |items| - first < length <= |items|
    ensures var taken := length - (|items| - first);
            items[|items| - length..][..taken] == items[..first][first - taken..first]
  {
  }

  lemma {:induction false} SplitOfRest(batches: seq<seq<Item>>, items: seq<Item>, budget: int)
    requires IsSplit(batches, items, budget) && batches != []
    ensures |batches[0]| <= |items| && batches[0] == items[..|batches[0]|] && Fits(batches[0], budget)
    ensures IsSplit(batches[1..], items[|batches[0]|..], budget)
  {
    assert batches[0] in batches;
    assert forall b | b in batches[1..] :: b in batches;
  }

  lemma {:induction false} GreedyRest(greedy: seq<seq<Item>>, budget: int)
    requires IsGreedy(greedy, budget) && greedy != []
    ensures IsGreedy(greedy[1..], budget)
  {
    var after := greedy[1..];
    forall i, j | 0 <= i && j == i + 1 < |after|
      ensures Full(after[i], after[j], budget)
    {
      assert Full(greedy[i + 1], greedy[j + 1], budget);
    }
  }

  lemma {:induction false} FirstBatchIsLongest(greedy: seq<seq<Item>>, items: seq<Item>, taken: nat, budget: int)
    requires IsSplit(greedy, items, budget) && IsGreedy(greedy, budget)
    requires greedy != [] && 1 <= taken <= |items| && Fits(items[..taken], budget)
    ensures |greedy[0]| >= taken
  {
    var n := |greedy[0]|;
    assert greedy[0] in greedy;
    assert items[n..] == Concat(greedy[1..]);
    if |greedy| == 1 {
      assert items[n..] == [];
    } else {
      assert greedy[1..][0] == greedy[1] && Full(greedy[0], greedy[1], budget);
      assert items[n] == greedy[1][0];
      var longer := items[..n + 1];
      assert longer == greedy[0] + [greedy[1][0]];
      if n < taken {
        assert longer == items[..taken][0..n + 1];
        PartOfFitting(items[..taken], 0, n + 1, budget);
      }
    }
  }

  /** No order-preserving split into batches within the caps uses fewer batches. */
  lemma {:induction false} NoSplitUsesFewerBatches(greedy: seq<seq<Item>>, other: seq<seq<Item>>, items: seq<Item>,
                                                   budget: int)
    requires IsSplit(greedy, items, budget) && IsGreedy(greedy, budget)
    requires IsSplit(other, items, budget)
    ensures |greedy| <= |other|
  {
    assert items == items[|items| - |items|..];
    GreedyIsOptimal(greedy, items, other, items, budget);
  }
}

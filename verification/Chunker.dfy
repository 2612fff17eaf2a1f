/** First-fit chunking of file diffs (internal/chunker/chunker.go). */
module Chunker {

  datatype Item = Item(path: string, diff: string, tokenCount: int)

  /** A placement says for each item which chunk it went to. */
  type Placement = seq<nat>

  /** The items placed in chunk `c`, in input order. */
  function Select(items: seq<Item>, placement: Placement, c: nat): seq<Item>
    requires |placement| == |items|
  {
    if items == [] then []
    else
      var n := |items| - 1;
      Select(items[..n], placement[..n], c) + if placement[n] == c then [items[n]] else []
  }

  function Weight(chunk: seq<Item>, w: Item -> int): int {
    if chunk == [] then 0 else Weight(chunk[..|chunk| - 1], w) + w(chunk[|chunk| - 1])
  }

  function TokenWeight(): Item -> int { (it: Item) => it.tokenCount }

  function Tokens(chunk: seq<Item>): int { Weight(chunk, TokenWeight()) }

  predicate Oversized(item: Item, limit: int) {
    limit <= 0 || item.tokenCount > limit
  }

  /** A chunk within the limit, or one oversized item alone. */
  predicate FitsLimit(chunk: seq<Item>, limit: int) {
    || (|chunk| == 1 && Oversized(chunk[0], limit))
    || (Tokens(chunk) <= limit && forall k :: 0 <= k < |chunk| ==> !Oversized(chunk[k], limit))
  }

  /** The chunks are a partition of the items: each item is in exactly one of them, in input order. */
  ghost predicate IsPartition(items: seq<Item>, chunks: seq<seq<Item>>, placement: Placement) {
    && |placement| == |items|
    && (forall k :: 0 <= k < |items| ==> placement[k] < |chunks|)
    && (forall c :: 0 <= c < |chunks| ==> chunks[c] == Select(items, placement, c) && chunks[c] != [])
  }

  // ---------------------------------------------------------------- the first-fit rule

  /** The number of chunks a placement has opened. */
  function Chunks(placement: Placement): nat {
    if placement == [] then 0
    else
      var n := |placement| - 1;
      if placement[n] >= Chunks(placement[..n]) then placement[n] + 1 else Chunks(placement[..n])
  }

  predicate HasRoom(items: seq<Item>, placement: Placement, item: Item, c: nat, limit: int)
    requires |placement| == |items|
  {
    Tokens(Select(items, placement, c)) + item.tokenCount <= limit
  }

  /** `item` goes to the earliest open chunk with room for it; if there is none, or the item is oversized,
      it opens the next chunk. */
  predicate ChoosesFirst(items: seq<Item>, placement: Placement, item: Item, c: nat, limit: int)
    requires |placement| == |items|
  {
    if Oversized(item, limit) then c == Chunks(placement)
    else
      && c <= Chunks(placement)
      && (c < Chunks(placement) ==> HasRoom(items, placement, item, c, limit))
      && forall d :: 0 <= d < c ==> !HasRoom(items, placement, item, d, limit)
  }

  predicate IsFirstFit(items: seq<Item>, placement: Placement, limit: int) {
    && |placement| == |items|
    && (items == []
        || var n := |items| - 1;
           IsFirstFit(items[..n], placement[..n], limit)
           && ChoosesFirst(items[..n], placement[..n], items[n], placement[n], limit))
  }

  /** The rule leaves no choice. */
  lemma {:induction false} FirstFitIsUnique(items: seq<Item>, p: Placement, q: Placement, limit: int)
    requires IsFirstFit(items, p, limit) && IsFirstFit(items, q, limit)
    ensures p == q
    decreases |items|
  {
    if items != [] {
      var n := |items| - 1;
      FirstFitIsUnique(items[..n], p[..n], q[..n], limit);
      hide IsFirstFit, ChoosesFirst;
      ChoiceIsUnique(items[..n], p[..n], items[n], p[n], q[n], limit);
      assert p == p[..n] + [p[n]] && q == q[..n] + [q[n]];
    }
  }

  lemma ChoiceIsUnique(items: seq<Item>, p: Placement, item: Item, c: nat, d: nat, limit: int)
    requires |p| == |items| && ChoosesFirst(items, p, item, c, limit) && ChoosesFirst(items, p, item, d, limit)
    ensures c == d
  {
    hide Chunks, HasRoom;
  }

  // ---------------------------------------------------------------- the code

  lemma Extend(items: seq<Item>, placement: Placement, item: Item, c: nat, d: nat)
    requires |placement| == |items|
    ensures Select(items + [item], placement + [c], d)
            == Select(items, placement, d) + if c == d then [item] else []
    ensures Chunks(placement + [c]) == if c >= Chunks(placement) then c + 1 else Chunks(placement)
  {
    assert (items + [item])[..|items|] == items && (placement + [c])[..|items|] == placement;
  }

  lemma ExtendFirstFit(items: seq<Item>, placement: Placement, item: Item, c: nat, limit: int)
    requires IsFirstFit(items, placement, limit) && ChoosesFirst(items, placement, item, c, limit)
    ensures IsFirstFit(items + [item], placement + [c], limit)
  {
    assert (items + [item])[..|items|] == items && (placement + [c])[..|items|] == placement;
  }

  lemma WeightAppend(chunk: seq<Item>, item: Item, w: Item -> int)
    ensures Weight(chunk + [item], w) == Weight(chunk, w) + w(item)
  {
    assert (chunk + [item])[..|chunk|] == chunk;
  }

  /** The state of the loop after the items of `done`. */
  ghost predicate Packed(
    done: seq<Item>, placement: Placement, chunks: seq<seq<Item>>, totals: seq<int>, limit: int)
  {
    && IsPartition(done, chunks, placement)
    && IsFirstFit(done, placement, limit)
    && Chunks(placement) == |chunks| == |totals|
    && forall c :: 0 <= c < |chunks| ==> totals[c] == Tokens(chunks[c])
  }

  lemma {:induction false} SelectUnopened(items: seq<Item>, placement: Placement, c: nat)
    requires |placement| == |items| && forall k :: 0 <= k < |items| ==> placement[k] < c
    ensures Select(items, placement, c) == []
    decreases |items|
  {
    if items != [] {
      SelectUnopened(items[..|items| - 1], placement[..|items| - 1], c);
    }
  }

  lemma OpenKeepsPacked(
    done: seq<Item>, placement: Placement, chunks: seq<seq<Item>>, totals: seq<int>, limit: int, item: Item)
    requires Packed(done, placement, chunks, totals, limit)
    requires ChoosesFirst(done, placement, item, |chunks|, limit)
    ensures Packed(done + [item], placement + [|chunks|], chunks + [[item]], totals + [item.tokenCount], limit)
  {
    var more := chunks + [[item]];
    forall c | 0 <= c < |more| ensures more[c] == Select(done + [item], placement + [|chunks|], c) {
      Extend(done, placement, item, |chunks|, c);
      if c == |chunks| {
        SelectUnopened(done, placement, c);
      }
    }
    ExtendFirstFit(done, placement, item, |chunks|, limit);
    Extend(done, placement, item, |chunks|, 0);
    WeightAppend([], item, TokenWeight());
    assert [] + [item] == [item];
  }

  lemma AddKeepsPacked(
    done: seq<Item>, placement: Placement, chunks: seq<seq<Item>>, totals: seq<int>, limit: int, item: Item, c: nat)
    requires Packed(done, placement, chunks, totals, limit)
    requires c < |chunks| && ChoosesFirst(done, placement, item, c, limit)
    ensures Packed(done + [item], placement + [c], chunks[c := chunks[c] + [item]],
                   totals[c := totals[c] + item.tokenCount], limit)
  {
    var more := chunks[c := chunks[c] + [item]];
    forall d | 0 <= d < |more| ensures more[d] == Select(done + [item], placement + [c], d) {
      Extend(done, placement, item, c, d);
    }
    ExtendFirstFit(done, placement, item, c, limit);
    Extend(done, placement, item, c, 0);
    WeightAppend(chunks[c], item, TokenWeight());
  }

  /** The chunks are those of a first-fit placement of the items. */
  ghost predicate FirstFitChunks(items: seq<Item>, chunks: seq<seq<Item>>, limit: int) {
    exists p: Placement :: IsPartition(items, chunks, p) && IsFirstFit(items, p, limit) && |chunks| == Chunks(p)
  }

  method Chunk(items: seq<Item>, tokenLimit: int) returns (chunks: seq<seq<Item>>)
    ensures FirstFitChunks(items, chunks, tokenLimit)
  {
    ghost var placement: Placement := [];
    chunks := [];
    if |items| == 0 {
      assert IsPartition(items, chunks, placement) && IsFirstFit(items, placement, tokenLimit);
      return;
    }
    var totals: seq<int> := [];
    for k := 0 to |items|
      invariant Packed(items[..k], placement, chunks, totals, tokenLimit)
    {
      var it := items[k];
      assert items[..k + 1] == items[..k] + [it];
      if tokenLimit <= 0 || it.tokenCount > tokenLimit {
        OpenKeepsPacked(items[..k], placement, chunks, totals, tokenLimit, it);
        placement := placement + [|chunks|];
        chunks := chunks + [[it]];
        totals := totals + [it.tokenCount];
        continue;
      }

      var placed := false;
      for i := 0 to |chunks|
        invariant !placed && Packed(items[..k], placement, chunks, totals, tokenLimit)
        invariant forall d :: 0 <= d < i ==> !HasRoom(items[..k], placement, it, d, tokenLimit)
      {
        if totals[i] + it.tokenCount <= tokenLimit {
          AddKeepsPacked(items[..k], placement, chunks, totals, tokenLimit, it, i);
          chunks := chunks[i := chunks[i] + [it]];
          totals := totals[i := totals[i] + it.tokenCount];
          placement := placement + [i];
          placed := true;
          break;
        }
      }
      if !placed {
        OpenKeepsPacked(items[..k], placement, chunks, totals, tokenLimit, it);
        placement := placement + [|chunks|];
        chunks := chunks + [[it]];
        totals := totals + [it.tokenCount];
      }
    }
    assert items[..|items|] == items;
  }

  // ---------------------------------------------------------------- quality of the result

  predicate NonNegative(items: seq<Item>) {
    forall k :: 0 <= k < |items| ==> items[k].tokenCount >= 0
  }

  /** A way to put the items into `bins` bins, each empty or within the limit; order does not matter. */
  ghost predicate IsPacking(items: seq<Item>, q: Placement, bins: nat, limit: int) {
    && |q| == |items|
    && (forall k :: 0 <= k < |items| ==> q[k] < bins)
    && (forall c :: 0 <= c < bins ==> Select(items, q, c) == [] || FitsLimit(Select(items, q, c), limit))
  }

  function RegularWeight(limit: int): Item -> int {
    (it: Item) => if Oversized(it, limit) then 0 else it.tokenCount
  }

  function RegularCount(limit: int): Item -> int {
    (it: Item) => if Oversized(it, limit) then 0 else 1
  }

  function OversizedCount(limit: int): Item -> int {
    (it: Item) => if Oversized(it, limit) then 1 else 0
  }

  /** The weight of one bin, and of the first `bins` of them. */
  function BinWeight(items: seq<Item>, q: Placement, c: nat, w: Item -> int): int
    requires |q| == |items|
  {
    Weight(Select(items, q, c), w)
  }

  function BinsWeight(items: seq<Item>, q: Placement, bins: nat, w: Item -> int): int
    requires |q| == |items|
  {
    if bins == 0 then 0 else BinsWeight(items, q, bins - 1, w) + BinWeight(items, q, bins - 1, w)
  }

  lemma BinWeightAppend(items: seq<Item>, q: Placement, item: Item, c: nat, d: nat, w: Item -> int)
    requires |q| == |items|
    ensures BinWeight(items + [item], q + [c], d, w) == BinWeight(items, q, d, w) + if c == d then w(item) else 0
  {
    var bin := Select(items, q, d);
    Extend(items, q, item, c, d);
    WeightAppend(bin, item, w);
    assert bin + [] == bin;
  }

  lemma {:induction false} BinsWeightAppend(
    items: seq<Item>, q: Placement, item: Item, c: nat, bins: nat, w: Item -> int)
    requires |q| == |items|
    ensures BinsWeight(items + [item], q + [c], bins, w) == BinsWeight(items, q, bins, w) + if c < bins then w(item) else 0
  {
    if bins > 0 {
      BinsWeightAppend(items, q, item, c, bins - 1, w);
      BinWeightAppend(items, q, item, c, bins - 1, w);
    }
  }

  /** However the items are spread over the bins, the weights add up to the same. */
  lemma {:induction false} WeightIsConserved(items: seq<Item>, q: Placement, bins: nat, w: Item -> int)
    requires |q| == |items| && forall k :: 0 <= k < |items| ==> q[k] < bins
    ensures BinsWeight(items, q, bins, w) == Weight(items, w)
    decreases |items|
  {
    hide BinsWeight;
    if items == [] {
      EmptyBins(q, bins, w);
    } else {
      var n := |items| - 1;
      WeightIsConserved(items[..n], q[..n], bins, w);
      BinsWeightAppend(items[..n], q[..n], items[n], q[n], bins, w);
      assert items == items[..n] + [items[n]] && q == q[..n] + [q[n]];
    }
  }

  lemma {:induction false} EmptyBins(q: Placement, bins: nat, w: Item -> int)
    requires q == []
    ensures BinsWeight([], q, bins, w) == 0
  {
    if bins > 0 {
      EmptyBins(q, bins - 1, w);
    }
  }

  // ---------------------------------------------------------------- single chunks

  lemma {:induction false} AllRegularWeights(chunk: seq<Item>, limit: int)
    requires forall k :: 0 <= k < |chunk| ==> !Oversized(chunk[k], limit)
    ensures Weight(chunk, OversizedCount(limit)) == 0
    ensures Weight(chunk, RegularWeight(limit)) == Tokens(chunk)
    ensures Weight(chunk, RegularCount(limit)) == |chunk|
    decreases |chunk|
  {
    if chunk != [] {
      AllRegularWeights(chunk[..|chunk| - 1], limit);
    }
  }

  lemma LoneWeights(item: Item, w: Item -> int)
    ensures Weight([item], w) == w(item)
  {
    WeightAppend([], item, w);
    assert [] + [item] == [item];
  }

  /** A chunk that fits is a lone oversized item, or has only regular items within the limit. */
  lemma FittingWeights(chunk: seq<Item>, limit: int)
    requires chunk == [] || FitsLimit(chunk, limit)
    ensures var o, t, n := Weight(chunk, OversizedCount(limit)), Weight(chunk, RegularWeight(limit)),
                           Weight(chunk, RegularCount(limit));
            || (o == 1 && t == 0 && n == 0)
            || (o == 0 && t == Tokens(chunk) && n == |chunk| && (t <= limit || chunk == []))
  {
    if |chunk| == 1 && Oversized(chunk[0], limit) {
      assert chunk == [chunk[0]];
      LoneWeights(chunk[0], OversizedCount(limit));
      LoneWeights(chunk[0], RegularWeight(limit));
      LoneWeights(chunk[0], RegularCount(limit));
    } else {
      AllRegularWeights(chunk, limit);
    }
  }

  // ---------------------------------------------------------------- what first fit achieves

  predicate IsRegular(chunk: seq<Item>, limit: int) {
    Tokens(chunk) <= limit
  }

  /** Two regular chunks never fit together. */
  ghost predicate PairsExceed(items: seq<Item>, p: Placement, limit: int)
    requires |p| == |items|
  {
    forall c, d :: 0 <= c < d < Chunks(p) && IsRegular(Select(items, p, c), limit) && IsRegular(Select(items, p, d), limit)
                   ==> Tokens(Select(items, p, c)) + Tokens(Select(items, p, d)) > limit
  }

  ghost predicate ChunksFit(items: seq<Item>, p: Placement, limit: int)
    requires |p| == |items|
  {
    forall c :: 0 <= c < Chunks(p) ==> FitsLimit(Select(items, p, c), limit)
  }

  lemma {:induction false} PlacedBelow(items: seq<Item>, p: Placement, limit: int)
    requires IsFirstFit(items, p, limit)
    ensures forall k :: 0 <= k < |items| ==> p[k] < Chunks(p)
    decreases |items|
  {
    if items != [] {
      var n := |items| - 1;
      PlacedBelow(items[..n], p[..n], limit);
      assert forall k :: 0 <= k < n ==> p[k] == p[..n][k];
    }
  }

  lemma NoTokens()
    ensures Tokens([]) == 0
  {
  }

  /** How the chunks look after one more item. */
  lemma ChunkAfter(items: seq<Item>, p: Placement, item: Item, c: nat, d: nat, limit: int)
    requires IsFirstFit(items, p, limit)
    ensures var before, after := Select(items, p, d), Select(items + [item], p + [c], d);
            && after == before + (if c == d then [item] else [])
            && Tokens(after) == Tokens(before) + (if c == d then item.tokenCount else 0)
            && (d >= Chunks(p) ==> before == [] && Tokens(before) == 0)
  {
    assert |p| == |items|;
    hide IsFirstFit, Weight;
    Extend(items, p, item, c, d);
    BinWeightAppend(items, p, item, c, d, TokenWeight());
    if d >= Chunks(p) {
      PlacedBelow(items, p, limit);
      SelectUnopened(items, p, d);
      NoTokens();
    }
  }

  lemma AddedChunkFits(chunk: seq<Item>, item: Item, limit: int)
    requires FitsLimit(chunk, limit) && item.tokenCount >= 0 && !Oversized(item, limit)
    requires Tokens(chunk) + item.tokenCount <= limit
    ensures FitsLimit(chunk + [item], limit)
  {
    WeightAppend(chunk, item, TokenWeight());
    assert !(|chunk| == 1 && Oversized(chunk[0], limit)) by {
      if |chunk| == 1 {
        LoneWeights(chunk[0], TokenWeight());
        assert chunk == [chunk[0]];
      }
    }
  }

  lemma StepFitsAt(items: seq<Item>, p: Placement, item: Item, c: nat, d: nat, limit: int)
    requires IsFirstFit(items, p, limit) && ChoosesFirst(items, p, item, c, limit) && item.tokenCount >= 0
    requires d < Chunks(p) ==> FitsLimit(Select(items, p, d), limit)
    requires d < Chunks(p) || d == c
    ensures FitsLimit(Select(items + [item], p + [c], d), limit)
  {
    ChunkAfter(items, p, item, c, d, limit);
    if c == d && c < Chunks(p) {
      AddedChunkFits(Select(items, p, c), item, limit);
    } else if c == d {
      assert [] + [item] == [item];
      LoneWeights(item, TokenWeight());
    } else {
      assert Select(items, p, d) + [] == Select(items, p, d);
    }
  }

  lemma StepFits(items: seq<Item>, p: Placement, item: Item, c: nat, limit: int)
    requires IsFirstFit(items, p, limit) && ChoosesFirst(items, p, item, c, limit)
    requires ChunksFit(items, p, limit) && item.tokenCount >= 0
    ensures ChunksFit(items + [item], p + [c], limit)
  {
    Extend(items, p, item, c, 0);
    forall d | 0 <= d < Chunks(p + [c]) ensures FitsLimit(Select(items + [item], p + [c], d), limit) {
      StepFitsAt(items, p, item, c, d, limit);
    }
  }

  lemma StepExceeds(items: seq<Item>, p: Placement, item: Item, c: nat, limit: int)
    requires IsFirstFit(items, p, limit) && ChoosesFirst(items, p, item, c, limit)
    requires PairsExceed(items, p, limit) && item.tokenCount >= 0 && limit > 0
    ensures PairsExceed(items + [item], p + [c], limit)
  {
    Extend(items, p, item, c, 0);
    var more, q := items + [item], p + [c];
    forall a, b | 0 <= a < b < Chunks(q) && IsRegular(Select(more, q, a), limit) && IsRegular(Select(more, q, b), limit)
      ensures Tokens(Select(more, q, a)) + Tokens(Select(more, q, b)) > limit
    {
      ChunkAfter(items, p, item, c, a, limit);
      ChunkAfter(items, p, item, c, b, limit);
      if b < Chunks(p) {
        assert IsRegular(Select(items, p, a), limit) && IsRegular(Select(items, p, b), limit);
      } else {
        assert b == c && !Oversized(item, limit);
        assert !HasRoom(items, p, item, a, limit);
      }
    }
  }

  lemma {:induction false} FirstFitQuality(items: seq<Item>, p: Placement, limit: int)
    requires IsFirstFit(items, p, limit) && NonNegative(items)
    ensures ChunksFit(items, p, limit)
    ensures limit > 0 ==> PairsExceed(items, p, limit)
    decreases |items|
  {
    if items != [] {
      var n := |items| - 1;
      FirstFitQuality(items[..n], p[..n], limit);
      StepFits(items[..n], p[..n], items[n], p[n], limit);
      if limit > 0 {
        StepExceeds(items[..n], p[..n], items[n], p[n], limit);
      }
      assert items == items[..n] + [items[n]] && p == p[..n] + [p[n]];
    }
  }

  /** Every chunk of the result is within the limit or a lone oversized item, and any two that are within
      the limit exceed it together. */
  lemma ChunksAreGood(items: seq<Item>, chunks: seq<seq<Item>>, p: Placement, limit: int)
    requires IsPartition(items, chunks, p) && IsFirstFit(items, p, limit) && |chunks| == Chunks(p)
    requires NonNegative(items)
    ensures forall c :: 0 <= c < |chunks| ==> FitsLimit(chunks[c], limit)
    ensures limit > 0 ==>
              forall c, d :: 0 <= c < d < |chunks| && IsRegular(chunks[c], limit) && IsRegular(chunks[d], limit)
                             ==> Tokens(chunks[c]) + Tokens(chunks[d]) > limit
  {
    FirstFitQuality(items, p, limit);
  }

  // ---------------------------------------------------------------- the bound against every packing

  /** The weight of a row of chunks. */
  function RowWeight(chunks: seq<seq<Item>>, w: Item -> int): int {
    if chunks == [] then 0 else RowWeight(chunks[..|chunks| - 1], w) + Weight(chunks[|chunks| - 1], w)
  }

  lemma {:induction false} RowIsBins(items: seq<Item>, p: Placement, chunks: seq<seq<Item>>, w: Item -> int)
    requires |p| == |items| && forall c :: 0 <= c < |chunks| ==> chunks[c] == Select(items, p, c)
    ensures RowWeight(chunks, w) == BinsWeight(items, p, |chunks|, w)
    decreases |chunks|
  {
    if chunks != [] {
      RowIsBins(items, p, chunks[..|chunks| - 1], w);
    }
  }

  predicate RowFits(chunks: seq<seq<Item>>, limit: int) {
    forall c :: 0 <= c < |chunks| ==> FitsLimit(chunks[c], limit)
  }

  predicate IsLone(chunk: seq<Item>, limit: int) {
    |chunk| == 1 && Oversized(chunk[0], limit)
  }

  /** The loads of the chunks without an oversized item. */
  function RegularLoads(chunks: seq<seq<Item>>, limit: int): seq<int> {
    if chunks == [] then []
    else
      var n := |chunks| - 1;
      RegularLoads(chunks[..n], limit) + if IsLone(chunks[n], limit) then [] else [Tokens(chunks[n])]
  }

  function Sum(s: seq<int>): int {
    if s == [] then 0 else Sum(s[..|s| - 1]) + s[|s| - 1]
  }

  lemma SumAppend(s: seq<int>, x: int)
    ensures Sum(s + [x]) == Sum(s) + x
  {
    assert (s + [x])[..|s|] == s;
  }

  lemma FittingLoad(chunk: seq<Item>, limit: int)
    requires FitsLimit(chunk, limit)
    ensures if IsLone(chunk, limit) then Weight(chunk, OversizedCount(limit)) == 1 && Weight(chunk, RegularWeight(limit)) == 0
            else Weight(chunk, OversizedCount(limit)) == 0 && Weight(chunk, RegularWeight(limit)) == Tokens(chunk) <= limit
  {
    if IsLone(chunk, limit) {
      assert chunk == [chunk[0]];
      LoneWeights(chunk[0], OversizedCount(limit));
      LoneWeights(chunk[0], RegularWeight(limit));
    } else {
      AllRegularWeights(chunk, limit);
    }
  }

  lemma {:induction false} RegularLoadsCount(chunks: seq<seq<Item>>, limit: int)
    requires RowFits(chunks, limit)
    ensures |RegularLoads(chunks, limit)| == |chunks| - RowWeight(chunks, OversizedCount(limit))
    ensures Sum(RegularLoads(chunks, limit)) == RowWeight(chunks, RegularWeight(limit))
    decreases |chunks|
  {
    if chunks != [] {
      var n := |chunks| - 1;
      var before := RegularLoads(chunks[..n], limit);
      RegularLoadsCount(chunks[..n], limit);
      FittingLoad(chunks[n], limit);
      SumAppend(before, Tokens(chunks[n]));
      assert before + [] == before;
    }
  }

  lemma {:induction false} RegularLoadIsALoad(chunks: seq<seq<Item>>, limit: int, i: nat) returns (c: nat)
    requires RowFits(chunks, limit) && i < |RegularLoads(chunks, limit)|
    ensures c < |chunks| && IsRegular(chunks[c], limit) && RegularLoads(chunks, limit)[i] == Tokens(chunks[c])
    decreases |chunks|
  {
    var n := |chunks| - 1;
    if i < |RegularLoads(chunks[..n], limit)| {
      c := RegularLoadIsALoad(chunks[..n], limit, i);
    } else {
      c := n;
    }
  }

  predicate RowExceeds(chunks: seq<seq<Item>>, limit: int) {
    forall c, d :: 0 <= c < d < |chunks| && IsRegular(chunks[c], limit) && IsRegular(chunks[d], limit)
                   ==> Tokens(chunks[c]) + Tokens(chunks[d]) > limit
  }

  lemma {:induction false} RegularLoadsExceed(chunks: seq<seq<Item>>, limit: int, i: nat, j: nat)
    requires RowFits(chunks, limit) && RowExceeds(chunks, limit) && i < j < |RegularLoads(chunks, limit)|
    ensures RegularLoads(chunks, limit)[i] + RegularLoads(chunks, limit)[j] > limit
    decreases |chunks|
  {
    var n := |chunks| - 1;
    if j < |RegularLoads(chunks[..n], limit)| {
      RegularLoadsExceed(chunks[..n], limit, i, j);
    } else {
      var c := RegularLoadIsALoad(chunks[..n], limit, i);
      assert IsRegular(chunks[n], limit);
    }
  }

  lemma SmallSum(s: seq<int>)
    requires |s| <= 1
    ensures Sum(s) == if s == [] then 0 else s[0]
  {
    if s != [] {
      SumAppend([], s[0]);
      assert s == [] + [s[0]];
    }
  }

  predicate SumsExceed(s: seq<int>, limit: int) {
    forall i, j :: 0 <= i < j < |s| ==> s[i] + s[j] > limit
  }

  lemma FrontSumsExceed(s: seq<int>, limit: int)
    requires |s| >= 2 && SumsExceed(s, limit)
    ensures SumsExceed(s[..|s| - 2], limit) && s[|s| - 2] + s[|s| - 1] > limit
    ensures |s| == 3 ==> s[0] + s[1] > limit && s[0] + s[2] > limit
  {
  }

  /** If any two entries exceed `limit` together, the sum exceeds half of `limit` per entry. */
  lemma {:induction false} PairwiseSum(s: seq<int>, limit: int)
    requires |s| >= 2 && SumsExceed(s, limit)
    ensures 2 * Sum(s) >= |s| * (limit + 1)
    decreases |s|
  {
    hide SumsExceed, Sum;
    var n := |s|;
    var front := s[..n - 2];
    assert s == front + [s[n - 2]] + [s[n - 1]];
    SumAppend(front, s[n - 2]);
    SumAppend(front + [s[n - 2]], s[n - 1]);
    FrontSumsExceed(s, limit);
    if n <= 3 {
      SmallSum(front);
    } else {
      PairwiseSum(front, limit);
      assert (n - 2) * (limit + 1) == n * (limit + 1) - 2 * (limit + 1);
    }
  }

  /** A packing spends one bin on each oversized item and has at most the limit in each other bin. */
  lemma {:induction false} PackingCapacity(items: seq<Item>, q: Placement, bins: nat, n: nat, limit: int)
    requires IsPacking(items, q, bins, limit) && n <= bins && limit > 0
    ensures var o := BinsWeight(items, q, n, OversizedCount(limit));
            && 0 <= o <= n
            && BinsWeight(items, q, n, RegularWeight(limit)) <= (n - o) * limit
            && (o == n ==> BinsWeight(items, q, n, RegularCount(limit)) == 0)
  {
    hide Weight, Select;
    if n > 0 {
      PackingCapacity(items, q, bins, n - 1, limit);
      FittingWeights(Select(items, q, n - 1), limit);
      NoTokens();
      var o := BinsWeight(items, q, n - 1, OversizedCount(limit));
      var last := BinWeight(items, q, n - 1, OversizedCount(limit));
      assert (n - (o + last)) * limit == (n - 1 - o) * limit + (1 - last) * limit;
      assert BinsWeight(items, q, n, OversizedCount(limit)) == o + last;
    }
  }

  lemma {:induction false} CountsAddUp(items: seq<Item>, limit: int)
    ensures Weight(items, RegularCount(limit)) + Weight(items, OversizedCount(limit)) == |items|
    ensures limit <= 0 ==> Weight(items, RegularCount(limit)) == 0
    ensures 0 <= Weight(items, RegularCount(limit))
    decreases |items|
  {
    if items != [] {
      CountsAddUp(items[..|items| - 1], limit);
    }
  }

  /** Some chunks of a first-fit result hold an oversized item each, and the others, if there are two or
      more, carry more than half the limit each on average. */
  lemma FirstFitLoads(items: seq<Item>, chunks: seq<seq<Item>>, p: Placement, limit: int) returns (regular: nat)
    requires IsPartition(items, chunks, p) && IsFirstFit(items, p, limit) && |chunks| == Chunks(p)
    requires NonNegative(items) && limit > 0
    ensures |chunks| == regular + Weight(items, OversizedCount(limit))
    ensures regular >= 2 ==> 2 * Weight(items, RegularWeight(limit)) >= regular * (limit + 1)
  {
    ChunksAreGood(items, chunks, p, limit);
    RegularLoadsCount(chunks, limit);
    RowIsBins(items, p, chunks, OversizedCount(limit));
    RowIsBins(items, p, chunks, RegularWeight(limit));
    WeightIsConserved(items, p, |chunks|, OversizedCount(limit));
    WeightIsConserved(items, p, |chunks|, RegularWeight(limit));
    var loads := RegularLoads(chunks, limit);
    regular := |loads|;
    if regular >= 2 {
      forall i, j | 0 <= i < j < |loads| ensures loads[i] + loads[j] > limit {
        RegularLoadsExceed(chunks, limit, i, j);
      }
      PairwiseSum(loads, limit);
    }
  }

  lemma PositiveFactor(a: int, b: int)
    requires b > 0 && a * b > 0
    ensures a > 0
  {
  }

  lemma TwiceBound(regular: nat, free: nat, limit: int, weight: int)
    requires limit > 0 && regular >= 2
    requires 2 * weight >= regular * (limit + 1) && weight <= free * limit
    ensures regular < 2 * free
  {
    assert regular * (limit + 1) == regular * limit + regular;
    assert (2 * free - regular) * limit == 2 * (free * limit) - regular * limit;
    PositiveFactor(2 * free - regular, limit);
  }

  lemma {:induction false} FewChunks(items: seq<Item>, p: Placement, limit: int)
    requires IsFirstFit(items, p, limit)
    ensures Chunks(p) <= |items|
    ensures items != [] ==> Chunks(p) > 0
    decreases |items|
  {
    if items != [] {
      FewChunks(items[..|items| - 1], p[..|items| - 1], limit);
    }
  }

  lemma {:induction false} LoneBins(items: seq<Item>, q: Placement, bins: nat, n: nat, limit: int)
    requires IsPacking(items, q, bins, limit) && n <= bins && limit <= 0
    ensures BinsWeight(items, q, n, OversizedCount(limit)) <= n
  {
    if n > 0 {
      LoneBins(items, q, bins, n - 1, limit);
      FittingWeights(Select(items, q, n - 1), limit);
    }
  }

  /** First fit uses fewer than twice the bins of any packing of the items, however ordered. */
  lemma FirstFitIsWithinTwice(
    items: seq<Item>, chunks: seq<seq<Item>>, p: Placement, limit: int, q: Placement, bins: nat)
    requires IsPartition(items, chunks, p) && IsFirstFit(items, p, limit) && |chunks| == Chunks(p)
    requires NonNegative(items) && IsPacking(items, q, bins, limit)
    ensures |chunks| <= 2 * bins
    ensures items != [] ==> |chunks| < 2 * bins
  {
    CountsAddUp(items, limit);
    FewChunks(items, p, limit);
    WeightIsConserved(items, q, bins, OversizedCount(limit));
    if limit <= 0 {
      LoneBins(items, q, bins, bins, limit);
    } else {
      var o := Weight(items, OversizedCount(limit));
      var regular := FirstFitLoads(items, chunks, p, limit);
      PackingCapacity(items, q, bins, bins, limit);
      WeightIsConserved(items, q, bins, RegularWeight(limit));
      WeightIsConserved(items, q, bins, RegularCount(limit));
      if o < bins && regular >= 2 {
        TwiceBound(regular, bins - o, limit, Weight(items, RegularWeight(limit)));
      }
    }
  }

  /** Chunk's result is determined: there is only one list of first-fit chunks. */
  lemma ChunksAreUnique(items: seq<Item>, a: seq<seq<Item>>, b: seq<seq<Item>>, limit: int)
    requires FirstFitChunks(items, a, limit) && FirstFitChunks(items, b, limit)
    ensures a == b
  {
    hide IsFirstFit, Chunks, Select;
    var p: Placement :| IsPartition(items, a, p) && IsFirstFit(items, p, limit) && |a| == Chunks(p);
    var q: Placement :| IsPartition(items, b, q) && IsFirstFit(items, q, limit) && |b| == Chunks(q);
    FirstFitIsUnique(items, p, q, limit);
  }

  /** What Chunk returns is at most twice as many chunks as any packing needs. */
  lemma ChunkIsWithinTwice(items: seq<Item>, chunks: seq<seq<Item>>, limit: int, q: Placement, bins: nat)
    requires FirstFitChunks(items, chunks, limit) && NonNegative(items) && IsPacking(items, q, bins, limit)
    ensures |chunks| <= 2 * bins && (items != [] ==> |chunks| < 2 * bins)
  {
    hide IsFirstFit, Chunks, Select, IsPartition, IsPacking;
    var p: Placement :| IsPartition(items, chunks, p) && IsFirstFit(items, p, limit) && |chunks| == Chunks(p);
    FirstFitIsWithinTwice(items, chunks, p, limit, q, bins);
  }

  // ---------------------------------------------------------------- what Chunk returns, item by item

  /** The tokens of the items in front of the k-th that went to chunk `c`. */
  function TokensBefore(items: seq<Item>, p: Placement, c: nat, k: nat): int
    requires |p| == |items| && k <= |items|
  {
    if k == 0 then 0
    else TokensBefore(items, p, c, k - 1) + if p[k - 1] == c then items[k - 1].tokenCount else 0
  }

  lemma {:induction false} TokensBeforeAre(items: seq<Item>, p: Placement, c: nat, k: nat)
    requires |p| == |items| && k <= |items|
    ensures TokensBefore(items, p, c, k) == Tokens(Select(items[..k], p[..k], c))
  {
    if k == 0 {
      assert items[..k] == [] && Select([], [], c) == [];
    } else {
      TokensBeforeAre(items, p, c, k - 1);
      assert items[..k] == items[..k - 1] + [items[k - 1]] && p[..k] == p[..k - 1] + [p[k - 1]];
      Extend(items[..k - 1], p[..k - 1], items[k - 1], p[k - 1], c);
      var chunk := Select(items[..k - 1], p[..k - 1], c);
      WeightAppend(chunk, items[k - 1], TokenWeight());
      assert chunk + [] == chunk;
    }
  }

  lemma {:induction false} OpenedInOrder(p: Placement, items: seq<Item>, limit: int, c: nat)
    requires IsFirstFit(items, p, limit)
    ensures c < Chunks(p) <==> c in p
    decreases |p|
  {
    if p != [] {
      var n := |p| - 1;
      OpenedInOrder(p[..n], items[..n], limit, c);
      assert p == p[..n] + [p[n]];
    }
  }

  lemma {:induction false} ChosenAt(items: seq<Item>, p: Placement, limit: int, k: nat)
    requires IsFirstFit(items, p, limit) && k < |items|
    ensures IsFirstFit(items[..k], p[..k], limit) && ChoosesFirst(items[..k], p[..k], items[k], p[k], limit)
    decreases |items|
  {
    var n := |items| - 1;
    if k < n {
      ChosenAt(items[..n], p[..n], limit, k);
      assert items[..n][..k] == items[..k] && p[..n][..k] == p[..k];
    }
  }

  /** Where each item goes. One that is too large, or any when there is no limit, starts a chunk of its own;
      another goes where it still fits, and in every earlier chunk it would not have; chunks are numbered as
      they are opened. */
  lemma FirstFitMeans(items: seq<Item>, p: Placement, limit: int, k: nat)
    requires IsFirstFit(items, p, limit) && |p| == |items| && k < |items|
    ensures limit <= 0 || items[k].tokenCount > limit ==> p[k] !in p[..k]
    ensures 0 < limit && items[k].tokenCount <= limit ==>
              && (forall c :: 0 <= c < p[k] ==> TokensBefore(items, p, c, k) + items[k].tokenCount > limit)
              && (p[k] in p[..k] ==> TokensBefore(items, p, p[k], k) + items[k].tokenCount <= limit)
    ensures forall c :: 0 <= c < p[k] ==> c in p[..k]
  {
    hide IsFirstFit, Chunks, Select, Tokens;
    ChosenAt(items, p, limit, k);
    forall c: nat ensures c < Chunks(p[..k]) <==> c in p[..k] {
      OpenedInOrder(p[..k], items[..k], limit, c);
    }
    forall c: nat
      ensures HasRoom(items[..k], p[..k], items[k], c, limit) <==> TokensBefore(items, p, c, k) + items[k].tokenCount <= limit
    {
      TokensBeforeAre(items, p, c, k);
    }
    hide HasRoom;
    if !Oversized(items[k], limit) {
      forall c: nat | c < p[k] ensures TokensBefore(items, p, c, k) + items[k].tokenCount > limit {
        assert !HasRoom(items[..k], p[..k], items[k], c, limit);
      }
    }
  }

  /** A chunk is the items placed there, all of them, in the order of the input. */
  lemma {:induction false} ChunkIsInOrder(items: seq<Item>, placement: Placement, c: nat) returns (at: seq<nat>)
    requires |placement| == |items|
    ensures var chunk := Select(items, placement, c);
            && |at| == |chunk|
            && (forall i :: 0 <= i < |at| ==> at[i] < |items| && placement[at[i]] == c && chunk[i] == items[at[i]])
            && (forall i, j :: 0 <= i < j < |at| ==> at[i] < at[j])
            && (forall k :: 0 <= k < |items| && placement[k] == c ==> k in at)
    decreases |items|
  {
    at := [];
    if items != [] {
      var n := |items| - 1;
      var before := ChunkIsInOrder(items[..n], placement[..n], c);
      var chunk := Select(items[..n], placement[..n], c);
      assert forall i :: 0 <= i < |before| ==> placement[before[i]] == c && chunk[i] == items[before[i]] && before[i] < n;
      at := before + if placement[n] == c then [n] else [];
      assert Select(items, placement, c) == chunk + if placement[n] == c then [items[n]] else [];
      hide Select;
      forall k | 0 <= k < |items| && placement[k] == c ensures k in at {
        assert k < n ==> placement[..n][k] == c && k in before;
      }
    }
  }
}

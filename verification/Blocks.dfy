/** Merging the blocks of a function when it is sealed. */
module Blocks {
  import opened Code
  import opened Sorting

  ghost predicate Covered(blocks: seq<Block>, a: Addr) {
    exists b :: b in blocks && b.Contains(a)
  }

  /** In order, with a gap after each block. */
  ghost predicate Separated(blocks: seq<Block>) {
    forall i, j | 0 <= i < j < |blocks| :: blocks[i].End() < blocks[j].base
  }

  function Join(last: Block, next: Block): Block
    requires last.base <= next.base
  {
    Block(last.base, if next.End() > last.End() then next.End() - last.base else last.size)
  }

  /** The merge of `last` with the blocks after it, all sorted. */
  function MergeFrom(last: Block, rest: seq<Block>): seq<Block>
    requires SortedFrom(last.base, rest)
    decreases |rest|
  {
    if rest == [] then [last]
    else if rest[0].base <= last.End() then MergeFrom(Join(last, rest[0]), rest[1..])
    else [last] + MergeFrom(rest[0], rest[1..])
  }

  predicate SortedFrom(base: Addr, rest: seq<Block>) {
    && (forall i | 0 <= i < |rest| :: base <= rest[i].base)
    && forall i, j | 0 <= i < j < |rest| :: rest[i].base <= rest[j].base
  }

  function Base(b: Block): int { b.base }

  /** The blocks of a function once sealed. */
  function SealedBlocks(blocks: seq<Block>): seq<Block> {
    var sorted := SortBy(Base, blocks);
    SortByElements(Base, blocks);
    if sorted == [] then [] else
      assert forall i | 0 <= i < |sorted| :: Base(sorted[i]) == sorted[i].base;
      MergeFrom(sorted[0], sorted[1..])
  }

  lemma {:induction false} MergeFromSeparates(last: Block, rest: seq<Block>)
    requires SortedFrom(last.base, rest)
    ensures Separated(MergeFrom(last, rest))
    ensures |MergeFrom(last, rest)| > 0 && MergeFrom(last, rest)[0].base == last.base
    ensures |MergeFrom(last, rest)| <= 1 + |rest|
    ensures forall b | b in MergeFrom(last, rest) :: last.base <= b.base
    decreases |rest|
  {
    if rest == [] {
    } else if rest[0].base <= last.End() {
      MergeFromSeparates(Join(last, rest[0]), rest[1..]);
    } else {
      MergeFromSeparates(rest[0], rest[1..]);
    }
  }

  lemma {:induction false} MergeFromCovers(last: Block, rest: seq<Block>, a: Addr)
    requires SortedFrom(last.base, rest)
    ensures Covered(MergeFrom(last, rest), a) <==> last.Contains(a) || Covered(rest, a)
    decreases |rest|
  {
    if rest == [] {
      assert [last][0] in [last];
    } else {
      assert rest == [rest[0]] + rest[1..];
      assert Covered(rest, a) <==> rest[0].Contains(a) || Covered(rest[1..], a);
      if rest[0].base <= last.End() {
        MergeFromCovers(Join(last, rest[0]), rest[1..], a);
      } else {
        MergeFromCovers(rest[0], rest[1..], a);
        var m := MergeFrom(rest[0], rest[1..]);
        assert Covered([last] + m, a) <==> last.Contains(a) || Covered(m, a) by {
          assert forall b :: b in [last] + m <==> b == last || b in m;
        }
      }
    }
  }

  ghost predicate Grown(m: Block, blocks: seq<Block>) {
    exists b :: b in blocks && b.base == m.base && b.size <= m.size
  }

  /** Every merged block starts at a block. */
  lemma {:induction false} MergeFromBases(last: Block, rest: seq<Block>)
    requires SortedFrom(last.base, rest)
    ensures forall m | m in MergeFrom(last, rest) :: Grown(m, [last] + rest)
    decreases |rest|
  {
    if rest == [] {
      assert last in [last] + rest;
    } else {
      var next := if rest[0].base <= last.End() then Join(last, rest[0]) else rest[0];
      MergeFromBases(next, rest[1..]);
      forall m | m in MergeFrom(last, rest) ensures Grown(m, [last] + rest) {
        assert rest[0] in rest && last in [last] + rest;
        if m in MergeFrom(next, rest[1..]) {
          var b :| b in [next] + rest[1..] && b.base == m.base && b.size <= m.size;
          if b in rest[1..] { assert b in [last] + rest; }
        }
      }
    }
  }

  /** If merging joined nothing, it changed nothing. */
  lemma {:induction false} MergeFromSameCount(last: Block, rest: seq<Block>)
    requires SortedFrom(last.base, rest) && |MergeFrom(last, rest)| == 1 + |rest|
    ensures MergeFrom(last, rest) == [last] + rest
    decreases |rest|
  {
    if rest != [] {
      if rest[0].base <= last.End() {
        MergeFromSeparates(Join(last, rest[0]), rest[1..]);
        assert false;
      } else {
        MergeFromSameCount(rest[0], rest[1..]);
      }
    }
  }

  /** Sealing keeps the set of covered addresses and leaves the blocks in order with gaps between them. */
  lemma SealedBlocksCorrect(blocks: seq<Block>)
    ensures Separated(SealedBlocks(blocks))
    ensures forall a :: Covered(SealedBlocks(blocks), a) <==> Covered(blocks, a)
    ensures SealedBlocks(blocks) == [] <==> blocks == []
    ensures forall m | m in SealedBlocks(blocks) :: Grown(m, blocks)
  {
    SortByElements(Base, blocks);
    var sorted := SortBy(Base, blocks);
    if sorted != [] {
      var last, rest := sorted[0], sorted[1..];
      assert sorted == [last] + rest;
      assert forall i | 0 <= i < |sorted| :: Base(sorted[i]) == sorted[i].base;
      MergeFromSeparates(last, rest);
      MergeFromBases(last, rest);
      forall a ensures Covered(SealedBlocks(blocks), a) <==> Covered(blocks, a) {
        MergeFromCovers(last, rest, a);
        assert Covered(blocks, a) <==> Covered(sorted, a);
        assert Covered(sorted, a) <==> last.Contains(a) || Covered(rest, a);
      }
      assert forall b | b in rest || b == last :: b in blocks;
    } else {
      assert |blocks| == 0;
    }
  }

  /** What is final of a merge in progress, and what is still to come. */
  ghost function InProgress(merged: seq<Block>, rest: seq<Block>): seq<Block>
    requires |merged| > 0 && SortedFrom(merged[|merged|-1].base, rest)
  {
    merged[..|merged|-1] + MergeFrom(merged[|merged|-1], rest)
  }

  lemma MergeStep(merged: seq<Block>, rest: seq<Block>)
    requires |merged| > 0 && rest != [] && SortedFrom(merged[|merged|-1].base, rest)
    ensures var last := merged[|merged|-1];
      var merged' := if rest[0].base <= last.End() then merged[..|merged|-1] + [Join(last, rest[0])] else merged + [rest[0]];
      SortedFrom(merged'[|merged'|-1].base, rest[1..]) && InProgress(merged', rest[1..]) == InProgress(merged, rest)
  {
    var last := merged[|merged|-1];
    if rest[0].base > last.End() {
      assert merged == merged[..|merged|-1] + [last];
      assert (merged + [rest[0]])[..|merged|] == merged;
    }
  }

  /** The merge loop of sealing: one pass over the sorted blocks, growing the last merged block. */
  method MergeSorted(sorted: seq<Block>) returns (merged: seq<Block>)
    requires |sorted| > 1 && SortedFrom(sorted[0].base, sorted[1..])
    ensures merged == MergeFrom(sorted[0], sorted[1..])
  {
    hide MergeFrom, SortedFrom;
    merged := [sorted[0]];
    assert InProgress(merged, sorted[1..]) == MergeFrom(sorted[0], sorted[1..]);
    for i := 1 to |sorted|
      invariant |merged| > 0 && SortedFrom(merged[|merged|-1].base, sorted[i..])
      invariant InProgress(merged, sorted[i..]) == MergeFrom(sorted[0], sorted[1..])
    {
      var last, curr := merged[|merged|-1], sorted[i];
      assert sorted[i..][0] == curr && sorted[i..][1..] == sorted[i+1..];
      MergeStep(merged, sorted[i..]);
      if curr.base <= last.End() {
        var newEnd := if last.End() > curr.End() then last.End() else curr.End();
        merged := merged[..|merged|-1] + [Block(last.base, newEnd - last.base)];
      } else {
        merged := merged + [curr];
      }
    }
    AllMerged(merged, sorted[|sorted|..]);
  }

  lemma AllMerged(merged: seq<Block>, rest: seq<Block>)
    requires |merged| > 0 && rest == [] && SortedFrom(merged[|merged|-1].base, rest)
    ensures InProgress(merged, rest) == merged
  {
  }

  /** Sort, merge, and keep the old list when nothing was joined. */
  method MergeBlocks(blocks: seq<Block>) returns (r: seq<Block>)
    ensures r == SealedBlocks(blocks)
  {
    r := SortBy(Base, blocks);
    SortByElements(Base, blocks);
    assert forall i | 0 <= i < |r| :: Base(r[i]) == r[i].base;
    if |r| > 1 {
      var merged := MergeSorted(r);
      MergeFromSeparates(r[0], r[1..]);
      if |merged| < |r| {
        r := merged;
      } else {
        MergeFromSameCount(r[0], r[1..]);
      }
    }
  }
}

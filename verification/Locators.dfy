/** Block locators and ancestor discovery (p2p.rs). */
module Locators {
  import opened Prelude
  import opened Primitives
  import opened Blocks

  const MAX_LOCATOR_ENTRIES: nat := 32

  datatype LocatorEntry = LocatorEntry(height: u64, hash: Digest)

  /** Heights still to list when `count` entries are already there: nine single steps, then
      the stride doubles; the last slot is reserved for genesis. */
  function HeightsFrom(count: nat, index: nat, step: nat): seq<nat>
    requires step > 0
    decreases index
  {
    if index == 0 || count >= MAX_LOCATOR_ENTRIES - 1 then [0]
    else [index] + HeightsFrom(count + 1, if index > step then index - step else 0,
        if count + 1 > 8 then 2 * step else step)
  }

  function LocatorHeights(blockCount: nat): seq<nat> {
    if blockCount == 0 then [] else HeightsFrom(0, blockCount - 1, 1)
  }

  function EntryOf(c: Crypto, b: Block): LocatorEntry { LocatorEntry(b.header.height, BlockHash(c, b)) }

  function EntriesAt(c: Crypto, blocks: seq<Block>, heights: seq<nat>): (r: seq<LocatorEntry>)
    requires forall i :: 0 <= i < |heights| ==> heights[i] < |blocks|
    ensures |r| == |heights|
  {
    seq(|heights|, i requires 0 <= i < |heights| => EntryOf(c, blocks[heights[i]]))
  }

  // ----- shape

  ghost predicate Descending(s: seq<nat>) { forall i, j :: 0 <= i < j < |s| ==> s[i] > s[j] }

  lemma {:induction false} HeightsShape(count: nat, index: nat, step: nat)
    requires step > 0 && count < MAX_LOCATOR_ENTRIES
    ensures var h := HeightsFrom(count, index, step);
            && h != [] && h[0] <= index && Last(h) == 0
            && (count < MAX_LOCATOR_ENTRIES - 1 ==> h[0] == index)
            && count + |h| <= MAX_LOCATOR_ENTRIES
            && Descending(h)
    decreases index
  {
    if index != 0 && count < MAX_LOCATOR_ENTRIES - 1 {
      HeightsShape(count + 1, if index > step then index - step else 0, if count + 1 > 8 then 2 * step else step);
      var rest := HeightsFrom(count + 1, if index > step then index - step else 0,
          if count + 1 > 8 then 2 * step else step);
      forall j | 0 <= j < |rest| ensures index > rest[j] {
        if j > 0 { assert rest[0] > rest[j]; }
      }
    }
  }

  /** A locator has at most 32 entries, strictly descending from the tip to genesis. */
  lemma {:induction false} LocatorShape(blockCount: nat)
    requires blockCount > 0
    ensures var h := LocatorHeights(blockCount);
            && 0 < |h| <= MAX_LOCATOR_ENTRIES && h[0] == blockCount - 1 && Last(h) == 0 && Descending(h)
            && forall i :: 0 <= i < |h| ==> h[i] < blockCount
  {
    HeightsShape(0, blockCount - 1, 1);
    var h := LocatorHeights(blockCount);
    forall i | 0 <= i < |h| ensures h[i] < blockCount {
      if i > 0 { assert h[0] > h[i]; }
    }
  }

  function Locator(c: Crypto, blocks: seq<Block>): seq<LocatorEntry> {
    if blocks == [] then [] else
      LocatorShape(|blocks|);
      EntriesAt(c, blocks, LocatorHeights(|blocks|))
  }

  /** The loop of the source, with its set of heights already listed. */
  method BlockLocator(c: Crypto, blocks: seq<Block>) returns (locator: seq<LocatorEntry>)
    requires forall i :: 0 <= i < |blocks| ==> blocks[i].header.height == i
    ensures locator == Locator(c, blocks)
  {
    hide BlockHash, HeightsFrom, EntriesAt, EntryOf, Descending, Left;
    locator := [];
    if blocks == [] {
      return;
    }
    LocatorShape(|blocks|);
    ghost var goal := LocatorHeights(|blocks|);
    assert goal == HeightsFrom(0, |blocks| - 1, 1) && Locator(c, blocks) == EntriesAt(c, blocks, goal);
    hide LocatorHeights, Locator;
    ghost var done: seq<nat> := [];
    EntriesOfNone(c, blocks);
    var index: nat, step: nat := |blocks| - 1, 1;
    var seen: set<nat> := {};
    LeftAtStart(goal, |blocks| - 1);
    while true
      invariant index < |blocks| && step > 0 && Left(goal, done, index, step)
      invariant forall i :: 0 <= i < |done| ==> done[i] < |blocks|
      invariant locator == EntriesAt(c, blocks, done)
      invariant forall h :: h in seen ==> h in done
      decreases index
    {
      LeftStep(goal, done, index, step);
      if |locator| >= MAX_LOCATOR_ENTRIES - 1 && index != 0 {
        index := 0;
      }
      var block := blocks[index];
      EntriesSnoc(c, blocks, done, index);
      if block.header.height !in seen {
        seen := seen + {block.header.height};
        locator := locator + [EntryOf(c, block)];
      }
      done := done + [index];
      if index == 0 {
        break;
      }
      index := if index > step then index - step else 0;
      if |locator| > 8 {
        step := 2 * step;
      }
    }
    assert goal == done;
  }

  /** The heights listed so far, and those that follow from the position of the loop. */
  ghost predicate Left(goal: seq<nat>, done: seq<nat>, index: nat, step: nat)
    requires step > 0
  {
    goal == done + HeightsFrom(|done|, index, step)
  }

  lemma {:induction false} LeftAtStart(goal: seq<nat>, index: nat)
    requires goal == HeightsFrom(0, index, 1)
    ensures Left(goal, [], index, 1)
  {
  }

  lemma {:induction false} LeftStep(goal: seq<nat>, done: seq<nat>, index: nat, step: nat)
    requires step > 0 && Left(goal, done, index, step) && Descending(goal)
    ensures var top := if |done| >= MAX_LOCATOR_ENTRIES - 1 then 0 else index;
            && top !in done
            && (top == 0 ==> goal == done + [0])
            && (top != 0 ==> Left(goal, done + [top], if top > step then top - step else 0,
                if |done| + 1 > 8 then 2 * step else step))
  {
    hide Descending;
    var rest := HeightsFrom(|done|, index, step);
    NextNotDone(goal, done, rest);
    if index != 0 && |done| < MAX_LOCATOR_ENTRIES - 1 {
      Regroup(done, [index], HeightsFrom(|done| + 1, if index > step then index - step else 0,
          if |done| + 1 > 8 then 2 * step else step));
    }
  }

  lemma {:induction false} EntriesOfNone(c: Crypto, blocks: seq<Block>)
    ensures EntriesAt(c, blocks, []) == []
  {
  }

  lemma {:induction false} EntriesSnoc(c: Crypto, blocks: seq<Block>, heights: seq<nat>, h: nat)
    requires h < |blocks| && forall i :: 0 <= i < |heights| ==> heights[i] < |blocks|
    ensures EntriesAt(c, blocks, heights + [h]) ==
            EntriesAt(c, blocks, heights) + [EntryOf(c, blocks[h])]
  {
  }

  lemma {:induction false} NextNotDone(goal: seq<nat>, done: seq<nat>, rest: seq<nat>)
    requires goal == done + rest && rest != [] && Descending(goal)
    ensures rest[0] !in done
  {
    forall i | 0 <= i < |done| ensures done[i] != rest[0] {
      assert goal[i] > goal[|done|];
    }
  }

  // ----- ancestor discovery

  predicate OnChain(c: Crypto, blocks: seq<Block>, entry: LocatorEntry) {
    entry.height < |blocks| && BlockHash(c, blocks[entry.height]) == entry.hash
  }

  /** What a peer answers: the first locator entry that is on its own chain. */
  function FindAncestor(c: Crypto, blocks: seq<Block>, locator: seq<LocatorEntry>): Option<u64> {
    if locator == [] then None
    else if OnChain(c, blocks, locator[0]) then Some(locator[0].height)
    else FindAncestor(c, blocks, locator[1..])
  }

  lemma {:induction false} FindAncestorFirst(c: Crypto, blocks: seq<Block>, locator: seq<LocatorEntry>)
    ensures match FindAncestor(c, blocks, locator)
            case None => forall i :: 0 <= i < |locator| ==> !OnChain(c, blocks, locator[i])
            case Some(h) => exists k :: 0 <= k < |locator| && locator[k].height == h && OnChain(c, blocks, locator[k])
                              && forall i :: 0 <= i < k ==> !OnChain(c, blocks, locator[i])
    decreases |locator|
  {
    hide OnChain;
    if locator != [] && !OnChain(c, blocks, locator[0]) {
      FindAncestorFirst(c, blocks, locator[1..]);
      match FindAncestor(c, blocks, locator)
      case None =>
        forall i | 0 <= i < |locator| ensures !OnChain(c, blocks, locator[i]) {
          if i > 0 { assert locator[i] == locator[1..][i - 1]; }
        }
      case Some(h) =>
        var k :| 0 <= k < |locator[1..]| && locator[1..][k].height == h && OnChain(c, blocks, locator[1..][k])
                 && forall i :: 0 <= i < k ==> !OnChain(c, blocks, locator[1..][i]);
        forall i | 0 <= i < k + 1 ensures !OnChain(c, blocks, locator[i]) {
          if i > 0 { assert locator[i] == locator[1..][i - 1]; }
        }
        assert locator[k + 1] == locator[1..][k];
    }
  }

  // ----- how deep the answer can be

  /** Before the reserved slot, the next entry is at most twice as deep as this one. */
  lemma {:induction false} StridesDouble(tip: nat, count: nat, index: nat, step: nat, i: nat)
    requires step > 0 && index <= tip && (step == 1 || step <= tip - index)
    requires count <= 8 ==> tip - index == count && step == 1
    requires count >= 8 ==> step <= tip - index
    requires i + 1 < |HeightsFrom(count, index, step)| && count + i + 1 < MAX_LOCATOR_ENTRIES - 1
    ensures var h := HeightsFrom(count, index, step);
            h[i + 1] <= h[i] <= tip && tip - h[i + 1] <= Max(2 * (tip - h[i]), 1)
    decreases index
  {
    if index != 0 && count < MAX_LOCATOR_ENTRIES - 1 {
      var next, stride := if index > step then index - step else 0, if count + 1 > 8 then 2 * step else step;
      var rest := HeightsFrom(count + 1, next, stride);
      HeightsShape(count + 1, next, stride);
      if i > 0 && next != 0 {
        StridesDouble(tip, count + 1, next, stride, i - 1);
      }
    }
  }

  /** How far below the tip entry `k` lies: nine steps of one, then strides of 2, 4, 8, ... */
  ghost function DepthOf(k: nat): nat { if k <= 8 then k else 7 + Pow2(k - 8) }

  ghost function StrideOf(k: nat): nat { if k <= 8 then 1 else Pow2(k - 8) }

  lemma {:induction false} DepthsFrom(tip: nat, count: nat, index: nat, step: nat, i: nat)
    requires step == StrideOf(count) > 0 && index == Max(tip - DepthOf(count), 0)
    requires i < |HeightsFrom(count, index, step)| && count + i < MAX_LOCATOR_ENTRIES - 1
    ensures HeightsFrom(count, index, step)[i] == Max(tip - DepthOf(count + i), 0)
    decreases index
  {
    if index != 0 && i > 0 {
      assert Pow2(1) == 2;
      var next, stride := if index > step then index - step else 0, if count + 1 > 8 then 2 * step else step;
      assert DepthOf(count + 1) == DepthOf(count) + step;
      DepthsFrom(tip, count + 1, next, stride, i - 1);
    }
  }

  /** Entry `k` of a locator lies exactly that deep, down to genesis; the 32nd is genesis. */
  lemma {:induction false} LocatorDepths(blockCount: nat, k: nat)
    requires blockCount > 0 && k < |LocatorHeights(blockCount)|
    ensures LocatorHeights(blockCount)[k] == if k < 31 then Max(blockCount - 1 - DepthOf(k), 0) else 0
  {
    hide HeightsFrom, DepthOf;
    LocatorShape(blockCount);
    if k < 31 {
      assert DepthOf(0) == 0 by { DepthOfFirst(); }
      DepthsFrom(blockCount - 1, 0, blockCount - 1, 1, k);
    }
  }

  lemma {:induction false} DepthOfFirst()
    ensures DepthOf(0) == 0
  {
  }

  ghost predicate SharedUpTo(c: Crypto, ours: seq<Block>, theirs: seq<Block>, fork: nat) {
    && fork < |ours| && fork < |theirs|
    && forall h :: 0 <= h < |ours| ==>
         (h < |theirs| && BlockHash(c, ours[h]) == BlockHash(c, theirs[h]) <==> h <= fork)
  }

  /** Position of the answer: the first listed height that is not above the fork. */
  lemma {:induction false} AnswerPosition(c: Crypto, ours: seq<Block>, theirs: seq<Block>, fork: nat) returns (k: nat)
    requires SharedUpTo(c, ours, theirs, fork)
    requires forall i :: 0 <= i < |ours| ==> ours[i].header.height == i
    ensures var h := LocatorHeights(|ours|);
            && k < |h| && FindAncestor(c, theirs, Locator(c, ours)) == Some(h[k]) && h[k] <= fork
            && (k > 0 ==> h[k - 1] > fork)
  {
    hide BlockHash, HeightsFrom;
    LocatorShape(|ours|);
    var h, locator := LocatorHeights(|ours|), Locator(c, ours);
    FindAncestorFirst(c, theirs, locator);
    forall i | 0 <= i < |h| ensures OnChain(c, theirs, locator[i]) <==> h[i] <= fork {
      assert locator[i] == LocatorEntry(h[i], BlockHash(c, ours[h[i]]));
    }
    assert OnChain(c, theirs, locator[|h| - 1]);
    k :| 0 <= k < |locator| && locator[k].height == FindAncestor(c, theirs, locator).value
         && OnChain(c, theirs, locator[k]) && forall i :: 0 <= i < k ==> !OnChain(c, theirs, locator[i]);
    assert h[k] == locator[k].height;
    if k > 0 { assert !OnChain(c, theirs, locator[k - 1]); }
  }

  lemma {:induction false} AnswerDepth(blockCount: nat, fork: nat, k: nat)
    requires blockCount > 0 && fork < blockCount && k < |LocatorHeights(blockCount)|
    requires LocatorHeights(blockCount)[k] <= fork && (k > 0 ==> LocatorHeights(blockCount)[k - 1] > fork)
    requires k < MAX_LOCATOR_ENTRIES - 1
    ensures var tip := blockCount - 1; tip - LocatorHeights(blockCount)[k] <= 2 * (tip - fork)
  {
    hide HeightsFrom;
    LocatorShape(blockCount);
    if k > 0 {
      StridesDouble(blockCount - 1, 0, blockCount - 1, 1, k - 1);
    }
  }

  /** Against a chain that shares ours exactly up to `fork`, the peer answers with the highest
      listed height not above the fork; an answer always exists, and it lies at most twice
      as deep below our tip as the fork does, until the fork is below the 31st entry. */
  lemma {:induction false} AncestorFound(c: Crypto, ours: seq<Block>, theirs: seq<Block>, fork: nat)
    requires SharedUpTo(c, ours, theirs, fork)
    requires forall i :: 0 <= i < |ours| ==> ours[i].header.height == i
    ensures FindAncestor(c, theirs, Locator(c, ours)).Some?
    ensures var h := LocatorHeights(|ours|);
            var found := FindAncestor(c, theirs, Locator(c, ours)).value;
            var tip := |ours| - 1;
            && found <= fork && found in h
            && (forall i :: 0 <= i < |h| && h[i] <= fork ==> h[i] <= found)
            && (fork == tip ==> found == tip)
            && (|h| < MAX_LOCATOR_ENTRIES || fork >= h[30] ==> tip - found <= 2 * (tip - fork))
  {
    hide BlockHash, HeightsFrom, FindAncestor, Locator;
    LocatorShape(|ours|);
    var h := LocatorHeights(|ours|);
    var k := AnswerPosition(c, ours, theirs, fork);
    if k < MAX_LOCATOR_ENTRIES - 1 {
      AnswerDepth(|ours|, fork, k);
    }
  }
}

/** LWMA difficulty adjustment (consensus.rs). */
module Difficulty {
  import opened Prelude
  import opened Primitives
  import opened Blocks

  function Log2(n: nat): nat
    requires n > 0
  {
    if n == 1 then 0 else 1 + Log2(n / 2)
  }

  function StepFor(ratio: nat): int { Clamp(Log2(Max(ratio, 1)), 1, 4) }

  /** Seconds between two blocks, clamped to between 1 and twelve times the target. */
  function SolveTime(previous: u64, current: u64, target: u64): nat
    requires target > 0
  {
    Clamp(SaturatingSub(current, previous), 1, Min(12 * target, U64_MAX))
  }

  function WeightedSolve(sample: seq<Block>, target: u64, count: nat): nat
    requires target > 0 && count < |sample|
  {
    if count == 0 then 0 else
      WeightedSolve(sample, target, count - 1)
      + SolveTime(sample[count - 1].header.timestamp, sample[count].header.timestamp, target) * count
  }

  function WeightedTarget(target: u64, count: nat): nat {
    if count == 0 then 0 else WeightedTarget(target, count - 1) + target * count
  }

  /** Bits to move: up when blocks come at least 10% fast, down when 10% slow. */
  function Movement(solve: nat, target: nat): int {
    if solve == 0 || target == 0 then 0
    else if solve <= target * 90 / 100 then StepFor(target / solve)
    else if solve >= target * 110 / 100 then 0 - StepFor(solve / target)
    else 0
  }

  function Adjusted(last: u8, movement: int, lo: u8, hi: u8): u8
    requires lo <= hi
  {
    if movement == 0 then last else Clamp(Clamp(last + movement, 0, 255), lo, hi)
  }

  function Sample(blocks: seq<Block>, window: nat): (r: seq<Block>)
    ensures |r| == Min(|blocks|, window + 1)
  {
    blocks[|blocks| - Min(|blocks|, window + 1)..]
  }

  function LwmaNext(blocks: seq<Block>, targetTime: u64, window: nat, fallback: u8, lo: u8, hi: u8): u8
    requires lo <= hi
  {
    if blocks == [] then Clamp(fallback, lo, hi)
    else
      var last := Clamp(Last(blocks).header.difficulty, lo, hi);
      if |blocks| < 2 || window == 0 then last else
        var sample, target := Sample(blocks, window), Max(targetTime, 1);
        Adjusted(last, Movement(WeightedSolve(sample, target, |sample| - 1), WeightedTarget(target, |sample| - 1)),
            lo, hi)
  }

  function NextDifficulty(network: Network, blocks: seq<Block>, fallback: u8): u8 {
    LwmaNext(blocks, 60, 60, fallback, network.MinimumDifficulty(), network.MaximumDifficulty())
  }

  /** One pass over the sample with two accumulators. */
  method LwmaNextDifficulty(blocks: seq<Block>, targetTime: u64, window: nat, fallback: u8, lo: u8, hi: u8)
    returns (bits: u8)
    requires lo <= hi
    ensures bits == LwmaNext(blocks, targetTime, window, fallback, lo, hi)
  {
    if |blocks| < 2 || window == 0 {
      bits := if blocks == [] then Clamp(fallback, lo, hi) else Clamp(Last(blocks).header.difficulty, lo, hi);
      return;
    }
    var sample, target := Sample(blocks, window), Max(targetTime, 1);
    var weightedSolve, weightedTarget := 0, 0;
    for index := 0 to |sample| - 1
      invariant weightedSolve == WeightedSolve(sample, target, index)
      invariant weightedTarget == WeightedTarget(target, index)
    {
      var solve := SolveTime(sample[index].header.timestamp, sample[index + 1].header.timestamp, target);
      weightedSolve := weightedSolve + solve * (index + 1);
      weightedTarget := weightedTarget + target * (index + 1);
    }
    bits := Adjusted(Clamp(Last(sample).header.difficulty, lo, hi), Movement(weightedSolve, weightedTarget), lo, hi);
  }

  // ----- bounds and step size

  lemma {:induction false} Log2Monotone(a: nat, b: nat)
    requires 0 < a <= b
    ensures Log2(a) <= Log2(b)
    decreases b
  {
    if a > 1 {
      Log2Monotone(a / 2, b / 2);
    }
  }

  lemma {:induction false} SolveWithinTwelve(sample: seq<Block>, target: u64, count: nat)
    requires target > 0 && count < |sample|
    ensures count <= WeightedSolve(sample, target, count) <= 12 * WeightedTarget(target, count)
    decreases count
  {
    if count > 0 {
      SolveWithinTwelve(sample, target, count - 1);
      var solve := SolveTime(sample[count - 1].header.timestamp, sample[count].header.timestamp, target);
      WeighedSolve(solve, target, count);
    }
  }

  lemma {:induction false} WeighedSolve(solve: nat, target: nat, count: nat)
    requires 1 <= solve <= 12 * target
    ensures count <= solve * count <= 12 * (target * count)
  {
    MultiplyMonotone(1, solve, count);
    MultiplyMonotone(solve, 12 * target, count);
    TwelveTimes(target, count);
  }

  lemma {:induction false} TwelveTimes(target: nat, count: nat)
    ensures (12 * target) * count == 12 * (target * count)
  {
  }

  lemma {:induction false} RatioAtMostTwelve(solve: nat, target: nat)
    requires target > 0 && solve <= 12 * target
    ensures StepFor(solve / target) <= 3
  {
    assert solve / target <= 12;
    Log2Monotone(Max(solve / target, 1), 12);
    assert Log2(12) == 3;
  }

  /** The next difficulty stays within the network bounds and moves by at most four bits up
      and three bits down; four down is out of reach of the solve-time clamp. */
  lemma {:induction false} DifficultyMovesLittle(
    blocks: seq<Block>, targetTime: u64, window: nat, fallback: u8, lo: u8, hi: u8)
    requires lo <= hi && blocks != []
    ensures var next := LwmaNext(blocks, targetTime, window, fallback, lo, hi);
            var last := Clamp(Last(blocks).header.difficulty, lo, hi);
            lo <= next <= hi && last - 3 <= next <= last + 4
  {
    if |blocks| >= 2 && window != 0 {
      var sample, target := Sample(blocks, window), Max(targetTime, 1);
      var solve, goal := WeightedSolve(sample, target, |sample| - 1), WeightedTarget(target, |sample| - 1);
      SolveWithinTwelve(sample, target, |sample| - 1);
      if goal > 0 {
        RatioAtMostTwelve(solve, goal);
      }
    }
  }

  /** As soon as there is an ancestor, the candidate-supplied fallback has no influence. */
  lemma {:induction false} FallbackIgnored(
    blocks: seq<Block>, targetTime: u64, window: nat, f: u8, g: u8, lo: u8, hi: u8)
    requires lo <= hi && blocks != []
    ensures LwmaNext(blocks, targetTime, window, f, lo, hi) == LwmaNext(blocks, targetTime, window, g, lo, hi)
  {
  }

  // ----- which way, and how far

  lemma {:induction false} Log2Meaning(n: nat)
    requires n > 0
    ensures Pow2(Log2(n)) <= n < Pow2(Log2(n) + 1)
  {
    if n > 1 {
      Log2Meaning(n / 2);
    }
  }

  /** `bits` is how often `large` halves before it is down to `small`, between once and four
      times. */
  ghost predicate Doublings(large: nat, small: nat, bits: int) {
    && 1 <= bits <= 4
    && (bits > 1 ==> Pow2(bits) * small <= large)
    && (bits < 4 ==> large < Pow2(bits + 1) * small)
  }

  lemma {:induction false} StepCountsDoublings(large: nat, small: nat)
    requires small > 0
    ensures Doublings(large, small, StepFor(large / small))
  {
    hide Pow2;
    var ratio := Max(large / small, 1);
    var bits := Log2(ratio);
    Log2Meaning(ratio);
    Pow2Monotone(1, Max(bits, 1));
    assert Pow2(1) == 2 && Pow2(2) == 4 by { PowersAreSmall(); }
    QuotientBelow(large, small, Pow2(Clamp(bits, 1, 4) + 1));
    QuotientAbove(large, small, Pow2(Clamp(bits, 1, 4)));
    Pow2Monotone(Min(bits, 4), bits);
    Pow2Monotone(Min(bits, 0) + 1, 2);
  }

  lemma {:induction false} PowersAreSmall()
    ensures Pow2(1) == 2 && Pow2(2) == 4
  {
  }

  lemma {:induction false} QuotientBelow(n: nat, d: nat, k: nat)
    requires d > 0
    ensures n / d < k ==> n < k * d
  {
    var q := n / d;
    assert n == q * d + n % d;
    if q < k { MultiplyMonotone(q + 1, k, d); }
  }

  lemma {:induction false} QuotientAbove(n: nat, d: nat, k: nat)
    requires d > 0
    ensures n / d >= k ==> k * d <= n
  {
    var q := n / d;
    assert n == q * d + n % d;
    if q >= k { MultiplyMonotone(k, q, d); }
  }

  /** What becomes of a difficulty under a weighted solve time and the goal it had. */
  ghost predicate Follows(solve: nat, goal: nat, last: u8, next: u8, lo: u8, hi: u8) {
    && (100 * solve <= 90 * goal ==> exists bits :: Doublings(goal, solve, bits) && next == Min(last + bits, hi))
    && (solve >= goal * 110 / 100 ==> exists bits :: Doublings(solve, goal, bits) && next == Max(last - bits, lo))
    && (100 * solve > 90 * goal && solve < goal * 110 / 100 ==> next == last)
  }

  lemma {:induction false} MovementFollows(solve: nat, goal: nat, last: u8, lo: u8, hi: u8)
    requires 0 < solve && 0 < goal && lo <= last <= hi
    ensures Follows(solve, goal, last, Adjusted(last, Movement(solve, goal), lo, hi), lo, hi)
  {
    hide StepFor, Doublings;
    StepCountsDoublings(goal, solve);
    StepCountsDoublings(solve, goal);
    DoublingsAreFew(goal, solve, StepFor(goal / solve));
    DoublingsAreFew(solve, goal, StepFor(solve / goal));
  }

  /** Blocks whose weighted solve times are at least 10% short raise the difficulty, one bit
      for every doubling of the speed but one to four; at least 10% long, they lower it
      likewise; in between, it stays. The bounds of the network cut either move. */
  lemma {:induction false} DifficultyFollowsSolveTimes(
    blocks: seq<Block>, targetTime: u64, window: nat, fallback: u8, lo: u8, hi: u8)
    requires lo <= hi && |blocks| >= 2 && window > 0
    ensures var sample, target := Sample(blocks, window), Max(targetTime, 1);
            var solve, goal := WeightedSolve(sample, target, |sample| - 1), WeightedTarget(target, |sample| - 1);
            && 0 < solve && 0 < goal
            && Follows(solve, goal, Clamp(Last(blocks).header.difficulty, lo, hi),
                       LwmaNext(blocks, targetTime, window, fallback, lo, hi), lo, hi)
  {
    hide WeightedSolve, WeightedTarget, Movement, Adjusted, Follows;
    var sample, target := Sample(blocks, window), Max(targetTime, 1);
    SolveWithinTwelve(sample, target, |sample| - 1);
    GoalIsPositive(target, |sample| - 1);
    MovementFollows(WeightedSolve(sample, target, |sample| - 1), WeightedTarget(target, |sample| - 1),
        Clamp(Last(blocks).header.difficulty, lo, hi), lo, hi);
  }

  /** The same for the sixty intervals before the tip, a minute each, and a network's bounds. */
  ghost predicate FollowsLastHour(network: Network, blocks: seq<Block>, next: u8)
    requires |blocks| >= 2
  {
    var recent := blocks[Max(|blocks| - 61, 0)..];
    var lo, hi := network.MinimumDifficulty(), network.MaximumDifficulty();
    Follows(WeightedSolve(recent, 60, |recent| - 1), WeightedTarget(60, |recent| - 1),
            Clamp(Last(blocks).header.difficulty, lo, hi), next, lo, hi)
  }

  lemma {:induction false} NextFollowsLastHour(network: Network, blocks: seq<Block>, fallback: u8)
    requires blocks != []
    ensures |blocks| == 1 ==>
            NextDifficulty(network, blocks, fallback) ==
            Clamp(Last(blocks).header.difficulty, network.MinimumDifficulty(), network.MaximumDifficulty())
    ensures |blocks| >= 2 ==> FollowsLastHour(network, blocks, NextDifficulty(network, blocks, fallback))
  {
    hide WeightedSolve, WeightedTarget, Movement, Adjusted, Follows;
    if |blocks| >= 2 {
      DifficultyFollowsSolveTimes(blocks, 60, 60, fallback, network.MinimumDifficulty(), network.MaximumDifficulty());
      assert Sample(blocks, 60) == blocks[Max(|blocks| - 61, 0)..];
    }
  }

  lemma {:induction false} DoublingsAreFew(large: nat, small: nat, bits: int)
    requires Doublings(large, small, bits)
    ensures 1 <= bits <= 4
  {
  }

  lemma {:induction false} GoalIsPositive(target: u64, count: nat)
    requires target > 0
    ensures 2 * WeightedTarget(target, count) == target * count * (count + 1)
    ensures count > 0 ==> WeightedTarget(target, count) > 0
    decreases count
  {
    if count > 0 {
      GoalIsPositive(target, count - 1);
      TriangleStep(target, count);
    }
  }

  lemma {:induction false} TriangleStep(target: nat, count: nat)
    requires count > 0
    ensures target * (count - 1) * count + 2 * (target * count) == target * count * (count + 1)
  {
  }

  /** Blocks that come exactly on time keep the difficulty, once a target of ten seconds or
      more makes up for the rounding. */
  lemma {:induction false} OnTimeKeepsDifficulty(
    blocks: seq<Block>, targetTime: u64, window: nat, fallback: u8, lo: u8, hi: u8)
    requires lo <= hi && blocks != [] && 10 <= targetTime
    requires forall i {:trigger blocks[i]} :: 0 < i < |blocks| ==>
               blocks[i].header.timestamp == blocks[i - 1].header.timestamp + targetTime
    ensures LwmaNext(blocks, targetTime, window, fallback, lo, hi) == Clamp(Last(blocks).header.difficulty, lo, hi)
  {
    hide WeightedSolve, WeightedTarget;
    if |blocks| >= 2 && window > 0 {
      var sample := Sample(blocks, window);
      forall i | 0 < i < |sample|
        ensures SolveTime(sample[i - 1].header.timestamp, sample[i].header.timestamp, targetTime) == targetTime
      {
        assert sample[i] == blocks[|blocks| - |sample| + i] && sample[i - 1] == blocks[|blocks| - |sample| + i - 1];
      }
      OnTimeSolves(sample, targetTime, |sample| - 1);
      GoalIsAtLeastTarget(targetTime, |sample| - 1);
    }
  }

  lemma {:induction false} GoalIsAtLeastTarget(target: u64, count: nat)
    requires count > 0
    ensures WeightedTarget(target, count) >= target
  {
    MultiplyMonotone(1, count, target);
  }

  lemma {:induction false} OnTimeSolves(sample: seq<Block>, target: u64, count: nat)
    requires target > 0 && count < |sample|
    requires forall i :: 0 < i < |sample| ==>
               SolveTime(sample[i - 1].header.timestamp, sample[i].header.timestamp, target) == target
    ensures WeightedSolve(sample, target, count) == WeightedTarget(target, count)
    decreases count
  {
    hide SolveTime;
    if count > 0 {
      OnTimeSolves(sample, target, count - 1);
    }
  }

  /** Late intervals weigh more: if block `i` of a window comes `delay` seconds later, so that
      one interval grows and the next shrinks, the weighted solve time falls by `delay`. */
  lemma {:induction false} LaterIntervalsWeighMore(
    early: seq<Block>, late: seq<Block>, target: u64, i: nat, delay: nat, count: nat)
    requires target > 0 && 12 * target <= U64_MAX && 0 < i && i + 1 < |early| == |late| && count < |early|
    requires forall k :: 0 <= k < |early| && k != i ==> late[k].header.timestamp == early[k].header.timestamp
    requires early[i - 1].header.timestamp < early[i].header.timestamp
    requires late[i].header.timestamp == early[i].header.timestamp + delay < early[i + 1].header.timestamp
    requires late[i].header.timestamp <= early[i - 1].header.timestamp + 12 * target
    requires early[i + 1].header.timestamp <= early[i].header.timestamp + 12 * target
    ensures WeightedSolve(late, target, count) == WeightedSolve(early, target, count) +
            (if count < i then 0 else if count == i then delay * i else 0 - delay)
    decreases count
  {
    hide SolveTime;
    if count > 0 {
      LaterIntervalsWeighMore(early, late, target, i, delay, count - 1);
      ShiftedInterval(early, late, target, i, delay, count);
      var before := SolveTime(early[count - 1].header.timestamp, early[count].header.timestamp, target);
      Distribute(before, delay, count);
      if count == i + 1 { Distribute(before - delay, delay, count); }
    }
  }

  /** Only the two intervals beside block `i` change. */
  lemma {:induction false} ShiftedInterval(
    early: seq<Block>, late: seq<Block>, target: u64, i: nat, delay: nat, count: nat)
    requires target > 0 && 12 * target <= U64_MAX && 0 < i && i + 1 < |early| == |late| && 0 < count < |early|
    requires forall k :: 0 <= k < |early| && k != i ==> late[k].header.timestamp == early[k].header.timestamp
    requires early[i - 1].header.timestamp < early[i].header.timestamp
    requires late[i].header.timestamp == early[i].header.timestamp + delay < early[i + 1].header.timestamp
    requires late[i].header.timestamp <= early[i - 1].header.timestamp + 12 * target
    requires early[i + 1].header.timestamp <= early[i].header.timestamp + 12 * target
    ensures var before := SolveTime(early[count - 1].header.timestamp, early[count].header.timestamp, target);
            var after := SolveTime(late[count - 1].header.timestamp, late[count].header.timestamp, target);
            && (count != i && count != i + 1 ==> after == before)
            && (count == i ==> after == before + delay)
            && (count == i + 1 ==> delay <= before && after == before - delay)
  {
  }

  lemma {:induction false} Distribute(a: int, b: int, k: nat)
    ensures (a + b) * k == a * k + b * k
  {
  }

  // ----- monotonicity

  lemma {:induction false} QuotientAntitone(n: nat, a: nat, b: nat)
    requires 0 < a <= b
    ensures n / b <= n / a
  {
    var q := n / b;
    assert n == q * b + n % b;
    MultiplyMonotone(a, b, q);
    var k := n / a;
    assert n == k * a + n % a;
    if k < q {
      MultiplyMonotone(k + 1, q, a);
      assert false;
    }
  }

  lemma {:induction false} QuotientMonotone(a: nat, b: nat, d: nat)
    requires 0 < d && a <= b
    ensures a / d <= b / d
  {
    var q, k := a / d, b / d;
    assert a == q * d + a % d;
    assert b == k * d + b % d;
    if k < q {
      MultiplyMonotone(k + 1, q, d);
      assert false;
    }
  }

  lemma {:induction false} StepMonotone(a: nat, b: nat)
    requires a <= b
    ensures StepFor(a) <= StepFor(b)
  {
    Log2Monotone(Max(a, 1), Max(b, 1));
  }

  lemma {:induction false} MovementAntitone(fast: nat, slow: nat, target: nat)
    requires 0 < fast <= slow
    ensures Movement(slow, target) <= Movement(fast, target)
  {
    if slow <= target * 90 / 100 {
      QuotientAntitone(target, fast, slow);
      StepMonotone(target / slow, target / fast);
    } else if target > 0 && fast >= target * 110 / 100 {
      QuotientMonotone(fast, slow, target);
      StepMonotone(fast / target, slow / target);
    }
  }

  ghost predicate SlowerThan(slow: seq<Block>, fast: seq<Block>) {
    && |slow| == |fast| > 0
    && Last(slow).header.difficulty == Last(fast).header.difficulty
    && forall i :: 0 < i < |slow| ==>
         SaturatingSub(fast[i].header.timestamp, fast[i - 1].header.timestamp)
         <= SaturatingSub(slow[i].header.timestamp, slow[i - 1].header.timestamp)
  }

  lemma {:induction false} WeightedSolveMonotone(slow: seq<Block>, fast: seq<Block>, target: u64, count: nat)
    requires target > 0 && SlowerThan(slow, fast) && count < |slow|
    ensures WeightedSolve(fast, target, count) <= WeightedSolve(slow, target, count)
    decreases count
  {
    if count > 0 {
      WeightedSolveMonotone(slow, fast, target, count - 1);
      MultiplyMonotone(
        SolveTime(fast[count - 1].header.timestamp, fast[count].header.timestamp, target),
        SolveTime(slow[count - 1].header.timestamp, slow[count].header.timestamp, target), count);
    }
  }

  /** Lengthening any solve times of the window never raises the next difficulty. */
  lemma {:induction false} SlowerBlocksNeverRaiseDifficulty(
    slow: seq<Block>, fast: seq<Block>, targetTime: u64, window: nat, fallback: u8, lo: u8, hi: u8)
    requires lo <= hi && |slow| == |fast| > 0
    requires SlowerThan(Sample(slow, window), Sample(fast, window))
    ensures LwmaNext(slow, targetTime, window, fallback, lo, hi) <= LwmaNext(fast, targetTime, window, fallback, lo, hi)
  {
    var s, f, target := Sample(slow, window), Sample(fast, window), Max(targetTime, 1);
    assert Last(s) == Last(slow) && Last(f) == Last(fast);
    if |slow| >= 2 && window != 0 {
      var n := |s| - 1;
      WeightedSolveMonotone(s, f, target, n);
      SolveWithinTwelve(f, target, n);
      MovementAntitone(WeightedSolve(f, target, n), WeightedSolve(s, target, n), WeightedTarget(target, n));
    }
  }
}

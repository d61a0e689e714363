/** The lock-free nonce allocator as an interleaving of atomic steps: any number of threads
    lease ranges or rebind the work, one load, store or compare-exchange at a time
    (vireon-miner, nonce.rs). */
module NonceLeases {
  import opened Prelude

  type ThreadId = nat

  /** Where a thread stands inside `lease` or `reset_work`, with its local variables.
      `mark` is the number of reset stores so far when the window end was loaded. */
  datatype Local =
    | Idle
    | LoadCap(count: u64)
    | LoadCursor(count: u64, cap: u64, mark: nat)
    | Swap(count: u64, cap: u64, mark: nat, start: u64)
    | StoreCursor(nonce: u64, end: u64)
    | StoreEnd(end: u64)
    | BumpWork
    | BumpGeneration

  /** A granted range `[start, end)`; `quiet` if no reset store fell between its load of the
      window end and its exchange, and no reset was half done meanwhile. */
  datatype Lease = Lease(start: u64, end: u64, quiet: bool)

  /** What happened between two stores to the cursor; `closing` is where the cursor stood
      when the second one came. */
  datatype Epoch = Epoch(base: u64, end: u64, leases: seq<Lease>, closing: Option<u64>)

  datatype State = State(
    cursor: u64, windowEnd: u64, generation: u64, workGeneration: u64, threads: map<ThreadId, Local>,
    epochs: seq<Epoch>, resetStores: nat, serial: bool)

  const INITIAL := State(0, U64_MAX, 1, 0, map[], [Epoch(0, U64_MAX, [], None)], 0, true)

  function At(s: State, t: ThreadId): Local { if t in s.threads then s.threads[t] else Idle }

  function Goto(s: State, t: ThreadId, l: Local): State { s.(threads := s.threads[t := l]) }

  predicate HalfReset(s: State) { exists t :: t in s.threads && s.threads[t].StoreEnd? }

  /** A thread calls an operation, or performs its next atomic step; a weak exchange may
      fail spuriously. */
  datatype Action =
    | CallLease(thread: ThreadId, count: u64)
    | CallReset(thread: ThreadId, nonce: u64, window: Option<u64>)
    | Advance(thread: ThreadId, spurious: bool)

  function WindowEnd(nonce: u64, window: Option<u64>): u64 {
    if window.Some? && window.value > 0 then SaturatingAdd(nonce, window.value) else U64_MAX
  }

  function Wrapping(n: u64): u64 { (n + 1) % 0x1_0000_0000_0000_0000 }

  function Take(count: u64, cap: u64, start: u64): u64 { Min(count, SaturatingSub(cap, start)) }

  function Granted(s: State, lease: Lease): seq<Epoch>
    requires s.epochs != []
  {
    DropLast(s.epochs) + [Last(s.epochs).(leases := Last(s.epochs).leases + [lease])]
  }

  function Reopened(s: State, nonce: u64, end: u64): seq<Epoch>
    requires s.epochs != []
  {
    DropLast(s.epochs) + [Last(s.epochs).(closing := Some(s.cursor)), Epoch(nonce, end, [], None)]
  }

  function Exchange(s: State, t: ThreadId, l: Local, spurious: bool): State
    requires s.epochs != [] && l.Swap?
  {
    if spurious || s.cursor != l.start then Goto(s, t, LoadCursor(l.count, l.cap, l.mark)) else
      var next := SaturatingAdd(l.start, Take(l.count, l.cap, l.start));
      Goto(s, t, Idle).(cursor := next,
          epochs := Granted(s, Lease(l.start, next, l.mark == s.resetStores && !HalfReset(s))))
  }

  function Step(s: State, a: Action): (r: State)
    requires s.epochs != []
    ensures r.epochs != []
  {
    var t, l := a.thread, At(s, a.thread);
    match a
    case CallLease(_, count) => if l.Idle? && count != 0 then Goto(s, t, LoadCap(count)) else s
    case CallReset(_, nonce, window) => if l.Idle? then Goto(s, t, StoreCursor(nonce, WindowEnd(nonce, window))) else s
    case Advance(_, spurious) =>
      match l
      case Idle => s
      case LoadCap(count) => Goto(s, t, LoadCursor(count, s.windowEnd, s.resetStores))
      case LoadCursor(count, cap, mark) =>
        if s.cursor >= cap ||
            Take(count, cap, s.cursor) == 0 then Goto(s, t, Idle) else Goto(s, t, Swap(count, cap, mark, s.cursor))
      case Swap(_, _, _, _) => Exchange(s, t, l, spurious)
      case StoreCursor(nonce, end) =>
        Goto(s, t, StoreEnd(end)).(cursor := nonce, epochs := Reopened(s, nonce, end),
                                   resetStores := s.resetStores + 1, serial := s.serial && !HalfReset(s))
      case StoreEnd(end) => Goto(s, t, BumpWork).(windowEnd := end, resetStores := s.resetStores + 1)
      case BumpWork => Goto(s, t, BumpGeneration).(workGeneration := Wrapping(s.workGeneration))
      case BumpGeneration => Goto(s, t, Idle).(generation := Wrapping(s.generation))
  }

  function Run(actions: seq<Action>): (s: State)
    ensures s.epochs != []
  {
    if actions == [] then INITIAL else Step(Run(DropLast(actions)), Last(actions))
  }

  // ----- tiling

  /** The leases cover `[base, end)` without gap or overlap, in the order they were granted. */
  ghost predicate Tiles(leases: seq<Lease>, base: u64, end: u64) {
    if leases == [] then base == end else
      Tiles(DropLast(leases), base, Last(leases).start) && Last(leases).start < Last(leases).end == end
  }

  lemma {:induction false} TilesOrder(leases: seq<Lease>, base: u64, end: u64, i: nat, j: nat)
    requires Tiles(leases, base, end) && i < j < |leases|
    ensures base <= leases[i].start < leases[i].end <= leases[j].start < leases[j].end <= end
    decreases |leases|
  {
    TilesBounds(leases, base, end, j);
    TilesBounds(leases, base, end, i);
    if j == |leases| - 1 {
      TilesBounds(DropLast(leases), base, Last(leases).start, i);
    } else {
      TilesOrder(DropLast(leases), base, Last(leases).start, i, j);
    }
  }

  lemma {:induction false} TilesBounds(leases: seq<Lease>, base: u64, end: u64, i: nat)
    requires Tiles(leases, base, end) && i < |leases|
    ensures base <= leases[i].start < leases[i].end <= end
    decreases |leases|
  {
    TilesGrow(DropLast(leases), base, Last(leases).start);
    if i < |leases| - 1 {
      TilesBounds(DropLast(leases), base, Last(leases).start, i);
    }
  }

  lemma {:induction false} TilesGrow(leases: seq<Lease>, base: u64, end: u64)
    requires Tiles(leases, base, end)
    ensures base <= end
    decreases |leases|
  {
    if leases != [] {
      TilesGrow(DropLast(leases), base, Last(leases).start);
    }
  }

  lemma {:induction false} TilesCover(leases: seq<Lease>, base: u64, end: u64, nonce: u64)
    requires Tiles(leases, base, end) && base <= nonce < end
    ensures exists i :: 0 <= i < |leases| && leases[i].start <= nonce < leases[i].end
    decreases |leases|
  {
    if nonce < Last(leases).start {
      TilesCover(DropLast(leases), base, Last(leases).start, nonce);
      var i :| 0 <= i < |DropLast(leases)| && DropLast(leases)[i].start <= nonce < DropLast(leases)[i].end;
      assert leases[i].start <= nonce < leases[i].end;
    } else {
      assert leases[|leases| - 1].start <= nonce < leases[|leases| - 1].end;
    }
  }

  // ----- the invariant

  /** A closed epoch is tiled up to where the cursor stood at its end. */
  ghost predicate TilesClosed(e: Epoch) { e.closing.Some? && Tiles(e.leases, e.base, e.closing.value) }

  /** Quiet leases stay inside their epoch's window. */
  ghost predicate QuietInside(e: Epoch) {
    forall i :: 0 <= i < |e.leases| && e.leases[i].quiet ==> e.leases[i].end <= e.end
  }

  /** What a thread carries: a cap it loaded, exact while no reset store has intervened, and
      a start strictly below it. */
  ghost predicate LocalOk(s: State, l: Local) {
    && (l.LoadCap? ==> l.count > 0)
    && (l.LoadCursor? ==> l.count > 0 && (l.mark == s.resetStores ==> l.cap == s.windowEnd) && l.mark <= s.resetStores)
    && (l.Swap? ==> l.count > 0 && (l.mark == s.resetStores ==> l.cap == s.windowEnd) && l.mark <= s.resetStores &&
                    l.start < l.cap)
  }

  ghost predicate Inv(s: State) {
    && s.epochs != []
    && (forall i :: 0 <= i < |s.epochs| - 1 ==> TilesClosed(s.epochs[i]))
    && Tiles(Last(s.epochs).leases, Last(s.epochs).base, s.cursor) && Last(s.epochs).closing.None?
    && (forall t :: t in s.threads ==> LocalOk(s, s.threads[t]))
    && (s.serial ==> Serialised(s))
  }

  /** While resets do not overlap: at most one is half done, it belongs to the current
      epoch, and otherwise the window end is the current epoch's. */
  ghost predicate Serialised(s: State)
    requires s.epochs != []
  {
    && (forall t :: t in s.threads && s.threads[t].StoreEnd? ==> s.threads[t].end == Last(s.epochs).end)
    && (forall t, u :: t in s.threads && u in s.threads && s.threads[t].StoreEnd? && s.threads[u].StoreEnd? ==> t == u)
    && (!HalfReset(s) ==> s.windowEnd == Last(s.epochs).end)
    && forall i :: 0 <= i < |s.epochs| ==> QuietInside(s.epochs[i])
  }

  /** A successful exchange takes what was asked for or what is left below the cap, which is
      at least one nonce, and never wraps. */
  lemma {:induction false} TakeIsExact(count: u64, cap: u64, start: u64)
    requires count > 0 && start < cap
    ensures start < SaturatingAdd(start, Take(count, cap, start)) == Min(start + count, cap)
  {
  }

  lemma {:induction false} GrantKeepsTiling(s: State, lease: Lease)
    requires s.epochs != [] && lease.start == s.cursor < lease.end
    requires forall i :: 0 <= i < |s.epochs| - 1 ==> TilesClosed(s.epochs[i])
    requires Tiles(Last(s.epochs).leases, Last(s.epochs).base, s.cursor)
    ensures var epochs := Granted(s, lease);
            && |epochs| == |s.epochs| && Last(epochs).base == Last(s.epochs).base
            && Last(epochs).closing == Last(s.epochs).closing
            && Tiles(Last(epochs).leases, Last(epochs).base, lease.end)
            && forall i :: 0 <= i < |epochs| - 1 ==> TilesClosed(epochs[i])
  {
    var epochs, tip := Granted(s, lease), Last(s.epochs);
    assert DropLast(tip.leases + [lease]) == tip.leases;
    assert Tiles(Last(epochs).leases, Last(epochs).base, lease.end);
    forall i | 0 <= i < |epochs| - 1 ensures TilesClosed(epochs[i]) {
      assert epochs[i] == s.epochs[i];
    }
  }

  lemma {:induction false} GrantKeepsQuiet(s: State, lease: Lease)
    requires s.epochs != [] && (forall i :: 0 <= i < |s.epochs| ==> QuietInside(s.epochs[i]))
    requires lease.quiet ==> lease.end <= Last(s.epochs).end
    ensures forall i :: 0 <= i < |Granted(s, lease)| ==> QuietInside(Granted(s, lease)[i])
  {
    var epochs, tip := Granted(s, lease), Last(s.epochs);
    forall i | 0 <= i < |epochs| ensures QuietInside(epochs[i]) {
      if i < |epochs| - 1 {
        assert epochs[i] == s.epochs[i];
      } else {
        assert QuietInside(tip);
      }
    }
  }

  /** Changing only a thread's place to one that is not half-way through a reset. */
  lemma {:induction false} GotoKeeps(s: State, t: ThreadId, l: Local)
    requires Inv(s) && LocalOk(s, l) && !l.StoreEnd? && !At(s, t).StoreEnd?
    ensures Inv(Goto(s, t, l)) && (HalfReset(Goto(s, t, l)) <==> HalfReset(s))
  {
    hide Tiles, QuietInside, TilesClosed;
    HalfResetAfter(s, t, l);
  }

  lemma {:induction false} HalfResetAfter(s: State, t: ThreadId, l: Local)
    requires !l.StoreEnd? && !At(s, t).StoreEnd?
    ensures HalfReset(Goto(s, t, l)) <==> HalfReset(s)
  {
    var r := Goto(s, t, l);
    if HalfReset(s) {
      var u :| u in s.threads && s.threads[u].StoreEnd?;
      assert r.threads[u].StoreEnd?;
    }
    if HalfReset(r) {
      var u :| u in r.threads && r.threads[u].StoreEnd?;
      assert s.threads[u].StoreEnd?;
    }
  }

  lemma {:induction false} ExchangeKeeps(s: State, t: ThreadId, spurious: bool)
    requires Inv(s) && At(s, t).Swap?
    ensures Inv(Exchange(s, t, At(s, t), spurious))
  {
    hide Tiles, QuietInside, TilesClosed, Granted;
    var l := At(s, t);
    if spurious || s.cursor != l.start {
      GotoKeeps(s, t, LoadCursor(l.count, l.cap, l.mark));
    } else {
      TakeIsExact(l.count, l.cap, l.start);
      GotoKeeps(s, t, Idle);
      var lease := Lease(l.start, SaturatingAdd(l.start, Take(l.count, l.cap, l.start)), l.mark == s.resetStores &&
          !HalfReset(s));
      GrantKeepsTiling(s, lease);
      if s.serial {
        GrantKeepsQuiet(s, lease);
      }
      GrantKeepsEnd(s, lease);
      var idle, r := Goto(s, t, Idle), Exchange(s, t, l, spurious);
      assert forall u :: u in r.threads ==> LocalOk(idle, r.threads[u]);
    }
  }

  lemma {:induction false} GrantKeepsEnd(s: State, lease: Lease)
    requires s.epochs != []
    ensures Granted(s, lease) != [] && Last(Granted(s, lease)).end == Last(s.epochs).end
  {
  }

  lemma {:induction false} CursorStoreKeeps(s: State, t: ThreadId)
    requires Inv(s) && At(s, t).StoreCursor?
    ensures Inv(Step(s, Advance(t, false)))
  {
    var l, r := At(s, t), Step(s, Advance(t, false));
    assert Last(r.epochs) == Epoch(l.nonce, l.end, [], None);
    assert Tiles(Last(r.epochs).leases, l.nonce, l.nonce);
    forall i | 0 <= i < |r.epochs|
      ensures i < |r.epochs| - 1 ==> TilesClosed(r.epochs[i])
      ensures s.serial ==> QuietInside(r.epochs[i])
    {
      if i < |s.epochs| - 1 {
        assert r.epochs[i] == s.epochs[i];
      } else if i == |s.epochs| - 1 {
        assert r.epochs[i] == s.epochs[i].(closing := Some(s.cursor));
      }
    }
    assert HalfReset(r) by { assert r.threads[t].StoreEnd?; }
    if r.serial {
      assert forall u :: u in s.threads ==> !s.threads[u].StoreEnd?;
    }
  }

  lemma {:induction false} EndStoreKeeps(s: State, t: ThreadId)
    requires Inv(s) && At(s, t).StoreEnd?
    ensures Inv(Step(s, Advance(t, false)))
  {
    hide Tiles, QuietInside, TilesClosed;
    var l, r := At(s, t), Step(s, Advance(t, false));
    if s.serial {
      assert HalfReset(s);
      assert forall u :: u in r.threads ==> !r.threads[u].StoreEnd?;
    }
  }

  lemma {:induction false} StepKeeps(s: State, a: Action)
    requires Inv(s)
    ensures Inv(Step(s, a))
  {
    hide Tiles, QuietInside, TilesClosed, Granted, Serialised, Exchange;
    var t, l := a.thread, At(s, a.thread);
    assert LocalOk(s, l);
    match a
    case CallLease(_, count) => if l.Idle? && count != 0 { GotoKeeps(s, t, LoadCap(count)); }
    case CallReset(_, nonce, window) => if l.Idle? { GotoKeeps(s, t, StoreCursor(nonce, WindowEnd(nonce, window))); }
    case Advance(_, spurious) =>
      match l
      case Idle =>
      case LoadCap(count) => GotoKeeps(s, t, LoadCursor(count, s.windowEnd, s.resetStores));
      case LoadCursor(count, cap, mark) =>
        GotoKeeps(s, t, Idle);
        if s.cursor < cap { GotoKeeps(s, t, Swap(count, cap, mark, s.cursor)); }
      case Swap(_, _, _, _) => ExchangeKeeps(s, t, spurious);
      case StoreCursor(_, _) => CursorStoreKeeps(s, t);
      case StoreEnd(_) => EndStoreKeeps(s, t);
      case BumpWork => GotoKeeps(s, t, BumpGeneration); GenerationsFree(Goto(s, t, BumpGeneration), s.generation,
          Wrapping(s.workGeneration));
      case BumpGeneration => GotoKeeps(s, t, Idle); GenerationsFree(Goto(s, t, Idle), Wrapping(s.generation),
          s.workGeneration);
  }

  lemma {:induction false} GenerationsFree(s: State, generation: u64, work: u64)
    requires Inv(s)
    ensures Inv(s.(generation := generation, workGeneration := work))
  {
    hide Tiles, QuietInside, TilesClosed;
    var r := s.(generation := generation, workGeneration := work);
    assert forall t :: t in s.threads ==> LocalOk(r, s.threads[t]);
  }

  lemma {:induction false} InitialInv()
    ensures Inv(INITIAL)
  {
    assert Tiles([], 0, 0);
  }

  lemma {:induction false} RunInv(actions: seq<Action>)
    ensures Inv(Run(actions))
    decreases |actions|
  {
    hide Inv, Step;
    InitialInv();
    if actions != [] {
      RunInv(DropLast(actions));
      StepKeeps(Run(DropLast(actions)), Last(actions));
    }
  }

  // ----- the results

  /** Where the leases of epoch `k` end: the cursor when it was closed, or the cursor now. */
  ghost function Reached(s: State, k: nat): u64
    requires k < |s.epochs|
  {
    if k == |s.epochs| - 1 || s.epochs[k].closing.None? then s.cursor else s.epochs[k].closing.value
  }

  ghost predicate Before(x: Lease, y: Lease) { x.start < x.end <= y.start < y.end }

  /** Each range is non-empty and ends before every later one begins. */
  ghost predicate Disjoint(leases: seq<Lease>) {
    forall i, j :: 0 <= i < j < |leases| ==> Before(leases[i], leases[j])
  }

  /** In every interleaving, the ranges leased between two consecutive cursor resets tile
      exactly from the reset nonce to where the cursor stood at the next reset, or stands
      now; in particular they are pairwise disjoint. */
  lemma {:induction false} LeasesTile(actions: seq<Action>, k: nat)
    requires k < |Run(actions).epochs|
    ensures var s := Run(actions);
            && Tiles(s.epochs[k].leases, s.epochs[k].base, Reached(s, k))
            && (k < |s.epochs| - 1 <==> s.epochs[k].closing.Some?)
    ensures Disjoint(Run(actions).epochs[k].leases)
  {
    hide Tiles, Run;
    RunInv(actions);
    var s := Run(actions);
    var leases := s.epochs[k].leases;
    if k < |s.epochs| - 1 {
      assert TilesClosed(s.epochs[k]);
    }
    forall i, j | 0 <= i < j < |leases| ensures Before(leases[i], leases[j]) {
      TilesOrder(leases, s.epochs[k].base, Reached(s, k), i, j);
    }
  }

  /** Every nonce from the reset nonce up to the cursor has been handed to someone. */
  lemma {:induction false} NoNonceSkipped(actions: seq<Action>, nonce: u64)
    requires var s := Run(actions); Last(s.epochs).base <= nonce < s.cursor
    ensures exists i :: 0 <= i < |Last(Run(actions).epochs).leases| &&
              Last(Run(actions).epochs).leases[i].start <= nonce < Last(Run(actions).epochs).leases[i].end
  {
    hide Tiles, Run;
    RunInv(actions);
    var s := Run(actions);
    TilesCover(Last(s.epochs).leases, Last(s.epochs).base, s.cursor, nonce);
  }

  /** As long as resets do not overlap each other, no lease that spans no reset passes the
      end of its window. */
  lemma {:induction false} QuietLeasesStayInside(actions: seq<Action>, k: nat, i: nat)
    requires var s := Run(actions);
             s.serial && k < |s.epochs| && i < |s.epochs[k].leases| && s.epochs[k].leases[i].quiet
    ensures var s := Run(actions); s.epochs[k].leases[i].end <= s.epochs[k].end
  {
    hide Run, Tiles;
    RunInv(actions);
    var s := Run(actions);
    assert QuietInside(s.epochs[k]);
  }

  // ----- where epochs come from

  /** Some call asked for a reset to `nonce` with a window that ends at `end`: `nonce` plus its
      size, at most the 64-bit maximum, which also stands for no window. */
  ghost predicate Asked(actions: seq<Action>, nonce: u64, end: u64) {
    exists i :: 0 <= i < |actions| && actions[i].CallReset? && actions[i].nonce == nonce &&
      end == match actions[i].window
             case Some(size) => if size > 0 then Min(nonce + size, U64_MAX) else U64_MAX
             case None => U64_MAX
  }

  /** Resets under way and epochs after the first carry what some call asked for. */
  ghost predicate FromCalls(s: State, actions: seq<Action>) {
    && s.epochs != [] && s.epochs[0].base == 0 && s.epochs[0].end == U64_MAX
    && (forall t :: t in s.threads && s.threads[t].StoreCursor? ==>
          Asked(actions, s.threads[t].nonce, s.threads[t].end))
    && forall k :: 0 < k < |s.epochs| ==> Asked(actions, s.epochs[k].base, s.epochs[k].end)
  }

  lemma {:induction false} AskedLater(actions: seq<Action>, a: Action, nonce: u64, end: u64)
    ensures Asked(actions, nonce, end) ==> Asked(actions + [a], nonce, end)
    ensures a.CallReset? && a.nonce == nonce && WindowEnd(nonce, a.window) == end ==> Asked(actions + [a], nonce, end)
  {
    assert forall i :: 0 <= i < |actions| ==> (actions + [a])[i] == actions[i];
    assert (actions + [a])[|actions|] == a;
  }

  lemma {:induction false} FromCallsStep(s: State, actions: seq<Action>, a: Action)
    requires FromCalls(s, actions)
    ensures FromCalls(Step(s, a), actions + [a])
  {
    hide Asked, WindowEnd, Take;
    forall nonce, end ensures Asked(actions, nonce, end) ==> Asked(actions + [a], nonce, end)
      ensures a.CallReset? && a.nonce == nonce && WindowEnd(nonce, a.window) == end ==>
              Asked(actions + [a], nonce, end)
    {
      AskedLater(actions, a, nonce, end);
    }
    var r := Step(s, a);
    forall k | 0 < k < |r.epochs| ensures Asked(actions + [a], r.epochs[k].base, r.epochs[k].end) {
      if k < |s.epochs| { assert r.epochs[k].base == s.epochs[k].base && r.epochs[k].end == s.epochs[k].end; }
    }
  }

  /** In every interleaving each epoch but the first starts at the nonce, and ends with the
      window, of one call to reset. */
  lemma {:induction false} EpochsAreResets(actions: seq<Action>)
    ensures FromCalls(Run(actions), actions)
    decreases |actions|
  {
    hide Step, Asked;
    if actions != [] {
      EpochsAreResets(DropLast(actions));
      FromCallsStep(Run(DropLast(actions)), DropLast(actions), Last(actions));
      assert actions == DropLast(actions) + [Last(actions)];
    }
  }

  // ----- generations

  ghost function BetweenBumps(s: State): set<ThreadId> { set t | t in s.threads && s.threads[t].BumpGeneration? }

  /** Equal on the circle of 64-bit numbers, with the work generation one behind. */
  ghost predicate Matches(generation: u64, between: nat, work: u64) {
    (generation + between - work - 1) % 0x1_0000_0000_0000_0000 == 0
  }

  /** The two counters differ by one for the initial generation and by the resets that stand
      between them. */
  ghost predicate InStep(s: State) { Matches(s.generation, |BetweenBumps(s)|, s.workGeneration) }

  lemma {:induction false} BetweenAfter(s: State, r: State, t: ThreadId, l: Local)
    requires r.threads == s.threads[t := l]
    ensures t in BetweenBumps(s) <==> At(s, t).BumpGeneration?
    ensures BetweenBumps(r) == if l.BumpGeneration? then BetweenBumps(s) + {t} else BetweenBumps(s) - {t}
  {
  }

  lemma {:induction false} SizeAfter(threads: set<ThreadId>, t: ThreadId)
    ensures |threads + {t}| == |threads| + if t in threads then 0 else 1
    ensures |threads - {t}| == |threads| - if t in threads then 1 else 0
  {
    if t in threads {
      assert threads + {t} == threads;
    } else {
      assert threads - {t} == threads;
    }
  }

  lemma {:induction false} MatchesAfterBump(generation: u64, between: nat, work: u64)
    requires Matches(generation, between, work)
    ensures Matches(generation, between + 1, Wrapping(work))
    ensures between > 0 ==> Matches(Wrapping(generation), between - 1, work)
  {
    assert Wrapping(generation) == if generation == U64_MAX then 0 else generation + 1;
    assert Wrapping(work) == if work == U64_MAX then 0 else work + 1;
    FullCircle(generation + between - work - 1);
  }

  lemma {:induction false} FullCircle(x: int)
    requires x % 0x1_0000_0000_0000_0000 == 0
    ensures (x + 0x1_0000_0000_0000_0000) % 0x1_0000_0000_0000_0000 == 0
    ensures (x - 0x1_0000_0000_0000_0000) % 0x1_0000_0000_0000_0000 == 0
  {
  }

  /** Only the two bumps touch the counters, one each. */
  ghost predicate CountersMove(s: State, r: State, t: ThreadId, l: Local, next: Local) {
    && r.generation == (if l.BumpGeneration? then Wrapping(s.generation) else s.generation)
    && r.workGeneration == (if next.BumpGeneration? then Wrapping(s.workGeneration) else s.workGeneration)
    && !(l.BumpGeneration? && next.BumpGeneration?)
  }

  lemma {:induction false} CountersAfter(s: State, a: Action)
    requires s.epochs != []
    ensures var t, l, r := a.thread, At(s, a.thread), Step(s, a);
            if r.threads == s.threads then r.generation == s.generation && r.workGeneration == s.workGeneration
            else r.threads == s.threads[t := At(r, t)] && CountersMove(s, r, t, l, At(r, t))
  {
    hide Granted, Reopened, WindowEnd, Take, HalfReset;
  }

  lemma {:induction false} StepStaysInStep(s: State, a: Action)
    requires s.epochs != [] && InStep(s)
    ensures InStep(Step(s, a))
  {
    hide BetweenBumps, Step, Wrapping, Matches;
    var t, r := a.thread, Step(s, a);
    CountersAfter(s, a);
    if r.threads == s.threads {
      SameThreads(s, r);
    } else {
      BetweenAfter(s, r, t, At(r, t));
      SizeAfter(BetweenBumps(s), t);
      MatchesAfterBump(s.generation, |BetweenBumps(s)|, s.workGeneration);
    }
  }

  lemma {:induction false} SameThreads(s: State, r: State)
    requires r.threads == s.threads
    ensures BetweenBumps(r) == BetweenBumps(s)
  {
  }

  /** In every interleaving, once no reset is half-way the generation has advanced once for
      every advance of the work generation. */
  lemma {:induction false} GenerationsStayInStep(actions: seq<Action>)
    ensures InStep(Run(actions))
    decreases |actions|
  {
    hide Step, InStep;
    if actions == [] {
      assert InStep(INITIAL) by { InitiallyInStep(); }
    } else {
      GenerationsStayInStep(DropLast(actions));
      StepStaysInStep(Run(DropLast(actions)), Last(actions));
    }
  }

  lemma {:induction false} InitiallyInStep()
    ensures InStep(INITIAL)
  {
    assert BetweenBumps(INITIAL) == {};
  }

  // ----- why both conditions are there

  lemma {:induction false} RunJoin(x: seq<Action>, a: Action)
    ensures Run(x + [a]) == Step(Run(x), a)
  {
    assert DropLast(x + [a]) == x;
  }

  /** A lease that loaded the old window end before a reset can pass the new one: the range
      [0, 10) is granted although the reset opened a window of five nonces. */
  lemma {:induction false} SpanningLeaseEscapes()
    ensures exists actions :: var s := Run(actions);
              s.serial && |Last(s.epochs).leases| == 1 && Last(s.epochs).end == 5 &&
                  Last(s.epochs).leases[0] == Lease(0, 10, false)
  {
    hide Run;
    RunNothing();
    var a1 := [CallLease(1, 10)];
    var a2 := a1 + [Advance(1, false)];
    var a3 := a2 + [CallReset(2, 0, Some(5))];
    var a4 := a3 + [Advance(2, false)];
    var a5 := a4 + [Advance(2, false)];
    var a6 := a5 + [Advance(1, false)];
    var a7 := a6 + [Advance(1, false)];
    RunJoin([], CallLease(1, 10));
    assert [] + [CallLease(1, 10)] == a1;
    RunJoin(a1, Advance(1, false));
    RunJoin(a2, CallReset(2, 0, Some(5)));
    assert Run(a3).threads == map[1 := LoadCursor(10, U64_MAX, 0), 2 := StoreCursor(0, 5)];
    RunJoin(a3, Advance(2, false));
    RunJoin(a4, Advance(2, false));
    assert Last(Run(a5).epochs) == Epoch(0, 5, [], None);
    assert Run(a5).threads == map[1 := LoadCursor(10, U64_MAX, 0), 2 := BumpWork];
    RunJoin(a5, Advance(1, false));
    RunJoin(a6, Advance(1, false));
    assert Last(Run(a7).epochs).leases == [Lease(0, 10, false)];
  }

  /** Cursor stores of two resets, then their end stores in the other order. */
  lemma {:induction false} CrossedResets() returns (actions: seq<Action>)
    ensures var s := Run(actions);
            && s.cursor == 0 && s.windowEnd == 5 && !s.serial && Last(s.epochs) == Epoch(0, 3, [], None)
            && s.threads == map[1 := BumpWork, 2 := BumpWork]
  {
    hide Run;
    assert Run([]) == INITIAL by { RunNothing(); }
    var a1 := [CallReset(1, 0, Some(5))];
    var a2 := a1 + [CallReset(2, 0, Some(3))];
    var a3 := a2 + [Advance(1, false)];
    var a4 := a3 + [Advance(2, false)];
    var a5 := a4 + [Advance(2, false)];
    actions := a5 + [Advance(1, false)];
    RunJoin([], CallReset(1, 0, Some(5)));
    assert [] + [CallReset(1, 0, Some(5))] == a1;
    RunJoin(a1, CallReset(2, 0, Some(3)));
    assert Run(a2).threads == map[1 := StoreCursor(0, 5), 2 := StoreCursor(0, 3)];
    RunJoin(a2, Advance(1, false));
    assert HalfReset(Run(a3)) by { assert 1 in Run(a3).threads && Run(a3).threads[1].StoreEnd?; }
    RunJoin(a3, Advance(2, false));
    RunJoin(a4, Advance(2, false));
    RunJoin(a5, Advance(1, false));
    assert Run(actions).threads == map[1 := BumpWork, 2 := BumpWork];
  }

  lemma {:induction false} RunNothing()
    ensures Run([]) == INITIAL
  {
  }

  /** Two overlapping resets can leave the cursor of one with the window end of the other,
      and then even a quiet lease passes the window that goes with its cursor. */
  lemma {:induction false} OverlappingResetsMix()
    ensures exists actions :: var s := Run(actions);
              !s.serial && |Last(s.epochs).leases| == 1 && Last(s.epochs).end == 3 &&
                  Last(s.epochs).leases[0] == Lease(0, 5, true)
  {
    hide Run;
    var a6 := CrossedResets();
    var a7 := a6 + [CallLease(3, 10)];
    var a8 := a7 + [Advance(3, false)];
    var a9 := a8 + [Advance(3, false)];
    var a10 := a9 + [Advance(3, false)];
    RunJoin(a6, CallLease(3, 10));
    RunJoin(a7, Advance(3, false));
    RunJoin(a8, Advance(3, false));
    RunJoin(a9, Advance(3, false));
    assert Run(a9).threads == map[1 := BumpWork, 2 := BumpWork, 3 := Swap(10, 5, Run(a9).resetStores, 0)];
    assert Last(Run(a10).epochs).leases == [Lease(0, 5, true)];
  }
}

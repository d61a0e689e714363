/** Completion of sync in terms of where the two chains really part (p2p.rs). */
module SyncCorollaries {
  import opened Prelude
  import opened Primitives
  import opened Blocks
  import opened Chains
  import opened ChainIdentity
  import opened Nodes
  import opened NodeOutcomes
  import opened Locators
  import opened Sync
  import opened SyncCompletion

  /** The exchange from the greeting on, given as many rounds as completion needs. */
  ghost function WholeExchange(
    c: Crypto, clock: nat -> u64, cfg: Config, theirs: Node, s: Syncer, peer: PeerId): Handled
    requires LocalHello(c, cfg, s.node).Ok? && Meeting(c, s.node, theirs).Some?
    requires Meeting(c, s.node, theirs).value < |theirs.canonical|
  {
    Exchange(c, clock, cfg, theirs, s, peer, Some(AskHello(LocalHello(c, cfg, s.node).value)),
             TotalRounds(|theirs.canonical| - (Meeting(c, s.node, theirs).value + 1)))
  }

  /** The last block the two chains have in common. */
  ghost predicate ForkAt(ours: seq<Block>, theirs: seq<Block>, fork: nat) {
    && fork < |ours| && fork < |theirs| && ours[..fork + 1] == theirs[..fork + 1]
    && (fork + 1 < |ours| && fork + 1 < |theirs| ==> ours[fork + 1] != theirs[fork + 1])
  }

  lemma {:induction false} ForkIsShared(c: Crypto, now: u64, ours: Node, theirs: Node, fork: nat)
    requires Honest(c, now, ours, theirs) && ForkAt(ours.canonical, theirs.canonical, fork)
    ensures SharedUpTo(c, ours.canonical, theirs.canonical, fork)
  {
    hide NodeInvariant, Valid, BlockHash, CumulativeWork;
    var o, th := ours.canonical, theirs.canonical;
    forall i | 0 <= i < |o| && i < |th| ensures BlockHash(c, o[i]) == BlockHash(c, th[i]) <==> i <= fork {
      if i <= fork {
        assert o[i] == o[..fork + 1][i] && th[i] == th[..fork + 1][i];
      } else {
        assert o[fork + 1] == o[..i + 1][fork + 1] && th[fork + 1] == th[..i + 1][fork + 1];
        if BlockHash(c, o[i]) == BlockHash(c, th[i]) {
          SharedBlockSharesHistory(c, now, ours.network, o, now, ours.network, th, i);
        }
      }
    }
  }

  /** A peer that extends our chain is followed to its tip, however far ahead it is. */
  lemma {:induction false} ExtensionCompletes(
    c: Crypto, now: u64, clock: nat -> u64, cfg: Config, s: Syncer, peer: PeerId, theirs: Node)
    requires Honest(c, now, s.node, theirs) && Clocked(clock, now)
    requires s.node.canonical <= theirs.canonical && NoResumeAbove(s, |s.node.canonical| - 1, theirs)
    ensures LocalHello(c, cfg, s.node).Ok? && Meeting(c, s.node, theirs) == Some(|s.node.canonical| - 1)
    ensures |s.node.canonical| <= |theirs.canonical|
    ensures Synced(WholeExchange(c, clock, cfg, theirs, s, peer), peer, theirs)
  {
    hide NodeInvariant, Valid, LocalHello, Exchange, BlockHash, CumulativeWork, Locator, FindAncestor, Rounds,
         LocatorHeights, Synced;
    var tip := |s.node.canonical| - 1;
    MeetingIsShared(c, now, s.node, theirs);
    assert ForkAt(s.node.canonical, theirs.canonical,
        tip) by { assert s.node.canonical[..tip + 1] == s.node.canonical; }
    ForkIsShared(c, now, s.node, theirs, tip);
    ValidStructure(c, now, s.node.network, s.node.canonical);
    AncestorFound(c, s.node.canonical, theirs.canonical, tip);
    SyncCompletes(c, now, clock, cfg, s, peer, theirs);
  }

  /** A fork is followed if their branch and twice the depth of ours stay within the staging
      limit: discovery goes at most twice as deep as the real fork point. */
  lemma {:induction false} ForkCompletes(
    c: Crypto, now: u64, clock: nat -> u64, cfg: Config, s: Syncer, peer: PeerId, theirs: Node, fork: nat)
    requires Honest(c, now, s.node, theirs) && Clocked(clock, now) && ForkAt(s.node.canonical, theirs.canonical, fork)
    requires var h := LocatorHeights(|s.node.canonical|); |h| < MAX_LOCATOR_ENTRIES || fork >= h[30]
    requires |theirs.canonical| - |s.node.canonical| + 2 * (|s.node.canonical| - 1 - fork) <= MAX_STAGED_BLOCKS
    requires Meeting(c, s.node, theirs).Some? ==> NoResumeAbove(s, Meeting(c, s.node, theirs).value, theirs)
    ensures LocalHello(c, cfg, s.node).Ok? && Meeting(c, s.node, theirs).Some?
    ensures Meeting(c, s.node, theirs).value <= fork < |theirs.canonical|
    ensures Synced(WholeExchange(c, clock, cfg, theirs, s, peer), peer, theirs)
  {
    hide NodeInvariant, Valid, LocalHello, Exchange, BlockHash, CumulativeWork, Locator, FindAncestor, Rounds,
         LocatorHeights, Synced;
    MeetingIsShared(c, now, s.node, theirs);
    ForkIsShared(c, now, s.node, theirs, fork);
    ValidStructure(c, now, s.node.network, s.node.canonical);
    AncestorFound(c, s.node.canonical, theirs.canonical, fork);
    SyncCompletes(c, now, clock, cfg, s, peer, theirs);
  }
}

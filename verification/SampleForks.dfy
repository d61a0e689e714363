/** Concrete peers: one that can be followed, one whose fork is too long, and a run of
    ordinary messages after which an honest peer can no longer be followed (p2p.rs). */
module SampleForks {
  import opened Prelude
  import opened Primitives
  import opened Blocks
  import opened Chains
  import opened ChainIdentity
  import opened Difficulty
  import opened Nodes
  import opened NodeOutcomes
  import opened Locators
  import opened Sync
  import opened SyncSafety
  import opened SyncCompletion
  import opened SyncCorollaries
  import opened Samples

  // ----- work of the sample chains

  lemma {:induction false} LongerHasMoreWork(n: nat, k: nat, nonce: u64)
    requires k < n <= 7_000
    ensures MoreWork(Grow(n, nonce), Grow(k, nonce))
    decreases n
  {
    hide Grow, Plain, CumulativeWork, Lenient, Valid, Genesis;
    GrowFacts(n, nonce);
    GrowFacts(n - 1, nonce);
    GrowFacts(k, nonce);
    AppendAddsWork(Lenient(), 0, Devnet, Grow(n - 1, nonce), Last(Grow(n, nonce)));
    if k < n - 1 {
      LongerHasMoreWork(n - 1, k, nonce);
    }
  }

  lemma {:induction false} GrowFacts(n: nat, nonce: u64)
    requires n <= 7_000
    ensures Valid(Lenient(), 0, Devnet, Grow(n, nonce)) && Grow(n, nonce)[0] == Genesis()
    ensures n > 0 ==> Grow(n, nonce) == Grow(n - 1, nonce) + [Last(Grow(n, nonce))]
  {
    hide Valid, MinedAt, Genesis;
    GrowIsPlain(n, nonce);
  }

  lemma {:induction false} FirstBlocks(x: u64, y: u64)
    ensures CumulativeWork(Grow(1, x)).Ok? && CumulativeWork(Grow(1, x)) == CumulativeWork(Grow(1, y))
    ensures x != y ==> Grow(1, x)[1] != Grow(1, y)[1]
  {
    hide Valid, MinedAt, Genesis, Lenient, NextDifficulty, Plain;
    GrowIsPlain(0, 0);
    GrowIsPlain(1, x);
    WorkOfPlain(Grow(1, x));
    GenesisTip();
    MinedOutcome(0, 0, [Genesis()], x);
    MinedOutcome(0, 0, [Genesis()], y);
    assert Grow(0, x) == Grow(0, y) == [Genesis()];
    SameWork([Genesis()], NextOn([Genesis()], x), NextOn([Genesis()], y));
  }

  lemma {:induction false} GenesisTip()
    ensures Genesis().header.height == 0 && Genesis().header.timestamp == 0 && Valid(Lenient(), 0, Devnet, [Genesis()])
  {
    hide Valid;
    GenesisIsValid(0);
  }

  lemma {:induction false} WorkOfPlain(blocks: seq<Block>)
    requires Plain(blocks)
    ensures CumulativeWork(blocks).Ok?
  {
    hide Valid, CumulativeWork;
    WorkWithinBounds(Lenient(), 0, Devnet, blocks);
  }

  lemma {:induction false} SameWork(blocks: seq<Block>, x: Block, y: Block)
    requires x.header.difficulty == y.header.difficulty
    ensures CumulativeWork(blocks + [x]) == CumulativeWork(blocks + [y])
  {
    assert DropLast(blocks + [x]) == blocks == DropLast(blocks + [y]);
  }

  // ----- two nodes

  /** The hypotheses of sync completion can be met: one node extends the other. */
  lemma {:induction false} AheadIsHonest(n: nat)
    requires 0 < n <= 7_000
    ensures Honest(Lenient(), 0, NodeWith(Grow(0, 0)), NodeWith(Grow(n, 0)))
  {
    hide Grow, Valid, NodeInvariant, CumulativeWork;
    GrowFacts(0, 0);
    GrowFacts(n, 0);
    NodeIsSound(Grow(0, 0));
    LongerHasMoreWork(n, 0, 0);
  }

  /** A node on the one-block chain of nonce 0 meets a longer chain of nonce 1 at genesis. */
  lemma {:induction false} ForksMeetAtGenesis(ours: Node, n: nat)
    requires NodeInvariant(Lenient(), ours) && ours.network == Devnet && ours.canonical == Grow(1, 0) && 2 <= n <= 7_000
    ensures Honest(Lenient(), 0, ours, NodeWith(Grow(n, 1)))
    ensures Meeting(Lenient(), ours, NodeWith(Grow(n, 1))) == Some(0)
  {
    hide Grow, Valid, NodeInvariant, CumulativeWork, FindAncestor, Locator, LocatorHeights, Linked, Plain;
    var c, theirs := Lenient(), NodeWith(Grow(n, 1));
    GrowFacts(1, 0);
    GrowFacts(n, 1);
    LongerHasMoreWork(n, 1, 1);
    FirstBlocks(0, 1);
    GrowPrefix(n, 1, 1);
    assert Grow(n, 1)[1] == Grow(n, 1)[..2][1] == Grow(1, 1)[1];
    assert ours.canonical[..1] == theirs.canonical[..1];
    ForkIsShared(c, 0, ours, theirs, 0);
    ValidStructure(c, 0, Devnet, ours.canonical);
    AncestorFound(c, ours.canonical, theirs.canonical, 0);
  }

  /** The first way to stall: a fork of 2049 blocks from the meeting point. */
  lemma {:induction false} LongForkStalls()
    ensures var ours, theirs := NodeWith(Grow(1, 0)), NodeWith(Grow(2_049, 1));
            Honest(Lenient(), 0, ours, theirs) && CannotFollow(Lenient(), Syncer(ours, map[], None, None), theirs)
  {
    hide Grow, Valid, NodeInvariant, Honest, Meeting;
    GrowFacts(1, 0);
    NodeIsSound(Grow(1, 0));
    ForksMeetAtGenesis(NodeWith(Grow(1, 0)), 2_049);
  }

  // ----- a session that ends in a stall

  /** A node on the genesis block, greeted by a peer two blocks ahead. */
  function Fresh(): Syncer { Syncer(NodeWith(Grow(0, 0)), map[], None, None) }

  function First(): Node { NodeWith(Grow(2, 0)) }

  lemma {:induction false} FirstIsHonest(cfg: Config)
    ensures Honest(Lenient(), 0, Fresh().node, First())
    ensures LocalHello(Lenient(), cfg, Fresh().node).Ok? && LocalHello(Lenient(), cfg, First()).Ok?
    ensures CumulativeWork(First().canonical).Ok?
    ensures LocalHello(Lenient(), cfg, First()).value == Remote(Lenient(), cfg, First())
    ensures Meeting(Lenient(), Fresh().node, First()) == Some(0)
  {
    hide Grow, Valid, NodeInvariant, CumulativeWork, FindAncestor, Locator, LocatorHeights, Linked, LocalHello,
         BlockHash;
    var c, ours, theirs := Lenient(), Fresh().node, First();
    AheadIsHonest(2);
    HelloIs(c, 0, cfg, ours);
    HelloIs(c, 0, cfg, theirs);
    GrowPrefix(2, 0, 0);
    assert ours.canonical[..1] == ours.canonical == theirs.canonical[..1];
    ForkIsShared(c, 0, ours, theirs, 0);
    ValidStructure(c, 0, Devnet, ours.canonical);
    AncestorFound(c, ours.canonical, theirs.canonical, 0);
  }

  ghost function AncestorReply(cfg: Config): Response
    requires LocalHello(Lenient(), cfg, Fresh().node).Ok?
  {
    var local := LocalHello(Lenient(), cfg, Fresh().node).value;
    HandleRequest(Lenient(), cfg, First(), AskAncestor(local, Locator(Lenient(), Fresh().node.canonical)))
  }

  ghost function HeaderReply(cfg: Config): Response
    requires LocalHello(Lenient(), cfg, Fresh().node).Ok?
  {
    var local := LocalHello(Lenient(), cfg, Fresh().node).value;
    HandleRequest(Lenient(), cfg, First(), AskHeaders(local, 1, MAX_SYNC_HEADERS))
  }

  /** The peer answers the first two requests in full, then sends one of its two blocks and
      disappears. */
  ghost function PartialSync(cfg: Config): seq<Occurrence>
    requires LocalHello(Lenient(), cfg, Fresh().node).Ok? && LocalHello(Lenient(), cfg, First()).Ok?
  {
    [FromPeer(0, 1, AncestorReply(cfg)), FromPeer(0, 1, HeaderReply(cfg)),
     FromPeer(0, 1, BlocksReply(LocalHello(Lenient(), cfg, First()).value, First().canonical[1..2])), PeerGone(1)]
  }

  ghost function AfterHeaders(cfg: Config): Syncer
    requires CumulativeWork(First().canonical).Ok?
  {
    var remote := Remote(Lenient(), cfg, First());
    var branch := VerifiedBranch(Lenient(), remote, First().canonical, 0, true, 1);
    Fresh().(target := Some(remote), branches := map[1 := branch])
  }

  lemma {:induction false} HeadersArrive(cfg: Config)
    ensures LocalHello(Lenient(), cfg, Fresh().node).Ok? && CumulativeWork(First().canonical).Ok?
    ensures var s := Occur(Lenient(), cfg, Fresh(), FromPeer(0, 1, AncestorReply(cfg)));
            Occur(Lenient(), cfg, s, FromPeer(0, 1, HeaderReply(cfg))) == AfterHeaders(cfg)
  {
    hide Grow, Honest, NodeInvariant, CumulativeWork, LocalHello, HandleResponse, HandleRequest, Locator,
         VerifiedBranch, BlockHash, Meeting, HelloOf;
    FirstIsHonest(cfg);
    var c, remote, theirs := Lenient(), Remote(Lenient(), cfg, First()), First();
    AncestorRound(c, 0, 0, cfg, Fresh(), 1, theirs);
    var s := Fresh().(target := Some(remote), branches := map[1 := Branch(remote, 0, true, 1, false, [], [])]);
    assert Fresh().branches[1 := Branch(remote, 0, true, 1, false, [], [])] == s.branches;
    assert theirs.canonical[1..1] == [];
    assert s.branches[1] == HeaderBranch(c, remote, theirs.canonical, 0, true, 1);
    FetchingStarts(cfg, s);
    HeaderRound(c, 0, 0, cfg, s, 1, theirs, 0, true, 1);
    assert AfterHeaders(cfg).branches == s.branches[1 := VerifiedBranch(c, remote, theirs.canonical, 0, true, 1)];
  }

  lemma {:induction false} FetchingStarts(cfg: Config, s: Syncer)
    requires CumulativeWork(First().canonical).Ok? && Honest(Lenient(), 0, Fresh().node, First())
    requires s.node == Fresh().node && s.target == Some(Remote(Lenient(), cfg, First())) && s.resume.None?
    ensures Fetching(Lenient(), 0, cfg, s, First(), 0)
  {
    hide Grow, NodeInvariant, Valid, CumulativeWork;
    GrowPrefix(2, 0, 0);
    assert s.node.canonical[..1] == s.node.canonical == First().canonical[..1];
  }

  /** One block has been applied, and the resume height says so. */
  lemma {:induction false} OneBlockArrives(cfg: Config)
    ensures LocalHello(Lenient(), cfg, First()).Ok? && CumulativeWork(First().canonical).Ok?
    ensures var response := BlocksReply(LocalHello(Lenient(), cfg, First()).value, First().canonical[1..2]);
            var s := Occur(Lenient(), cfg, AfterHeaders(cfg), FromPeer(0, 1, response));
            s.node.canonical == Grow(1, 0) && s.resume == Some(2)
  {
    hide Grow, NodeInvariant, Valid, CumulativeWork, LocalHello, CheckHello, OnBlocks, OnDirectBlocks, OnHello,
         OnAncestor, OnHeaders, VerifiedBranch, BlockHash, HelloOf, Linked, CheckStructure;
    FirstIsHonest(cfg);
    var c, theirs, s := Lenient(), First(), AfterHeaders(cfg);
    GreetingAccepted(c, 0, cfg, s.node, theirs);
    ValidStructure(c, 0, Devnet, theirs.canonical);
    RemoteHeight(cfg);
    BlocksPass(c, 0, cfg, s, 1, Remote(c, cfg, theirs), theirs.canonical, 0, true, 1, 2);
    GrowPrefix(2, 0, 0);
    GrowPrefix(2, 1, 0);
    assert s.node.canonical == theirs.canonical[..1];
    DirectHandled(c, 0, 0, cfg, s, 1, theirs, 0, 1, 2);
  }

  lemma {:induction false} RemoteHeight(cfg: Config)
    requires CumulativeWork(First().canonical).Ok?
    ensures Remote(Lenient(), cfg, First()).bestHeight == 2
  {
    hide Grow, CumulativeWork, BlockHash;
  }

  lemma {:induction false} PartialSyncEnds(cfg: Config)
    ensures LocalHello(Lenient(), cfg, Fresh().node).Ok? && LocalHello(Lenient(), cfg, First()).Ok?
    ensures var s := Session(Lenient(), cfg, Fresh(), PartialSync(cfg));
            && NodeInvariant(Lenient(), s.node) && s.node.network == Devnet
            && s.node.canonical == Grow(1, 0) && s.resume == Some(2)
  {
    hide Grow, Honest, NodeInvariant, CumulativeWork, LocalHello, HandleResponse, Meeting, AncestorReply,
         HeaderReply, AfterHeaders, Session;
    var c := Lenient();
    FirstIsHonest(cfg);
    HeadersArrive(cfg);
    OneBlockArrives(cfg);
    var all := PartialSync(cfg);
    SessionSteps(c, cfg, Fresh(), all);
    GrowFacts(0, 0);
    NodeIsSound(Grow(0, 0));
    SessionSafety(c, cfg, Fresh(), all);
  }

  /** The second way to stall, reached by ordinary messages: after a partial sync from one
      peer the resume height keeps the node from following an honest peer with more work on
      another fork, although that fork has only two blocks. */
  lemma {:induction false} PartialSyncStalls(cfg: Config)
    ensures LocalHello(Lenient(), cfg, Fresh().node).Ok? && LocalHello(Lenient(), cfg, First()).Ok?
    ensures var s := Session(Lenient(), cfg, Fresh(), PartialSync(cfg));
            var other := NodeWith(Grow(2, 1));
            && s.node.canonical == Grow(1, 0)
            && Honest(Lenient(), 0, s.node, other)
            && CannotFollow(Lenient(), s, other)
            && !CannotFollow(Lenient(), s.(resume := None), other)
  {
    hide Grow, Honest, NodeInvariant, LocalHello, Meeting, Session, PartialSync, Lenient;
    PartialSyncEnds(cfg);
    ForksMeetAtGenesis(Session(Lenient(), cfg, Fresh(), PartialSync(cfg)).node, 2);
  }

  lemma {:induction false} SessionSteps(c: Crypto, cfg: Config, s: Syncer, o: seq<Occurrence>)
    requires |o| == 4
    ensures var two := Occur(c, cfg, Occur(c, cfg, s, o[0]), o[1]);
            Session(c, cfg, s, o) == Occur(c, cfg, Occur(c, cfg, two, o[2]), o[3])
  {
    hide Occur;
    var o1, o2, o3 := o[..1], o[..2], o[..3];
    assert DropLast(o) == o3 && DropLast(o3) == o2 && DropLast(o2) == o1 && DropLast(o1) == [];
    assert Last(o3) == o[2] && Last(o2) == o[1] && Last(o1) == o[0];
    assert Session(c, cfg, s, o1) == Occur(c, cfg, s, o[0]);
    assert Session(c, cfg, s, o2) == Occur(c, cfg, Session(c, cfg, s, o1), o[1]);
    assert Session(c, cfg, s, o3) == Occur(c, cfg, Session(c, cfg, s, o2), o[2]);
  }
}

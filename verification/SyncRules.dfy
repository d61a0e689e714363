/** What a peer can and cannot bring about: foreign greetings, lighter chains, unannounced
    blocks, and what the branches of a syncing node hold at any time (p2p.rs). */
module SyncRules {
  import opened Prelude
  import opened Primitives
  import opened Blocks
  import opened Consensus
  import MempoolEvents
  import opened Chains
  import opened ChainIdentity
  import opened Nodes
  import opened NodeOutcomes
  import opened Locators
  import opened Sync
  import opened SyncSafety
  import opened SyncCompletion

  // ----- greetings

  /** A peer of the same protocol, network and genesis. */
  ghost predicate Kindred(c: Crypto, cfg: Config, n: Node, hello: Hello)
    requires n.canonical != []
  {
    && hello.version == PROTOCOL_VERSION && hello.networkId == cfg.networkId && hello.magic == cfg.magic
    && hello.genesis == Hex(BlockHash(c, n.canonical[0]))
  }

  /** A response from any other peer is refused and changes nothing, and its requests are
      rejected. */
  lemma {:induction false} ForeignPeersAreRefused(
    c: Crypto, now: u64, cfg: Config, s: Syncer, peer: PeerId, response: Response, request: Request)
    requires s.node.canonical != []
    ensures !response.Rejected? && !Kindred(c, cfg, s.node, response.hello) ==>
            HandleResponse(c, now, cfg, s, peer, response) == Handled(s, None, Err(P2pProtocol))
    ensures response.Rejected? ==> HandleResponse(c, now, cfg, s, peer, response) == Handled(s, None, Ok(()))
    ensures !Kindred(c, cfg, s.node, request.hello) ==> HandleRequest(c, cfg, s.node, request) == Rejected
  {
    hide BlockHash, CheckStructure, OnHello, OnAncestor, OnHeaders, OnBlocks, LocalHello, Answer;
  }

  /** A greeting, or the answer with an ancestor, leads to a request only if the peer announces
      more work than the node has. */
  lemma {:induction false} OnlyMoreWorkIsFollowed(
    c: Crypto, now: u64, t: u64, cfg: Config, s: Syncer, peer: PeerId, response: Response)
    requires s.node.canonical != [] && Valid(c, now, s.node.network, s.node.canonical)
    requires response.HelloAccepted? || response.CommonAncestor?
    requires HandleResponse(c, t, cfg, s, peer, response).request.Some?
    ensures ParseWork(response.hello.work).Ok?
    ensures ParseWork(response.hello.work).value > ExpectedTrials(s.node.canonical)
  {
    hide Valid, BlockHash, CumulativeWork, CheckHello, LocalHello, Locator, AskForMore, ExpectedTrials, WorkFits,
         HelloOf;
    HelloIs(c, now, cfg, s.node);
    ValidWorkFits(c, now, s.node.network, s.node.canonical);
    WorkIsTrials(s.node.canonical);
    HelloWork(c, cfg, s.node.canonical, CumulativeWork(s.node.canonical).value);
  }

  lemma {:induction false} HelloWork(c: Crypto, cfg: Config, blocks: seq<Block>, work: nat)
    requires blocks != [] && |blocks| <= U64_MAX + 1 && work <= U128_MAX
    ensures ParseWork(HelloOf(c, cfg, blocks, work).work) == Ok(work)
  {
    hide BlockHash;
  }

  /** After a greeting is handled the node no longer aims for the tip it is on. */
  lemma {:induction false} TargetIsElsewhere(c: Crypto, t: u64, cfg: Config, s: Syncer, peer: PeerId, hello: Hello)
    requires s.node.canonical != []
    requires CheckHello(c, cfg, s.node, hello).Ok?
    requires HandleResponse(c, t, cfg, s, peer, HelloAccepted(hello)).result.Ok?
    ensures var end := HandleResponse(c, t, cfg, s, peer, HelloAccepted(hello)).state;
            && end.node == s.node && end.branches == s.branches
            && (end.target.Some? ==> end.target.value.bestHash != Hex(BlockHash(c, Last(s.node.canonical))))
            && (end.target == s.target || end.target == Some(hello) || (end.target.None? && end.resume.None?))
  {
    hide BlockHash, CumulativeWork, CheckStructure, Locator, ParseWork;
  }

  // ----- what a node serves

  /** An honest peer serves runs of its chain: as many as asked for, up to the limits, from the
      height asked for. */
  lemma {:induction false} AnswersAreRuns(
    c: Crypto, now: u64, network: Network, local: Hello, blocks: seq<Block>, hello: Hello, start: u64, max: nat)
    requires Valid(c, now, network, blocks) && blocks != [] && start <= |blocks|
    ensures Answer(c, local, blocks, AskBlocks(hello, start, max)) ==
            BlocksReply(local, blocks[start..Min(start + Min(max, 128), |blocks|)])
    ensures var answer := Answer(c, local, blocks, AskHeaders(hello, start, max));
            && answer.HeadersReply? && |answer.headers| == Min(Min(max, 512), |blocks| - start)
            && forall i :: 0 <= i < |answer.headers| ==>
                 var h, b := answer.headers[i], blocks[start + i];
                 && h.height == start + i && h.hash == Hex(BlockHash(c, b)) && h.difficulty == b.header.difficulty
                 && h.previousHash == Hex(if start + i == 0 then Zero else BlockHash(c, blocks[start + i - 1]))
  {
    hide Valid, BlockHash, FromHeight, CheckStructure;
    ValidStructure(c, now, network, blocks);
    Chunk(blocks, start, Min(max, 128));
    Chunk(blocks, start, Min(max, 512));
    forall i | 0 <= i < |blocks|
      ensures blocks[i].header.previousHash == if i == 0 then Zero else BlockHash(c, blocks[i - 1])
    {
      assert blocks[i].header.previousHash == PreviousHash(c, blocks[..i]);
    }
  }

  // ----- headers

  /** Consecutive heights from `expected`, each header naming the one before it. */
  ghost predicate Consecutive(previous: Text, expected: nat, headers: seq<HeaderSummary>) {
    forall i {:trigger headers[i]} :: 0 <= i < |headers| ==>
      && headers[i].height == expected + i && LooksLikeHash(headers[i].hash)
      && headers[i].previousHash == if i == 0 then previous else headers[i - 1].hash
  }

  lemma {:induction false} LinksMeaning(previous: Text, expected: nat, headers: seq<HeaderSummary>)
    ensures CheckHeaderLinks(previous, expected, headers).Ok? <==> Consecutive(previous, expected, headers)
    decreases |headers|
  {
    hide LooksLikeHash;
    if headers != [] {
      var h, rest := headers[0], headers[1..];
      LinksMeaning(h.hash, expected + 1, rest);
      forall i {:trigger rest[i]} | 0 <= i < |rest| ensures rest[i] == headers[i + 1] {
      }
      if Consecutive(previous, expected, headers) {
        assert headers[0].height == expected;
        forall i {:trigger rest[i]} | 0 <= i < |rest|
          ensures && rest[i].height == expected + 1 + i && LooksLikeHash(rest[i].hash)
                  && rest[i].previousHash == if i == 0 then h.hash else rest[i - 1].hash
        {
          assert headers[i + 1].height == expected + (i + 1);
        }
      }
      if Consecutive(h.hash, expected + 1, rest) {
        forall i {:trigger headers[i]} | 1 <= i < |headers|
          ensures && headers[i].height == expected + i && LooksLikeHash(headers[i].hash)
                  && headers[i].previousHash == headers[i - 1].hash
        {
          assert rest[i - 1].height == expected + 1 + (i - 1);
        }
      }
    }
  }

  // ----- what the branches hold, over every session

  /** The headers run without gap from above the ancestor; a verified branch has reached the
      announced tip; staged blocks were all announced and are not too many. */
  ghost predicate Traced(c: Crypto, branch: Branch) {
    && (forall i {:trigger branch.headers[i]} :: 0 <= i < |branch.headers| ==>
          && branch.headers[i].height == branch.ancestor + 1 + i && LooksLikeHash(branch.headers[i].hash)
          && (i > 0 ==> branch.headers[i].previousHash == branch.headers[i - 1].hash))
    && (branch.verified ==>
          exists i :: 0 <= i < |branch.headers| && branch.headers[i].hash == branch.remote.bestHash &&
                      branch.headers[i].height >= branch.remote.bestHeight)
    && |branch.blocks| <= MAX_STAGED_BLOCKS
    && forall i :: 0 <= i < |branch.blocks| ==> MatchesHeader(c, branch.headers, branch.blocks[i])
  }

  ghost predicate AllTraced(c: Crypto, s: Syncer) { forall p :: p in s.branches ==> Traced(c, s.branches[p]) }

  lemma {:induction false} MatchGrows(
    c: Crypto, headers: seq<HeaderSummary>, more: seq<HeaderSummary>, b: Block)
    requires MatchesHeader(c, headers, b)
    ensures MatchesHeader(c, headers + more, b)
  {
    hide BlockHash;
    var i :| 0 <= i < |headers| && headers[i].hash == Hex(BlockHash(c, b)) && headers[i].height == b.header.height;
    assert (headers + more)[i] == headers[i];
  }

  lemma {:induction false} HeadersExtend(c: Crypto, n: Node, branch: Branch, headers: seq<HeaderSummary>)
    requires Traced(c, branch) && CheckHeaderChain(c, n, branch, headers).Ok?
    ensures headers != [] && Traced(c, branch.(headers := branch.headers + headers))
  {
    hide BlockHash, CheckHeaderLinks, LooksLikeHash, MatchesHeader;
    var known, all := branch.headers, branch.headers + headers;
    var previous, expected :=
      if known == [] then Hex(BlockHash(c, n.canonical[branch.ancestor])) else Last(known).hash,
      branch.ancestor + 1 + |known|;
    if known != [] { assert Last(known).height == branch.ancestor + 1 + (|known| - 1); }
    LinksMeaning(previous, expected, headers);
    forall i {:trigger all[i]} | 0 <= i < |all|
      ensures all[i].height == branch.ancestor + 1 + i && LooksLikeHash(all[i].hash)
      ensures i > 0 ==> all[i].previousHash == all[i - 1].hash
    {
      if i < |known| {
        assert all[i] == known[i];
      } else {
        assert all[i] == headers[i - |known|];
        assert headers[i - |known|].height == expected + (i - |known|);
      }
    }
    if branch.verified {
      var i :| 0 <= i < |known| && known[i].hash == branch.remote.bestHash &&
               known[i].height >= branch.remote.bestHeight;
      assert all[i] == known[i];
    }
    forall i | 0 <= i < |branch.blocks| ensures MatchesHeader(c, all, branch.blocks[i]) {
      MatchGrows(c, known, headers, branch.blocks[i]);
    }
  }

  lemma {:induction false} HeadersKeepTraced(
    c: Crypto, cfg: Config, s: Syncer, peer: PeerId, hello: Hello, headers: seq<HeaderSummary>)
    requires AllTraced(c, s)
    ensures AllTraced(c, OnHeaders(c, cfg, s, peer, hello, headers).state)
  {
    hide Traced, CheckHeaderChain, LocalHello;
    if peer in s.branches && CheckHeaderChain(c, s.node, s.branches[peer], headers).Ok? {
      var branch := s.branches[peer];
      HeadersExtend(c, s.node, branch, headers);
      var longer := branch.(headers := branch.headers + headers);
      assert forall next :: Traced(c, longer.(next := next)) by {
        forall next ensures Traced(c, longer.(next := next)) { NextIsIrrelevant(c, longer, next); }
      }
      var last := Last(longer.headers);
      if last.height >= branch.remote.bestHeight && last.hash == branch.remote.bestHash {
        forall next ensures Traced(c, longer.(verified := true, next := next)) {
          ReachedTip(c, longer, next);
        }
      }
    }
  }

  lemma {:induction false} NextIsIrrelevant(c: Crypto, branch: Branch, next: nat)
    requires Traced(c, branch)
    ensures Traced(c, branch.(next := next))
  {
    hide LooksLikeHash, MatchesHeader;
  }

  lemma {:induction false} ReachedTip(c: Crypto, branch: Branch, next: nat)
    requires Traced(c, branch) && branch.headers != [] && Last(branch.headers).hash == branch.remote.bestHash
    requires Last(branch.headers).height >= branch.remote.bestHeight
    ensures Traced(c, branch.(verified := true, next := next))
  {
    hide LooksLikeHash, MatchesHeader;
    assert branch.headers[|branch.headers| - 1] == Last(branch.headers);
  }

  /** What must hold of a body response that changes anything. */
  ghost predicate Announced(c: Crypto, s: Syncer, peer: PeerId, hello: Hello, blocks: seq<Block>) {
    && peer in s.branches && blocks != []
    && var branch := s.branches[peer];
       && branch.verified && hello.bestHash == branch.remote.bestHash && hello.work == branch.remote.work
       && Last(blocks).header.height <= branch.remote.bestHeight
       && forall i :: 0 <= i < |blocks| ==> MatchesHeader(c, branch.headers, blocks[i])
  }

  /** Only blocks whose headers were announced and checked before can change anything. */
  lemma {:induction false} OnlyAnnouncedBlocks(
    c: Crypto, now: u64, cfg: Config, s: Syncer, peer: PeerId, hello: Hello, blocks: seq<Block>)
    ensures OnBlocks(c, now, cfg, s, peer, hello, blocks).state != s ==> Announced(c, s, peer, hello, blocks)
    ensures OnBlocks(c, now, cfg, s, peer, hello, blocks).result.Ok? ==> Announced(c, s, peer, hello, blocks)
  {
    hide MatchesHeader, OnDirectBlocks, OnStagedBlocks;
  }

  lemma {:induction false} BlocksKeepTraced(
    c: Crypto, now: u64, cfg: Config, s: Syncer, peer: PeerId, hello: Hello, blocks: seq<Block>)
    requires AllTraced(c, s)
    ensures AllTraced(c, OnBlocks(c, now, cfg, s, peer, hello, blocks).state)
  {
    hide Traced, MatchesHeader, SubmitAll, LocalHello, FromBlocks, CumulativeWork, AdoptCandidateChain, BlockHash,
         StagedCandidate;
    OnlyAnnouncedBlocks(c, now, cfg, s, peer, hello, blocks);
    if Announced(c, s, peer, hello, blocks) {
      var branch := s.branches[peer];
      forall next ensures Traced(c, branch.(next := next)) { NextIsIrrelevant(c, branch, next); }
      if |branch.blocks| + |blocks| <= MAX_STAGED_BLOCKS {
        BodiesAreMatched(c, branch, blocks, Last(blocks).header.height + 1);
      }
    }
  }

  lemma {:induction false} BodiesAreMatched(c: Crypto, branch: Branch, blocks: seq<Block>, next: nat)
    requires Traced(c, branch) && |branch.blocks| + |blocks| <= MAX_STAGED_BLOCKS
    requires forall i :: 0 <= i < |blocks| ==> MatchesHeader(c, branch.headers, blocks[i])
    ensures Traced(c, branch.(next := next, blocks := branch.blocks + blocks))
  {
    hide LooksLikeHash, MatchesHeader;
  }

  lemma {:induction false} ResponseKeepsTraced(
    c: Crypto, now: u64, cfg: Config, s: Syncer, peer: PeerId, response: Response)
    requires AllTraced(c, s)
    ensures AllTraced(c, HandleResponse(c, now, cfg, s, peer, response).state)
  {
    hide Traced, OnHeaders, OnBlocks, LocalHello, CheckHello, RemoteHasMoreWork, Locator;
    match response
    case HeadersReply(hello, headers) => HeadersKeepTraced(c, cfg, s, peer, hello, headers);
    case BlocksReply(hello, blocks) => BlocksKeepTraced(c, now, cfg, s, peer, hello, blocks);
    case CommonAncestor(hello, height) =>
      forall direct, next ensures Traced(c, Branch(hello, height, direct, next, false, [], [])) {
        NewBranch(c, hello, height, direct, next);
      }
    case _ =>
  }

  lemma {:induction false} NewBranch(c: Crypto, hello: Hello, height: u64, direct: bool, next: nat)
    ensures Traced(c, Branch(hello, height, direct, next, false, [], []))
  {
  }

  /** Whatever peers send, in any order, every branch a node is fetching stays traced. */
  lemma {:induction false} SessionKeepsTraced(c: Crypto, cfg: Config, s: Syncer, occurrences: seq<Occurrence>)
    requires AllTraced(c, s)
    ensures AllTraced(c, Session(c, cfg, s, occurrences))
    decreases |occurrences|
  {
    hide Traced, HandleResponse, Step;
    if occurrences != [] {
      SessionKeepsTraced(c, cfg, s, DropLast(occurrences));
      var before := Session(c, cfg, s, DropLast(occurrences));
      match Last(occurrences)
      case FromPeer(now, peer, response) => ResponseKeepsTraced(c, now, cfg, before, peer, response);
      case _ =>
    }
  }

  // ----- the end of an exchange

  /** When bodies are accepted and nothing more is asked for, the node is on a chain with the
      tip, height and work that the peer announced. */
  lemma {:induction false} CompletionIsGenuine(
    c: Crypto, now: u64, cfg: Config, s: Syncer, peer: PeerId, hello: Hello, blocks: seq<Block>)
    requires OnBlocks(c, now, cfg, s, peer, hello, blocks).result.Ok?
    requires OnBlocks(c, now, cfg, s, peer, hello, blocks).request.None?
    ensures peer in s.branches
    ensures var remote, end := s.branches[peer].remote, OnBlocks(c, now, cfg, s, peer, hello, blocks).state;
            && end.node.canonical != []
            && Hex(BlockHash(c, Last(end.node.canonical))) == remote.bestHash
            && Last(end.node.canonical).header.height >= remote.bestHeight
            && CumulativeWork(end.node.canonical).Ok?
            && Decimal(CumulativeWork(end.node.canonical).value) == remote.work
            && peer !in end.branches && end.target.None? && end.resume.None?
  {
    hide MatchesHeader, SubmitAll, FromBlocks, CumulativeWork, MempoolEvents.Reconcile, CheckReplacement, Archive,
         CheckInserts, BlockHash, CheckStructure;
    OnlyAnnouncedBlocks(c, now, cfg, s, peer, hello, blocks);
  }
}

/** Against an honest peer with more work the exchange ends with the peer's chain (p2p.rs). */
module SyncCompletion {
  import opened Prelude
  import opened Primitives
  import opened Blocks
  import opened Consensus
  import opened Chains
  import opened ChainIdentity
  import opened Nodes
  import opened NodeOutcomes
  import opened Locators
  import opened Sync

  // ----- the exchange

  function Round(c: Crypto, now: u64, cfg: Config, theirs: Node, s: Syncer, peer: PeerId, request: Request): Handled {
    HandleResponse(c, now, cfg, s, peer, HandleRequest(c, cfg, theirs, request))
  }

  /** At most `rounds` request-response rounds; each round reads its own clock. */
  function Exchange(
    c: Crypto, clock: nat -> u64, cfg: Config, theirs: Node, s: Syncer, peer: PeerId, request: Option<Request>,
    rounds: nat): Handled
    decreases rounds
  {
    if request.None? || rounds == 0 then Handled(s, request, Ok(())) else
      var h := Round(c, clock(rounds), cfg, theirs, s, peer, request.value);
      if h.result.Err? then h else Exchange(c, clock, cfg, theirs, h.state, peer, h.request, rounds - 1)
  }

  /** Two nodes of one network and genesis; theirs is accepted, storable and has more work. */
  ghost predicate Honest(c: Crypto, now: u64, ours: Node, theirs: Node) {
    && NodeInvariant(c, ours) && theirs.network == ours.network && ours.canonical != [] && theirs.canonical != []
    && Valid(c, now, ours.network, ours.canonical) && Valid(c, now, ours.network, theirs.canonical)
    && ours.canonical[0] == theirs.canonical[0]
    && MoreWork(theirs.canonical, ours.canonical)
    && |theirs.canonical| <= I64_MAX + 1
  }

  // ----- facts about accepted chains

  function HelloOf(c: Crypto, cfg: Config, blocks: seq<Block>, work: nat): Hello
    requires blocks != [] && |blocks| <= U64_MAX + 1
  {
    Hello(PROTOCOL_VERSION, cfg.networkId, cfg.magic, Hex(BlockHash(c, blocks[0])), |blocks| - 1,
        Hex(BlockHash(c, Last(blocks))), Decimal(work))
  }

  lemma {:induction false} HelloIs(c: Crypto, now: u64, cfg: Config, n: Node)
    requires Valid(c, now, n.network, n.canonical) && n.canonical != []
    ensures |n.canonical| <= U64_MAX + 1 && LoadBlocks(c, n) == Ok(n.canonical) && CumulativeWork(n.canonical).Ok?
    ensures LocalHello(c, cfg, n) == Ok(HelloOf(c, cfg, n.canonical, CumulativeWork(n.canonical).value))
    ensures CumulativeWork(n.canonical).value <= U128_MAX
  {
    hide Valid, BlockHash, CheckStructure, CumulativeWork;
    LengthFits(c, now, n.network, n.canonical);
    ValidStructure(c, now, n.network, n.canonical);
    WorkWithinBounds(c, now, n.network, n.canonical);
  }

  lemma {:induction false} GreetingAccepted(c: Crypto, now: u64, cfg: Config, n: Node, other: Node)
    requires Valid(c, now, n.network, n.canonical) && n.canonical != []
    requires Valid(c, now, other.network, other.canonical) && other.canonical != []
    requires other.canonical[0] == n.canonical[0]
    ensures LocalHello(c, cfg, other).Ok? && CheckHello(c, cfg, n, LocalHello(c, cfg, other).value).Ok?
  {
    hide Valid, BlockHash, LoadBlocks, CumulativeWork;
    HelloIs(c, now, cfg, n);
    HelloIs(c, now, cfg, other);
  }

  /** An honest peer answers every request that greets it properly from its own chain. */
  lemma {:induction false} PeerAnswers(c: Crypto, now: u64, cfg: Config, ours: Node, theirs: Node, request: Request)
    requires Valid(c, now, ours.network, ours.canonical) && ours.canonical != []
    requires Valid(c, now, theirs.network, theirs.canonical) && theirs.canonical != []
    requires theirs.canonical[0] == ours.canonical[0]
    requires LocalHello(c, cfg, ours) == Ok(request.hello)
    ensures LocalHello(c, cfg, theirs).Ok?
    ensures HandleRequest(c, cfg, theirs, request) == Answer(c, LocalHello(c, cfg, theirs).value, theirs.canonical,
            request)
  {
    hide Valid, LocalHello, CheckHello, Answer;
    GreetingAccepted(c, now, cfg, theirs, ours);
    GreetingAccepted(c, now, cfg, ours, theirs);
  }

  lemma {:induction false} FromHeightSlice(blocks: seq<Block>, start: u64)
    requires Heights(blocks)
    ensures FromHeight(blocks, start) == if start <= |blocks| then blocks[start..] else []
    decreases |blocks|
  {
    if blocks != [] {
      FromHeightSlice(DropLast(blocks), start);
      if start < |blocks| {
        assert blocks[start..] == DropLast(blocks)[start..] + [Last(blocks)];
      }
    }
  }

  function EndOf(start: nat, per: nat, length: nat): nat { Min(start + per, length) }

  lemma {:induction false} Chunk(blocks: seq<Block>, start: u64, per: nat)
    requires Heights(blocks) && start <= |blocks|
    ensures Take(FromHeight(blocks, start), per) == blocks[start..EndOf(start, per, |blocks|)]
  {
    FromHeightSlice(blocks, start);
  }

  // ----- single rounds

  lemma {:induction false} GreetingRound(
    c: Crypto, now: u64, t: u64, cfg: Config, s: Syncer, peer: PeerId, theirs: Node)
    requires Honest(c, now, s.node, theirs)
    ensures LocalHello(c, cfg, s.node).Ok? && LocalHello(c, cfg, theirs).Ok?
    ensures Round(c, t, cfg, theirs, s, peer, AskHello(LocalHello(c, cfg, s.node).value)) ==
            Handled(s.(target := Some(LocalHello(c, cfg, theirs).value)),
                    Some(AskAncestor(LocalHello(c, cfg, s.node).value, Locator(c, s.node.canonical))), Ok(()))
  {
    hide NodeInvariant, Valid, BlockHash, LoadBlocks, CumulativeWork, CheckHello, Locator, LocalHello, HandleRequest;
    HelloIs(c, now, cfg, s.node);
    HelloIs(c, now, cfg, theirs);
    PeerAnswers(c, now, cfg, s.node, theirs, AskHello(LocalHello(c, cfg, s.node).value));
    GreetingAccepted(c, now, cfg, s.node, theirs);
    if BlockHash(c, Last(theirs.canonical)) == BlockHash(c, Last(s.node.canonical)) {
      TipDeterminesChain(c, now, s.node.network, theirs.canonical, now, s.node.network, s.node.canonical);
    }
  }

  /** The ancestor both sides settle on. */
  ghost function Meeting(c: Crypto, ours: Node, theirs: Node): Option<u64> {
    FindAncestor(c, theirs.canonical, Locator(c, ours.canonical))
  }

  lemma {:induction false} MeetingIsShared(c: Crypto, now: u64, ours: Node, theirs: Node)
    requires Honest(c, now, ours, theirs)
    ensures Meeting(c, ours, theirs).Some?
    ensures var a := Meeting(c, ours, theirs).value;
            && a < |ours.canonical| && a + 1 < |theirs.canonical|
            && ours.canonical[..a + 1] == theirs.canonical[..a + 1]
            && BlockHash(c, ours.canonical[a]) == BlockHash(c, theirs.canonical[a])
  {
    hide NodeInvariant, Valid, BlockHash, CumulativeWork, Locator, FindAncestor, Linked, CheckStructure;
    var o, th := ours.canonical, theirs.canonical;
    ValidStructure(c, now, ours.network, o);
    MeetingOnBoth(c, o, th);
    var a := Meeting(c, ours, theirs).value;
    SharedBlockSharesHistory(c, now, ours.network, o, now, ours.network, th, a);
    if a + 1 >= |th| {
      assert th == o[..a + 1];
      PrefixHasNoMoreWork(c, now, ours.network, o, a + 1);
    }
  }

  /** The answer is an entry of our locator that is on their chain. */
  lemma {:induction false} MeetingOnBoth(c: Crypto, o: seq<Block>, th: seq<Block>)
    requires o != [] && th != [] && o[0] == th[0] && Heights(o)
    ensures var found := FindAncestor(c, th, Locator(c, o));
            found.Some? && found.value < |o| && found.value < |th| &&
                BlockHash(c, o[found.value]) == BlockHash(c, th[found.value])
  {
    hide BlockHash, LocatorHeights;
    LocatorShape(|o|);
    var heights, locator := LocatorHeights(|o|), Locator(c, o);
    FindAncestorFirst(c, th, locator);
    assert locator[|heights| - 1] == LocatorEntry(0, BlockHash(c, o[0]));
    assert OnChain(c, th, locator[|heights| - 1]);
    var a := FindAncestor(c, th, locator).value;
    var k :| 0 <= k < |locator| && locator[k].height == a && OnChain(c, th, locator[k]);
    assert locator[k] == LocatorEntry(o[heights[k]].header.height, BlockHash(c, o[heights[k]]));
  }

  lemma {:induction false} PrefixHasNoMoreWork(c: Crypto, now: u64, network: Network, blocks: seq<Block>, count: nat)
    requires Valid(c, now, network, blocks) && count <= |blocks|
    ensures CumulativeWork(blocks).Ok? && CumulativeWork(blocks[..count]).Ok?
    ensures CumulativeWork(blocks[..count]).value <= CumulativeWork(blocks).value
    decreases |blocks|
  {
    hide Valid, CumulativeWork, Accepted;
    WorkWithinBounds(c, now, network, blocks);
    if count < |blocks| {
      ValidTip(c, now, network, blocks);
      PrefixHasNoMoreWork(c, now, network, DropLast(blocks), count);
      assert DropLast(blocks)[..count] == blocks[..count];
      assert blocks == DropLast(blocks) + [Last(blocks)];
      AppendAddsWork(c, now, network, DropLast(blocks), Last(blocks));
    } else {
      assert blocks[..count] == blocks;
    }
  }

  lemma {:induction false} AncestorRound(
    c: Crypto, now: u64, t: u64, cfg: Config, s: Syncer, peer: PeerId, theirs: Node)
    requires Honest(c, now, s.node, theirs) && LocalHello(c, cfg, theirs).Ok? && LocalHello(c, cfg, s.node).Ok?
    ensures Meeting(c, s.node, theirs).Some?
    ensures var a, remote, local := Meeting(c, s.node, theirs).value, LocalHello(c, cfg, theirs).value,
            LocalHello(c, cfg, s.node).value;
            var aimed := s.(target := Some(remote));
            var next := Resumed(aimed, remote, a + 1);
            var branch := Branch(remote, a, a == |s.node.canonical| - 1, next, false, [], []);
            && a + 1 <= next <= U64_MAX
            && Round(c, t, cfg, theirs, s, peer, AskAncestor(local, Locator(c, s.node.canonical))) ==
               Handled(aimed.(branches := s.branches[peer := branch]),
                       Some(AskHeaders(local, next, MAX_SYNC_HEADERS)), Ok(()))
  {
    hide NodeInvariant, Valid, BlockHash, LoadBlocks, CumulativeWork, CheckHello, Locator, LocalHello, HandleRequest;
    HelloIs(c, now, cfg, s.node);
    HelloIs(c, now, cfg, theirs);
    PeerAnswers(c, now, cfg, s.node, theirs,
        AskAncestor(LocalHello(c, cfg, s.node).value, Locator(c, s.node.canonical)));
    GreetingAccepted(c, now, cfg, s.node, theirs);
    MeetingIsShared(c, now, s.node, theirs);
  }

  // ----- the header phase

  lemma {:induction false} LinksHold(c: Crypto, blocks: seq<Block>, start: nat, end: nat)
    requires Linked(c, blocks) && 0 < start <= end <= |blocks|
    ensures CheckHeaderLinks(Hex(BlockHash(c, blocks[start - 1])), start, Summaries(c, blocks[start..end])).Ok?
    decreases end - start
  {
    hide BlockHash;
    if start < end {
      LinksHold(c, blocks, start + 1, end);
      var headers := Summaries(c, blocks[start..end]);
      assert headers[0] == Summary(c, blocks[start]);
      assert headers[1..] == Summaries(c, blocks[start + 1..end]);
      assert blocks[start].header.previousHash == PreviousHash(c, blocks[..start]);
    }
  }

  lemma {:induction false} SummariesJoin(c: Crypto, blocks: seq<Block>, a: nat, k: nat, e: nat)
    requires a <= k <= e <= |blocks|
    ensures Summaries(c, blocks[a..k]) + Summaries(c, blocks[k..e]) == Summaries(c, blocks[a..e])
  {
    hide Summary;
  }

  /** The branch while headers up to height `k` exclusive have been received. */
  ghost function HeaderBranch(c: Crypto, remote: Hello, theirs: seq<Block>, a: u64, direct: bool, k: nat): Branch
    requires a < k <= |theirs|
  {
    Branch(remote, a, direct, k, false, Summaries(c, theirs[a + 1..k]), [])
  }

  ghost function VerifiedBranch(c: Crypto, remote: Hello, theirs: seq<Block>, a: u64, direct: bool, k: nat): Branch
    requires a < k <= |theirs|
  {
    Branch(remote, a, direct, k, true, Summaries(c, theirs[a + 1..]), if direct then [] else theirs[a + 1..k])
  }

  /** Everything the phases after discovery rely on. */
  ghost predicate Fetching(c: Crypto, now: u64, cfg: Config, s: Syncer, theirs: Node, a: u64) {
    && Honest(c, now, s.node, theirs)
    && a < |s.node.canonical| && a + 1 < |theirs.canonical|
    && s.node.canonical[..a + 1] == theirs.canonical[..a + 1]
    && s.target == Some(HelloOf(c, cfg, theirs.canonical, CumulativeWork(theirs.canonical).value))
    && (s.resume.Some? ==> s.resume.value <= a + 1 || s.resume.value > |theirs.canonical| - 1)
  }

  ghost function Remote(c: Crypto, cfg: Config, theirs: Node): Hello
    requires theirs.canonical != [] && |theirs.canonical| <= U64_MAX + 1 && CumulativeWork(theirs.canonical).Ok?
  {
    HelloOf(c, cfg, theirs.canonical, CumulativeWork(theirs.canonical).value)
  }

  lemma {:induction false} HeadersCheckOut(
    c: Crypto, now: u64, s: Syncer, theirs: Node, branch: Branch, a: u64, k: nat, e: nat)
    requires Honest(c, now, s.node, theirs) && a < |s.node.canonical| && a + 1 <= k < e <= |theirs.canonical|
    requires s.node.canonical[..a + 1] == theirs.canonical[..a + 1]
    requires branch.ancestor == a && branch.headers == Summaries(c, theirs.canonical[a + 1..k])
    ensures CheckHeaderChain(c, s.node, branch, Summaries(c, theirs.canonical[k..e])).Ok?
  {
    hide NodeInvariant, Valid, BlockHash, CumulativeWork, CheckHeaderLinks, CheckStructure, MoreWork;
    var th := theirs.canonical;
    ValidStructure(c, now, s.node.network, th);
    LinksHold(c, th, k, e);
    assert s.node.canonical[a] == s.node.canonical[..a + 1][a] == th[..a + 1][a] == th[a];
    if k > a + 1 {
      assert Last(branch.headers) == Summary(c, th[k - 1]);
    }
  }

  lemma {:induction false} HeadersServed(c: Crypto, now: u64, cfg: Config, ours: Node, theirs: Node, k: u64)
    requires Honest(c, now, ours, theirs) && LocalHello(c, cfg, ours).Ok? && k <= |theirs.canonical|
    ensures LocalHello(c, cfg, theirs).Ok?
    ensures HandleRequest(c, cfg, theirs, AskHeaders(LocalHello(c, cfg, ours).value, k, MAX_SYNC_HEADERS)) ==
            HeadersReply(LocalHello(c, cfg, theirs).value,
                Summaries(c, theirs.canonical[k..EndOf(k, MAX_SYNC_HEADERS, |theirs.canonical|)]))
  {
    hide NodeInvariant, Valid, BlockHash, CumulativeWork, LocalHello, HandleRequest, FromHeight, Summary;
    PeerAnswers(c, now, cfg, ours, theirs, AskHeaders(LocalHello(c, cfg, ours).value, k, MAX_SYNC_HEADERS));
    ValidStructure(c, now, ours.network, theirs.canonical);
    Chunk(theirs.canonical, k, MAX_SYNC_HEADERS);
  }

  lemma {:induction false} HeadersHandled(
    c: Crypto, cfg: Config, s: Syncer, peer: PeerId, remote: Hello, local: Hello, th: seq<Block>, a: u64,
    direct: bool, k: nat, e: nat)
    requires LocalHello(c, cfg, s.node) == Ok(local) && Heights(th) && a + 1 <= k < e <= |th| <= U64_MAX
    requires peer in s.branches && s.branches[peer] == HeaderBranch(c, remote, th, a, direct, k)
    requires remote.bestHeight == |th| - 1 && remote.bestHash == Hex(BlockHash(c, Last(th)))
    requires s.resume.Some? ==> s.resume.value <= a + 1 || s.resume.value > |th| - 1
    requires CheckHeaderChain(c, s.node, s.branches[peer], Summaries(c, th[k..e])).Ok?
    ensures OnHeaders(c, cfg, s, peer, remote, Summaries(c, th[k..e])) ==
            if e < |th| then
              Handled(s.(branches := s.branches[peer := HeaderBranch(c, remote, th, a, direct, e)]),
                  Some(AskHeaders(local, e, MAX_SYNC_HEADERS)), Ok(()))
            else
              Handled(s.(branches := s.branches[peer := VerifiedBranch(c, remote, th, a, direct, a + 1)]),
                  Some(AskBlocks(local, a + 1, MAX_SYNC_BLOCKS)), Ok(()))
  {
    hide BlockHash, LocalHello, CheckHeaderChain, Summaries, OnHeaders, HeaderBranch, VerifiedBranch;
    var branch, headers := s.branches[peer], Summaries(c, th[k..e]);
    LastSummary(c, th, a + 1, e);
    BranchGrows(c, remote, th, a, direct, k, e);
    if e < |th| {
      MoreHeaders(c, cfg, s, peer, remote, local, branch, headers, e);
    } else {
      AllHeaders(c, cfg, s, peer, remote, local, branch, headers);
    }
  }

  /** The branch record before and after one batch of headers. */
  lemma {:induction false} BranchGrows(c: Crypto, remote: Hello, th: seq<Block>, a: u64, direct: bool, k: nat, e: nat)
    requires a + 1 <= k < e <= |th|
    ensures var branch, headers := HeaderBranch(c, remote, th, a, direct, k), Summaries(c, th[k..e]);
            && branch.remote == remote && branch.ancestor == a
            && branch.headers + headers == Summaries(c, th[a + 1..e])
            && branch.(headers := branch.headers + headers, next := e) == HeaderBranch(c, remote, th, a, direct, e)
            && (e == |th| ==> branch.(headers := branch.headers + headers, verified := true, next := a + 1) ==
                              VerifiedBranch(c, remote, th, a, direct, a + 1))
  {
    hide Summaries;
    SummariesJoin(c, th, a + 1, k, e);
    if e == |th| {
      assert th[a + 1..|th|] == th[a + 1..];
      assert th[a + 1..a + 1] == [];
    }
  }

  lemma {:induction false} MoreHeaders(
    c: Crypto, cfg: Config, s: Syncer, peer: PeerId, remote: Hello, local: Hello, branch: Branch,
    headers: seq<HeaderSummary>, e: nat)
    requires LocalHello(c, cfg, s.node) == Ok(local) && peer in s.branches && s.branches[peer] == branch
    requires branch.remote == remote
    requires CheckHeaderChain(c, s.node, branch, headers).Ok? && branch.headers + headers != []
    requires Last(branch.headers + headers).height == e - 1 < remote.bestHeight
    ensures OnHeaders(c, cfg, s, peer, remote, headers) ==
            Handled(s.(branches := s.branches[peer := branch.(headers := branch.headers + headers, next := e)]),
                Some(AskHeaders(local, e, MAX_SYNC_HEADERS)), Ok(()))
  {
    hide LocalHello, CheckHeaderChain;
  }

  lemma {:induction false} AllHeaders(
    c: Crypto, cfg: Config, s: Syncer, peer: PeerId, remote: Hello, local: Hello, branch: Branch,
    headers: seq<HeaderSummary>)
    requires LocalHello(c, cfg, s.node) == Ok(local) && peer in s.branches && s.branches[peer] == branch
    requires branch.remote == remote
    requires CheckHeaderChain(c, s.node, branch, headers).Ok? && branch.headers + headers != []
    requires Last(branch.headers + headers).height == remote.bestHeight
    requires Last(branch.headers + headers).hash == remote.bestHash
    requires branch.ancestor < U64_MAX
    requires s.resume.Some? ==> s.resume.value <= branch.ancestor + 1 || s.resume.value > remote.bestHeight
    ensures var next := branch.ancestor + 1;
            var ready := branch.(headers := branch.headers + headers, verified := true, next := next);
            OnHeaders(c, cfg, s, peer, remote, headers) ==
            Handled(s.(branches := s.branches[peer := ready]), Some(AskBlocks(local, next, MAX_SYNC_BLOCKS)), Ok(()))
  {
    hide LocalHello, CheckHeaderChain;
  }

  /** One header round: 512 more headers, or the switch to bodies. */
  lemma {:induction false} HeaderRound(
    c: Crypto, now: u64, t: u64, cfg: Config, s: Syncer, peer: PeerId, theirs: Node, a: u64, direct: bool, k: nat)
    requires Honest(c, now, s.node, theirs) && CumulativeWork(theirs.canonical).Ok? && LocalHello(c, cfg, s.node).Ok?
    requires Fetching(c, now, cfg, s, theirs, a) && a + 1 <= k < |theirs.canonical|
    requires peer in s.branches
    requires s.branches[peer] == HeaderBranch(c, Remote(c, cfg, theirs), theirs.canonical, a, direct, k)
    ensures var e := EndOf(k, MAX_SYNC_HEADERS, |theirs.canonical|);
            var remote, local := Remote(c, cfg, theirs), LocalHello(c, cfg, s.node).value;
            Round(c, t, cfg, theirs, s, peer, AskHeaders(local, k, MAX_SYNC_HEADERS)) ==
            if e < |theirs.canonical| then
              Handled(s.(branches := s.branches[peer := HeaderBranch(c, remote, theirs.canonical, a, direct, e)]),
                      Some(AskHeaders(local, e, MAX_SYNC_HEADERS)), Ok(()))
            else
              Handled(s.(branches := s.branches[peer := VerifiedBranch(c, remote, theirs.canonical, a, direct, a + 1)]),
                      Some(AskBlocks(local, a + 1, MAX_SYNC_BLOCKS)), Ok(()))
  {
    hide NodeInvariant, Valid, BlockHash, LoadBlocks, CumulativeWork, CheckHello, LocalHello, HandleRequest,
         CheckHeaderChain, Summaries, OnHeaders, OnBlocks, OnAncestor, OnHello, HeaderBranch, VerifiedBranch;
    var th := theirs.canonical;
    var e := EndOf(k, MAX_SYNC_HEADERS, |th|);
    HelloIs(c, now, cfg, theirs);
    ValidStructure(c, now, s.node.network, th);
    GreetingAccepted(c, now, cfg, s.node, theirs);
    HeadersServed(c, now, cfg, s.node, theirs, k);
    HeaderBranchFields(c, Remote(c, cfg, theirs), th, a, direct, k);
    HeadersCheckOut(c, now, s, theirs, s.branches[peer], a, k, e);
    HeadersHandled(c, cfg, s, peer, Remote(c, cfg, theirs), LocalHello(c, cfg, s.node).value, th, a, direct, k, e);
  }

  lemma {:induction false} HeaderBranchFields(c: Crypto, remote: Hello, th: seq<Block>, a: u64, direct: bool, k: nat)
    requires a < k <= |th|
    ensures HeaderBranch(c, remote, th, a, direct, k).ancestor == a
    ensures HeaderBranch(c, remote, th, a, direct, k).headers == Summaries(c, th[a + 1..k])
  {
  }

  lemma {:induction false} LastSummary(c: Crypto, blocks: seq<Block>, a: nat, e: nat)
    requires a < e <= |blocks| && Heights(blocks)
    ensures var h := Last(Summaries(c, blocks[a..e])); h.height == e - 1 && h.hash == Hex(BlockHash(c, blocks[e - 1]))
  {
    hide BlockHash;
  }

  // ----- bodies that extend our tip

  lemma {:induction false} ExtendOk(c: Crypto, now: u64, t: u64, n: Node, th: seq<Block>, k: nat)
    requires Valid(c, now, n.network, th) && now <= t && |th| <= I64_MAX + 1
    requires 0 < k < |th| && n.canonical == th[..k]
    ensures SubmitMinedBlock(c, t, n, th[k]).Ok?
    ensures SubmitMinedBlock(c, t, n, th[k]).value.canonical == th[..k + 1]
  {
    hide FromBlocks, AppendBlock, BlockHash, CheckStructure, CanInsert, Unmined;
    LaterClock(c, now, t, n.network, th);
    ValidPrefix(c, t, n.network, th, k);
    ValidPrefix(c, t, n.network, th, k + 1);
    ValidStructure(c, t, n.network, th[..k]);
    assert th[..k] + [th[k]] == th[..k + 1];
    AppendedIsValid(c, t, n.network, th[..k], th[k]);
    TipHeader(c, t, n.network, th[..k]);
    AppendFits(c, t, n.network, th[..k], th[k]);
  }

  lemma {:induction false} SubmitAllOk(c: Crypto, now: u64, t: u64, n: Node, th: seq<Block>, k: nat, e: nat)
    requires NodeInvariant(c, n) && Valid(c, now, n.network, th) && now <= t && |th| <= I64_MAX + 1
    requires 0 < k <= e <= |th| && n.canonical == th[..k]
    ensures var run := SubmitAll(c, t, n, th[k..e]);
            run.result.Ok? && run.node.canonical == th[..e] && NodeInvariant(c, run.node) &&
                run.node.network == n.network
    decreases e
  {
    hide NodeInvariant, Valid, SubmitMinedBlock;
    if k < e {
      SubmitAllOk(c, now, t, n, th, k, e - 1);
      assert DropLast(th[k..e]) == th[k..e - 1] && Last(th[k..e]) == th[e - 1];
      var before := SubmitAll(c, t, n, th[k..e - 1]).node;
      ExtendOk(c, now, t, before, th, e - 1);
      MinedBlockKeeps(c, t, before, th[e - 1]);
      MinedBlockSettings(c, t, before, th[e - 1]);
    }
  }

  lemma {:induction false} BodiesServed(c: Crypto, now: u64, cfg: Config, ours: Node, theirs: Node, k: u64)
    requires Valid(c, now, ours.network, ours.canonical) && ours.canonical != [] && LocalHello(c, cfg, ours).Ok?
    requires Valid(c, now, theirs.network, theirs.canonical) && theirs.canonical != []
    requires theirs.canonical[0] == ours.canonical[0]
    requires k <= |theirs.canonical|
    ensures LocalHello(c, cfg, theirs).Ok?
    ensures HandleRequest(c, cfg, theirs, AskBlocks(LocalHello(c, cfg, ours).value, k, MAX_SYNC_BLOCKS)) ==
            BlocksReply(LocalHello(c, cfg, theirs).value,
                theirs.canonical[k..EndOf(k, MAX_SYNC_BLOCKS, |theirs.canonical|)])
  {
    hide Valid, BlockHash, CumulativeWork, LocalHello, HandleRequest, FromHeight;
    PeerAnswers(c, now, cfg, ours, theirs, AskBlocks(LocalHello(c, cfg, ours).value, k, MAX_SYNC_BLOCKS));
    ValidStructure(c, now, theirs.network, theirs.canonical);
    Chunk(theirs.canonical, k, MAX_SYNC_BLOCKS);
  }

  lemma {:induction false} BodiesMatch(c: Crypto, th: seq<Block>, a: nat, k: nat, e: nat, i: nat)
    requires Heights(th) && a < k <= e <= |th| && i < |th[k..e]|
    ensures MatchesHeader(c, Summaries(c, th[a + 1..]), th[k..e][i])
  {
    hide BlockHash;
    var headers := Summaries(c, th[a + 1..]);
    assert th[k..e][i] == th[k + i] == th[a + 1..][k + i - (a + 1)];
    assert headers[k + i - (a + 1)] == Summary(c, th[k + i]);
  }

  /** The checks in front of the two body paths pass for an honest chunk. */
  lemma {:induction false} BlocksPass(
    c: Crypto, t: u64, cfg: Config, s: Syncer, peer: PeerId, remote: Hello, th: seq<Block>, a: u64, direct: bool,
    k: nat, e: nat)
    requires Heights(th) && a < k < e <= |th| <= U64_MAX && remote.bestHeight == |th| - 1
    requires peer in s.branches && s.branches[peer] == VerifiedBranch(c, remote, th, a, direct, k)
    ensures OnBlocks(c, t, cfg, s, peer, remote, th[k..e]) ==
            if direct then OnDirectBlocks(c, t, cfg, s, peer, s.branches[peer], th[k..e])
            else OnStagedBlocks(c, t, cfg, s, peer, s.branches[peer], th[k..e])
  {
    hide MatchesHeader, OnDirectBlocks, OnStagedBlocks, Summaries;
    forall i | 0 <= i < |th[k..e]| ensures MatchesHeader(c, s.branches[peer].headers, th[k..e][i]) {
      BodiesMatch(c, th, a, k, e, i);
    }
    assert Last(th[k..e]) == th[e - 1];
  }

  ghost predicate Extending(c: Crypto, now: u64, cfg: Config, s: Syncer, peer: PeerId, theirs: Node, a: u64, k: nat) {
    && NodeInvariant(c, s.node) && s.node.network == theirs.network
    && theirs.canonical != [] && Valid(c, now, theirs.network, theirs.canonical) && |theirs.canonical| <= I64_MAX + 1
    && CumulativeWork(theirs.canonical).Ok?
    && a < k <= |theirs.canonical| && s.node.canonical == theirs.canonical[..k]
    && peer in s.branches && s.branches[peer] == VerifiedBranch(c, Remote(c, cfg, theirs), theirs.canonical, a, true, k)
  }

  lemma {:induction false} DirectHandled(
    c: Crypto, now: u64, t: u64, cfg: Config, s: Syncer, peer: PeerId, theirs: Node, a: u64, k: nat, e: nat)
    requires Extending(c, now, cfg, s, peer, theirs, a, k) && now <= t && k < e <= |theirs.canonical|
    ensures var h := OnDirectBlocks(c, t, cfg, s, peer, s.branches[peer], theirs.canonical[k..e]);
            && h.result.Ok? && h.state.node.canonical == theirs.canonical[..e]
            && (if e < |theirs.canonical| then
                  && Extending(c, now, cfg, h.state, peer, theirs, a, e)
                  && LocalHello(c, cfg, h.state.node).Ok?
                  && h.request == Some(AskBlocks(LocalHello(c, cfg, h.state.node).value, e, MAX_SYNC_BLOCKS))
                  && h.state.resume == Some(e)
                else h.request == None && peer !in h.state.branches && h.state.target.None? && h.state.resume.None?)
  {
    hide NodeInvariant, Valid, BlockHash, CumulativeWork, LocalHello, SubmitAll, Summaries, Linked, CheckStructure,
         MoreWork, LoadBlocks;
    var th := theirs.canonical;
    SubmitAllOk(c, now, t, s.node, th, k, e);
    var node := SubmitAll(c, t, s.node, th[k..e]).node;
    ValidPrefix(c, now, theirs.network, th, e);
    HelloIs(c, now, cfg, node);
    ValidStructure(c, now, theirs.network, th);
    assert Last(th[k..e]) == th[e - 1];
    assert Last(th[..e]) == th[e - 1];
    if e == |th| {
      assert th[..e] == th;
    }
  }

  lemma {:induction false} DirectRound(
    c: Crypto, now: u64, t: u64, cfg: Config, s: Syncer, peer: PeerId, theirs: Node, a: u64, k: nat)
    requires Extending(c, now, cfg, s, peer, theirs, a, k) && now <= t && k < |theirs.canonical|
    requires LocalHello(c, cfg, s.node).Ok?
    ensures var e := EndOf(k, MAX_SYNC_BLOCKS, |theirs.canonical|);
            Round(c, t, cfg, theirs, s, peer, AskBlocks(LocalHello(c, cfg, s.node).value, k, MAX_SYNC_BLOCKS)) ==
            OnDirectBlocks(c, t, cfg, s, peer, s.branches[peer], theirs.canonical[k..e])
  {
    hide NodeInvariant, Valid, BlockHash, CumulativeWork, LocalHello, CheckHello, HandleRequest, OnDirectBlocks,
         OnBlocks, OnHeaders, OnAncestor, OnHello, Summaries;
    var th := theirs.canonical;
    ValidPrefix(c, now, theirs.network, th, k);
    assert th[..k][0] == th[0];
    HelloIs(c, now, cfg, theirs);
    ValidStructure(c, now, theirs.network, th);
    BodiesServed(c, now, cfg, s.node, theirs, k);
    GreetingAccepted(c, now, cfg, s.node, theirs);
    BlocksPass(c, t, cfg, s, peer, Remote(c, cfg, theirs), th, a, true, k, EndOf(k, MAX_SYNC_BLOCKS, |th|));
  }

  /** How many rounds of `per` items fetch `items`. */
  ghost function Rounds(items: nat, per: nat): nat
    requires per > 0
  {
    if items == 0 then 0 else 1 + (if items <= per then 0 else Rounds(items - per, per))
  }

  lemma {:induction false} RoundsIsCeiling(items: nat, per: nat)
    requires per > 0
    ensures Rounds(items, per) == (items + per - 1) / per
    decreases items
  {
    if items > per {
      RoundsIsCeiling(items - per, per);
      var q := Rounds(items - per, per);
      var n := items - 1;
      assert n == n / per * per + n % per;
      QuotientUnique(items + per - 1, per, n / per + 1, n % per);
    } else if items > 0 {
      QuotientUnique(items + per - 1, per, 1, items - 1);
    } else {
      QuotientUnique(per - 1, per, 0, per - 1);
    }
  }

  ghost predicate Clocked(clock: nat -> u64, now: u64) { forall i :: clock(i) >= now }

  lemma {:induction false} OneRound(
    c: Crypto, clock: nat -> u64, cfg: Config, theirs: Node, s: Syncer, peer: PeerId, request: Request, rounds: nat)
    requires rounds > 0
    ensures var h := Round(c, clock(rounds), cfg, theirs, s, peer, request);
            Exchange(c, clock, cfg, theirs, s, peer, Some(request), rounds) ==
            if h.result.Err? then h else Exchange(c, clock, cfg, theirs, h.state, peer, h.request, rounds - 1)
  {
    hide Round;
  }

  lemma {:induction false} NoRequest(
    c: Crypto, clock: nat -> u64, cfg: Config, theirs: Node, s: Syncer, peer: PeerId, rounds: nat)
    ensures Exchange(c, clock, cfg, theirs, s, peer, None, rounds) == Done(s)
  {
    hide Round;
  }

  /** Neither the chain nor the durable resume height has moved. */
  ghost predicate Stalled(h: Handled, s: Syncer) {
    h.state.node == s.node && h.state.resume == s.resume
  }

  ghost predicate Synced(h: Handled, peer: PeerId, theirs: Node) {
    h.result.Ok? && h.request.None? && h.state.node.canonical == theirs.canonical
    && peer !in h.state.branches && h.state.target.None? && h.state.resume.None?
  }

  lemma {:induction false} DirectPhase(
    c: Crypto, now: u64, clock: nat -> u64, cfg: Config, s: Syncer, peer: PeerId, theirs: Node, a: u64, k: nat,
    rounds: nat)
    requires Extending(c, now, cfg, s, peer, theirs, a, k) && Clocked(clock, now) && LocalHello(c, cfg, s.node).Ok?
    requires k < |theirs.canonical| && rounds >= Rounds(|theirs.canonical| - k, MAX_SYNC_BLOCKS)
    ensures var request := AskBlocks(LocalHello(c, cfg, s.node).value, k, MAX_SYNC_BLOCKS);
            Synced(Exchange(c, clock, cfg, theirs, s, peer, Some(request), rounds), peer, theirs)
    decreases |theirs.canonical| - k
  {
    hide Extending, LocalHello, Round, Exchange, OnDirectBlocks;
    var e := EndOf(k, MAX_SYNC_BLOCKS, |theirs.canonical|);
    ExtendingFields(c, now, cfg, s, peer, theirs, a, k);
    DirectRound(c, now, clock(rounds), cfg, s, peer, theirs, a, k);
    DirectHandled(c, now, clock(rounds), cfg, s, peer, theirs, a, k, e);
    OneRound(c, clock, cfg, theirs, s, peer, AskBlocks(LocalHello(c, cfg, s.node).value, k, MAX_SYNC_BLOCKS), rounds);
    var h := OnDirectBlocks(c, clock(rounds), cfg, s, peer, s.branches[peer], theirs.canonical[k..e]);
    if e < |theirs.canonical| {
      DirectPhase(c, now, clock, cfg, h.state, peer, theirs, a, e, rounds - 1);
    } else {
      NoRequest(c, clock, cfg, theirs, h.state, peer, rounds - 1);
    }
  }

  lemma {:induction false} ExtendingFields(
    c: Crypto, now: u64, cfg: Config, s: Syncer, peer: PeerId, theirs: Node, a: u64, k: nat)
    requires Extending(c, now, cfg, s, peer, theirs, a, k)
    ensures a < k && peer in s.branches && k <= U64_MAX
    ensures theirs.canonical[..|theirs.canonical|] == theirs.canonical
  {
    hide NodeInvariant, Valid;
  }

  // ----- bodies of a competing branch

  ghost predicate Staging(c: Crypto, now: u64, cfg: Config, s: Syncer, peer: PeerId, theirs: Node, a: u64, k: nat) {
    && Honest(c, now, s.node, theirs) && CumulativeWork(theirs.canonical).Ok?
    && a < |s.node.canonical| && a < k < |theirs.canonical|
    && s.node.canonical[..a + 1] == theirs.canonical[..a + 1]
    && peer in s.branches &&
        s.branches[peer] == VerifiedBranch(c, Remote(c, cfg, theirs), theirs.canonical, a, false, k)
  }

  lemma {:induction false} AdoptOk(c: Crypto, now: u64, t: u64, ours: Node, theirs: Node)
    requires Honest(c, now, ours, theirs) && now <= t
    ensures var adopted := AdoptCandidateChain(c, t, ours, BlockHash(c, Last(ours.canonical)), theirs.canonical);
            adopted.result.Ok? && adopted.node.canonical == theirs.canonical
  {
    hide NodeInvariant, FromBlocks, BlockHash, CumulativeWork, CheckStructure, Archive, CheckInserts, Above,
         AdoptCandidateChain, CommonAncestorHeight;
    var o, th := ours.canonical, theirs.canonical;
    LaterClock(c, now, t, ours.network, o);
    LaterClock(c, now, t, ours.network, th);
    ValidStructure(c, now, ours.network, o);
    CommonAncestorIsForkPoint(c, t, ours.network, o, ours.network, th);
    assert th[..|th|] == th;
    InsertsOk(c, now, ours.network, th, |th|);
    assert ReplaceValidated(c, t, ours, BlockHash(c, Last(o)), th).Ok?;
    AdoptKeeps(c, t, ours, BlockHash(c, Last(o)), th);
  }

  lemma {:induction false} StagedIsPrefix(
    c: Crypto, cfg: Config, s: Syncer, theirs: Node, branch: Branch, a: u64, e: nat)
    requires a < |s.node.canonical| && a < e <= |theirs.canonical|
    requires s.node.canonical[..a + 1] == theirs.canonical[..a + 1]
    requires branch.ancestor == a && branch.blocks == theirs.canonical[a + 1..e]
    ensures StagedCandidate(s.node, branch) == theirs.canonical[..e]
  {
  }

  ghost function Staged(branch: Branch, blocks: seq<Block>): Branch
    requires blocks != []
  {
    branch.(next := Last(blocks).header.height + 1, blocks := branch.blocks + blocks)
  }

  lemma {:induction false} MoreBodies(
    c: Crypto, t: u64, cfg: Config, s: Syncer, peer: PeerId, branch: Branch, blocks: seq<Block>,
    candidate: seq<Block>, local: Hello)
    requires blocks != [] && candidate != [] && |branch.blocks| + |blocks| <= MAX_STAGED_BLOCKS
    requires StagedCandidate(s.node, Staged(branch, blocks)) == candidate
    requires FromBlocks(c, t, s.node.network, candidate).Ok?
    requires Last(candidate).header.height < branch.remote.bestHeight && Last(blocks).header.height < U64_MAX
    requires LocalHello(c, cfg, s.node) == Ok(local)
    ensures OnStagedBlocks(c, t, cfg, s, peer, branch, blocks) ==
            Handled(s.(branches := s.branches[peer := Staged(branch, blocks)]),
                Some(AskBlocks(local, Last(blocks).header.height + 1, MAX_SYNC_BLOCKS)), Ok(()))
  {
    hide FromBlocks, LocalHello, StagedCandidate, CumulativeWork, AdoptCandidateChain;
  }

  lemma {:induction false} LastBodies(
    c: Crypto, t: u64, cfg: Config, s: Syncer, peer: PeerId, branch: Branch, blocks: seq<Block>,
    candidate: seq<Block>)
    requires blocks != [] && candidate != [] && |branch.blocks| + |blocks| <= MAX_STAGED_BLOCKS
    requires s.node.canonical != []
    requires StagedCandidate(s.node, Staged(branch, blocks)) == candidate
    requires FromBlocks(c, t, s.node.network, candidate).Ok?
    requires Last(candidate).header.height == branch.remote.bestHeight
    requires branch.remote.bestHash == Hex(BlockHash(c, Last(candidate)))
    requires CumulativeWork(candidate).Ok? && branch.remote.work == Decimal(CumulativeWork(candidate).value)
    requires AdoptCandidateChain(c, t, s.node, BlockHash(c, Last(s.node.canonical)), candidate).result.Ok?
    ensures var adopted := AdoptCandidateChain(c, t, s.node, BlockHash(c, Last(s.node.canonical)), candidate);
            OnStagedBlocks(c, t, cfg, s, peer, branch, blocks) ==
            Done(Syncer(adopted.node, s.branches - {peer}, None, None))
  {
    hide FromBlocks, LocalHello, StagedCandidate, CumulativeWork, AdoptCandidateChain, BlockHash;
  }

  lemma {:induction false} SliceJoin<T>(s: seq<T>, a: nat, k: nat, e: nat)
    requires a <= k <= e <= |s|
    ensures s[a..k] + s[k..e] == s[a..e]
  {
  }

  lemma {:induction false} StagedShape(
    c: Crypto, cfg: Config, s: Syncer, remote: Hello, theirs: Node, branch: Branch, a: u64, k: nat, e: nat)
    requires a < |s.node.canonical| && a < k < e <= |theirs.canonical| && Heights(theirs.canonical)
    requires s.node.canonical[..a + 1] == theirs.canonical[..a + 1]
    requires branch == VerifiedBranch(c, remote, theirs.canonical, a, false, k)
    ensures var th, blocks := theirs.canonical, theirs.canonical[k..e];
            && Last(blocks).header.height == e - 1
            && Staged(branch, blocks) == VerifiedBranch(c, remote, th, a, false, e)
            && Staged(branch, blocks).ancestor == a && Staged(branch, blocks).blocks == th[a + 1..e]
            && |branch.blocks| + |blocks| == e - (a + 1)
  {
    hide Summaries, StagedCandidate;
    var th := theirs.canonical;
    SliceJoin(th, a + 1, k, e);
    assert Last(th[k..e]) == th[e - 1];
  }

  lemma {:induction false} StagedFacts(
    c: Crypto, now: u64, t: u64, cfg: Config, s: Syncer, peer: PeerId, theirs: Node, a: u64, k: nat, e: nat)
    requires Staging(c, now, cfg, s, peer, theirs, a, k) && now <= t && k < e <= |theirs.canonical|
    ensures var th, blocks := theirs.canonical, theirs.canonical[k..e];
            && Staged(s.branches[peer], blocks) == VerifiedBranch(c, Remote(c, cfg, theirs), th, a, false, e)
            && StagedCandidate(s.node, Staged(s.branches[peer], blocks)) == th[..e]
            && FromBlocks(c, t, s.node.network, th[..e]).Ok?
            && Last(th[..e]).header.height == e - 1 && Last(blocks).header.height == e - 1
            && |s.branches[peer].blocks| + |blocks| == e - (a + 1)
  {
    hide NodeInvariant, FromBlocks, BlockHash, CumulativeWork, StagedCandidate, Staged, VerifiedBranch, HelloOf,
         MoreWork, Linked, CheckStructure;
    var th, branch, blocks := theirs.canonical, s.branches[peer], theirs.canonical[k..e];
    ValidStructure(c, now, s.node.network, th);
    StagedShape(c, cfg, s, Remote(c, cfg, theirs), theirs, branch, a, k, e);
    assert Last(th[..e]) == th[e - 1];
    StagedIsPrefix(c, cfg, s, theirs, Staged(branch, blocks), a, e);
    LaterClock(c, now, t, s.node.network, th);
    ValidPrefix(c, t, s.node.network, th, e);
  }

  lemma {:induction false} StagedContinues(
    c: Crypto, now: u64, t: u64, cfg: Config, s: Syncer, peer: PeerId, theirs: Node, a: u64, k: nat, e: nat)
    requires Staging(c, now, cfg, s, peer, theirs, a, k) && now <= t && k < e < |theirs.canonical|
    requires LocalHello(c, cfg, s.node).Ok?
    requires e - (a + 1) <= MAX_STAGED_BLOCKS
    ensures var h := OnStagedBlocks(c, t, cfg, s, peer, s.branches[peer], theirs.canonical[k..e]);
            && h.result.Ok? && Stalled(h, s)
            && Staging(c, now, cfg, h.state, peer, theirs, a, e)
            && h.request == Some(AskBlocks(LocalHello(c, cfg, s.node).value, e, MAX_SYNC_BLOCKS))
  {
    hide NodeInvariant, FromBlocks, BlockHash, CumulativeWork, LocalHello, StagedCandidate, OnStagedBlocks, Staged,
         VerifiedBranch;
    StagedFacts(c, now, t, cfg, s, peer, theirs, a, k, e);
    VerifiedRemote(c, Remote(c, cfg, theirs), theirs.canonical, a, k);
    MoreBodies(c, t, cfg, s, peer, s.branches[peer], theirs.canonical[k..e], theirs.canonical[..e],
        LocalHello(c, cfg, s.node).value);
  }

  lemma {:induction false} VerifiedRemote(c: Crypto, remote: Hello, th: seq<Block>, a: u64, k: nat)
    requires a < k <= |th|
    ensures VerifiedBranch(c, remote, th, a, false, k).remote == remote
  {
  }

  lemma {:induction false} StagedFinishes(
    c: Crypto, now: u64, t: u64, cfg: Config, s: Syncer, peer: PeerId, theirs: Node, a: u64, k: nat)
    requires Staging(c, now, cfg, s, peer, theirs, a, k) && now <= t
    requires |theirs.canonical| - (a + 1) <= MAX_STAGED_BLOCKS
    ensures Synced(OnStagedBlocks(c, t, cfg, s, peer, s.branches[peer], theirs.canonical[k..|theirs.canonical|]),
            peer, theirs)
  {
    hide NodeInvariant, FromBlocks, BlockHash, CumulativeWork, StagedCandidate, OnStagedBlocks, Staged,
         VerifiedBranch, AdoptCandidateChain;
    var th := theirs.canonical;
    StagedFacts(c, now, t, cfg, s, peer, theirs, a, k, |th|);
    VerifiedRemote(c, Remote(c, cfg, theirs), th, a, k);
    assert th[..|th|] == th;
    AdoptOk(c, now, t, s.node, theirs);
    LastBodies(c, t, cfg, s, peer, s.branches[peer], th[k..|th|], th);
  }

  lemma {:induction false} StagedHandled(
    c: Crypto, now: u64, t: u64, cfg: Config, s: Syncer, peer: PeerId, theirs: Node, a: u64, k: nat, e: nat)
    requires Staging(c, now, cfg, s, peer, theirs, a, k) && now <= t && k < e <= |theirs.canonical|
    requires LocalHello(c, cfg, s.node).Ok?
    ensures var h := OnStagedBlocks(c, t, cfg, s, peer, s.branches[peer], theirs.canonical[k..e]);
            if e - (a + 1) > MAX_STAGED_BLOCKS then h.result.Err? && h.state == s
            else if e < |theirs.canonical| then
              && h.result.Ok? && Stalled(h, s)
              && Staging(c, now, cfg, h.state, peer, theirs, a, e)
              && h.request == Some(AskBlocks(LocalHello(c, cfg, s.node).value, e, MAX_SYNC_BLOCKS))
            else Synced(h, peer, theirs)
  {
    hide Staging, LocalHello, OnStagedBlocks, Synced;
    StagingFields(c, now, cfg, s, peer, theirs, a, k);
    if e - (a + 1) > MAX_STAGED_BLOCKS {
      StagedFacts(c, now, t, cfg, s, peer, theirs, a, k, e);
      TooManyBodies(c, t, cfg, s, peer, s.branches[peer], theirs.canonical[k..e]);
    } else if e < |theirs.canonical| {
      StagedContinues(c, now, t, cfg, s, peer, theirs, a, k, e);
    } else {
      StagedFinishes(c, now, t, cfg, s, peer, theirs, a, k);
    }
  }

  lemma {:induction false} TooManyBodies(
    c: Crypto, t: u64, cfg: Config, s: Syncer, peer: PeerId, branch: Branch, blocks: seq<Block>)
    requires blocks != [] && |branch.blocks| + |blocks| > MAX_STAGED_BLOCKS
    ensures OnStagedBlocks(c, t, cfg, s, peer, branch, blocks) == Refused(s, P2pProtocol)
  {
    hide FromBlocks, LocalHello, StagedCandidate, CumulativeWork, AdoptCandidateChain;
  }

  lemma {:induction false} StagedRound(
    c: Crypto, now: u64, t: u64, cfg: Config, s: Syncer, peer: PeerId, theirs: Node, a: u64, k: nat)
    requires Staging(c, now, cfg, s, peer, theirs, a, k) && now <= t && LocalHello(c, cfg, s.node).Ok?
    ensures var e := EndOf(k, MAX_SYNC_BLOCKS, |theirs.canonical|);
            Round(c, t, cfg, theirs, s, peer, AskBlocks(LocalHello(c, cfg, s.node).value, k, MAX_SYNC_BLOCKS)) ==
            OnStagedBlocks(c, t, cfg, s, peer, s.branches[peer], theirs.canonical[k..e])
  {
    hide NodeInvariant, Valid, BlockHash, CumulativeWork, LocalHello, CheckHello, HandleRequest, OnStagedBlocks,
         OnBlocks, OnHeaders, OnAncestor, OnHello, Summaries;
    var th := theirs.canonical;
    HelloIs(c, now, cfg, theirs);
    ValidStructure(c, now, theirs.network, th);
    BodiesServed(c, now, cfg, s.node, theirs, k);
    GreetingAccepted(c, now, cfg, s.node, theirs);
    BlocksPass(c, t, cfg, s, peer, Remote(c, cfg, theirs), th, a, false, k, EndOf(k, MAX_SYNC_BLOCKS, |th|));
  }

  /** A branch of at most 2048 blocks is staged and adopted; a longer one never is. */
  lemma {:induction false} StagedPhase(
    c: Crypto, now: u64, clock: nat -> u64, cfg: Config, s: Syncer, peer: PeerId, theirs: Node, a: u64, k: nat,
    rounds: nat)
    requires Staging(c, now, cfg, s, peer, theirs, a, k) && Clocked(clock, now) && LocalHello(c, cfg, s.node).Ok?
    ensures var h := Exchange(c, clock, cfg, theirs, s, peer,
            Some(AskBlocks(LocalHello(c, cfg, s.node).value, k, MAX_SYNC_BLOCKS)), rounds);
            if |theirs.canonical| - (a + 1) > MAX_STAGED_BLOCKS then Stalled(h, s)
            else rounds >= Rounds(|theirs.canonical| - k, MAX_SYNC_BLOCKS) ==> Synced(h, peer, theirs)
    decreases |theirs.canonical| - k
  {
    hide Staging, LocalHello, Round, Exchange, OnStagedBlocks;
    var e, request := EndOf(k, MAX_SYNC_BLOCKS, |theirs.canonical|), LocalHello(c, cfg, s.node).value;
    StagingFields(c, now, cfg, s, peer, theirs, a, k);
    if rounds == 0 {
      NoRounds(c, clock, cfg, theirs, s, peer, Some(AskBlocks(request, k, MAX_SYNC_BLOCKS)));
    } else {
      StagedRound(c, now, clock(rounds), cfg, s, peer, theirs, a, k);
      StagedHandled(c, now, clock(rounds), cfg, s, peer, theirs, a, k, e);
      OneRound(c, clock, cfg, theirs, s, peer, AskBlocks(request, k, MAX_SYNC_BLOCKS), rounds);
      var h := OnStagedBlocks(c, clock(rounds), cfg, s, peer, s.branches[peer], theirs.canonical[k..e]);
      if e - (a + 1) <= MAX_STAGED_BLOCKS {
        if e < |theirs.canonical| {
          StagedPhase(c, now, clock, cfg, h.state, peer, theirs, a, e, rounds - 1);
        } else {
          NoRequest(c, clock, cfg, theirs, h.state, peer, rounds - 1);
        }
      }
    }
  }

  lemma {:induction false} StagingFields(
    c: Crypto, now: u64, cfg: Config, s: Syncer, peer: PeerId, theirs: Node, a: u64, k: nat)
    requires Staging(c, now, cfg, s, peer, theirs, a, k)
    ensures a < k < |theirs.canonical| <= U64_MAX && peer in s.branches
    ensures theirs.canonical[..|theirs.canonical|] == theirs.canonical
  {
    hide NodeInvariant, Valid;
  }

  lemma {:induction false} NoRounds(
    c: Crypto, clock: nat -> u64, cfg: Config, theirs: Node, s: Syncer, peer: PeerId, request: Option<Request>)
    ensures Exchange(c, clock, cfg, theirs, s, peer, request, 0) == Handled(s, request, Ok(()))
  {
    hide Round;
  }

  // ----- the whole exchange

  lemma {:induction false} HeaderPhase(
    c: Crypto, now: u64, clock: nat -> u64, cfg: Config, s: Syncer, peer: PeerId, theirs: Node, a: u64,
    direct: bool, k: nat, rounds: nat)
    requires Honest(c, now, s.node, theirs) && CumulativeWork(theirs.canonical).Ok?
    requires LocalHello(c, cfg, s.node).Ok? && Clocked(clock, now)
    requires Fetching(c, now, cfg, s, theirs, a) && a + 1 <= k < |theirs.canonical|
    requires peer in s.branches
    requires s.branches[peer] == HeaderBranch(c, Remote(c, cfg, theirs), theirs.canonical, a, direct, k)
    requires rounds >= Rounds(|theirs.canonical| - k, MAX_SYNC_HEADERS)
    ensures var local := LocalHello(c, cfg, s.node).value;
            var ready := VerifiedBranch(c, Remote(c, cfg, theirs), theirs.canonical, a, direct, a + 1);
            Exchange(c, clock, cfg, theirs, s, peer, Some(AskHeaders(local, k, MAX_SYNC_HEADERS)), rounds) ==
            Exchange(c, clock, cfg, theirs, s.(branches := s.branches[peer := ready]), peer,
                     Some(AskBlocks(local, a + 1, MAX_SYNC_BLOCKS)),
                     rounds - Rounds(|theirs.canonical| - k, MAX_SYNC_HEADERS))
    decreases |theirs.canonical| - k
  {
    hide NodeInvariant, Valid, LocalHello, Round, Exchange, HeaderBranch, VerifiedBranch, BlockHash, CumulativeWork;
    var local, remote, th := LocalHello(c, cfg, s.node).value, Remote(c, cfg, theirs), theirs.canonical;
    var e := EndOf(k, MAX_SYNC_HEADERS, |th|);
    HeaderRound(c, now, clock(rounds), cfg, s, peer, theirs, a, direct, k);
    OneRound(c, clock, cfg, theirs, s, peer, AskHeaders(local, k, MAX_SYNC_HEADERS), rounds);
    if e < |th| {
      var next := s.(branches := s.branches[peer := HeaderBranch(c, remote, th, a, direct, e)]);
      HeaderPhase(c, now, clock, cfg, next, peer, theirs, a, direct, e, rounds - 1);
      assert next.branches[peer := VerifiedBranch(c, remote, th, a, direct, a + 1)] ==
          s.branches[peer := VerifiedBranch(c, remote, th, a, direct, a + 1)];
    }
  }

  /** Total rounds: greeting, discovery, headers by 512, bodies by 128. */
  ghost function TotalRounds(missing: nat): nat {
    2 + Rounds(missing, MAX_SYNC_HEADERS) + Rounds(missing, MAX_SYNC_BLOCKS)
  }

  /** Discovery: two rounds lead from the greeting to the first header request. */
  lemma {:induction false} Discovery(
    c: Crypto, now: u64, clock: nat -> u64, cfg: Config, s: Syncer, peer: PeerId, theirs: Node, rounds: nat)
    requires Honest(c, now, s.node, theirs) && rounds >= 2
    ensures LocalHello(c, cfg, s.node).Ok? && LocalHello(c, cfg, theirs).Ok? && Meeting(c, s.node, theirs).Some?
    ensures var a, remote, local := Meeting(c, s.node, theirs).value, LocalHello(c, cfg, theirs).value,
            LocalHello(c, cfg, s.node).value;
            var aimed := s.(target := Some(remote));
            var next := Resumed(aimed, remote, a + 1);
            var branch := Branch(remote, a, a == |s.node.canonical| - 1, next, false, [], []);
            && a + 1 <= next <= U64_MAX
            && Exchange(c, clock, cfg, theirs, s, peer, Some(AskHello(local)), rounds) ==
               Exchange(c, clock, cfg, theirs, aimed.(branches := s.branches[peer := branch]), peer,
                        Some(AskHeaders(local, next, MAX_SYNC_HEADERS)), rounds - 2)
  {
    hide NodeInvariant, Valid, LocalHello, Round, Exchange, BlockHash, CumulativeWork, Locator, FindAncestor;
    GreetingRound(c, now, clock(rounds), cfg, s, peer, theirs);
    var local, remote := LocalHello(c, cfg, s.node).value, LocalHello(c, cfg, theirs).value;
    OneRound(c, clock, cfg, theirs, s, peer, AskHello(local), rounds);
    var aimed := s.(target := Some(remote));
    AncestorRound(c, now, clock(rounds - 1), cfg, aimed, peer, theirs);
    OneRound(c, clock, cfg, theirs, aimed, peer, AskAncestor(local, Locator(c, s.node.canonical)), rounds - 1);
  }

  ghost predicate NoResumeAbove(s: Syncer, a: u64, theirs: Node) {
    s.resume.Some? ==> s.resume.value <= a + 1 || s.resume.value > |theirs.canonical| - 1
  }

  /** Headers and bodies, once discovery has settled on an ancestor. */
  lemma {:induction false} FetchPhases(
    c: Crypto, now: u64, clock: nat -> u64, cfg: Config, s: Syncer, peer: PeerId, theirs: Node, a: u64,
    direct: bool, rounds: nat)
    requires Honest(c, now, s.node, theirs) && CumulativeWork(theirs.canonical).Ok?
    requires LocalHello(c, cfg, s.node).Ok? && Clocked(clock, now)
    requires Fetching(c, now, cfg, s, theirs, a) && direct == (a == |s.node.canonical| - 1)
    requires peer in s.branches
    requires s.branches[peer] == HeaderBranch(c, Remote(c, cfg, theirs), theirs.canonical, a, direct, a + 1)
    requires rounds >= Rounds(|theirs.canonical| - (a + 1), MAX_SYNC_HEADERS)
    ensures var missing := |theirs.canonical| - (a + 1);
            var h := Exchange(c, clock, cfg, theirs, s, peer,
                Some(AskHeaders(LocalHello(c, cfg, s.node).value, a + 1, MAX_SYNC_HEADERS)), rounds);
            if !direct && missing > MAX_STAGED_BLOCKS then Stalled(h, s)
            else rounds >= Rounds(missing, MAX_SYNC_HEADERS) + Rounds(missing, MAX_SYNC_BLOCKS) ==>
                Synced(h, peer, theirs)
  {
    hide NodeInvariant, Valid, LocalHello, Exchange, HeaderBranch, BlockHash, CumulativeWork, Rounds;
    var missing, local := |theirs.canonical| - (a + 1), LocalHello(c, cfg, s.node).value;
    HeaderPhase(c, now, clock, cfg, s, peer, theirs, a, direct, a + 1, rounds);
    var branch := VerifiedBranch(c, Remote(c, cfg, theirs), theirs.canonical, a, direct, a + 1);
    var ready := s.(branches := s.branches[peer := branch]);
    var left := rounds - Rounds(missing, MAX_SYNC_HEADERS);
    if direct {
      assert s.node.canonical == s.node.canonical[..a + 1];
      if left >= Rounds(missing, MAX_SYNC_BLOCKS) {
        DirectPhase(c, now, clock, cfg, ready, peer, theirs, a, a + 1, left);
      }
    } else {
      StagedPhase(c, now, clock, cfg, ready, peer, theirs, a, a + 1, left);
    }
  }

  /** Against an honest peer with more work whose chain extends ours, or forks from the
      meeting point by at most 2048 blocks, and with no resume height above that point, the
      exchange completes within the stated number of rounds and ends on the peer's chain. */
  lemma {:induction false} SyncCompletes(
    c: Crypto, now: u64, clock: nat -> u64, cfg: Config, s: Syncer, peer: PeerId, theirs: Node)
    requires Honest(c, now, s.node, theirs) && Clocked(clock, now) && !CannotFollow(c, s, theirs)
    ensures LocalHello(c, cfg, s.node).Ok?
    ensures Meeting(c, s.node, theirs).Some? && Meeting(c, s.node, theirs).value < |theirs.canonical|
    ensures var missing := |theirs.canonical| - (Meeting(c, s.node, theirs).value + 1);
            var request := AskHello(LocalHello(c, cfg, s.node).value);
            Synced(Exchange(c, clock, cfg, theirs, s, peer, Some(request), TotalRounds(missing)), peer, theirs)
  {
    hide NodeInvariant, Valid, LocalHello, Exchange, BlockHash, CumulativeWork, Locator, FindAncestor, Rounds;
    MeetingIsShared(c, now, s.node, theirs);
    HelloIs(c, now, cfg, theirs);
    var a, th := Meeting(c, s.node, theirs).value, theirs.canonical;
    var missing := |th| - (a + 1);
    Discovery(c, now, clock, cfg, s, peer, theirs, TotalRounds(missing));
    var remote := Remote(c, cfg, theirs);
    var aimed := s.(target := Some(remote),
        branches := s.branches[peer := Branch(remote, a, a == |s.node.canonical| - 1, a + 1, false, [], [])]);
    assert aimed.branches[peer] == HeaderBranch(c, remote, th, a, a == |s.node.canonical| - 1,
        a + 1) by { assert th[a + 1..a + 1] == []; }
    FetchPhases(c, now, clock, cfg, aimed, peer, theirs, a, a == |s.node.canonical| - 1, TotalRounds(missing) - 2);
  }

  /** Whenever one of the two conditions fails, no number of rounds changes the chain: a
      resume height above the meeting point makes the first header reply look like a gap,
      and a branch of more than 2048 blocks exceeds the staging limit. */
  lemma {:induction false} SyncStalls(
    c: Crypto, now: u64, clock: nat -> u64, cfg: Config, s: Syncer, peer: PeerId, theirs: Node, rounds: nat)
    requires Honest(c, now, s.node, theirs) && Clocked(clock, now) && CannotFollow(c, s, theirs)
    ensures LocalHello(c, cfg, s.node).Ok?
    ensures var request := AskHello(LocalHello(c, cfg, s.node).value);
            Stalled(Exchange(c, clock, cfg, theirs, s, peer, Some(request), rounds), s)
  {
    hide NodeInvariant, Valid, LocalHello, Exchange, Round, BlockHash, CumulativeWork, Locator, FindAncestor, Rounds;
    MeetingIsShared(c, now, s.node, theirs);
    HelloIs(c, now, cfg, s.node);
    HelloIs(c, now, cfg, theirs);
    var a, th, local := Meeting(c, s.node, theirs).value, theirs.canonical, LocalHello(c, cfg, s.node).value;
    if rounds < 2 {
      EarlyRounds(c, now, clock, cfg, s, peer, theirs, rounds);
    } else {
      Discovery(c, now, clock, cfg, s, peer, theirs, rounds);
      var remote, direct := Remote(c, cfg, theirs), a == |s.node.canonical| - 1;
      var next := Resumed(s.(target := Some(remote)), remote, a + 1);
      var aimed := s.(target := Some(remote),
          branches := s.branches[peer := Branch(remote, a, direct, next, false, [], [])]);
      if !NoResumeAbove(s, a, theirs) {
        GapStops(c, now, clock, cfg, aimed, peer, theirs, a, next, rounds - 2);
      } else {
        assert aimed.branches[peer] == HeaderBranch(c, remote, th, a, direct,
            a + 1) by { assert th[a + 1..a + 1] == []; }
        FewHeaderRounds(c, now, clock, cfg, aimed, peer, theirs, a, direct, a + 1, rounds - 2);
        if rounds - 2 >= Rounds(|th| - (a + 1), MAX_SYNC_HEADERS) {
          FetchPhases(c, now, clock, cfg, aimed, peer, theirs, a, direct, rounds - 2);
        }
      }
    }
  }

  /** One attempt: a greeting and the rounds that follow it. */
  ghost function Attempt(
    c: Crypto, clock: nat -> u64, cfg: Config, theirs: Node, s: Syncer, peer: PeerId, rounds: nat): Syncer
  {
    match LocalHello(c, cfg, s.node)
    case Err(_) => s
    case Ok(local) => Exchange(c, clock, cfg, theirs, s, peer, Some(AskHello(local)), rounds).state
  }

  ghost function Attempts(
    c: Crypto, clock: nat -> u64, cfg: Config, theirs: Node, s: Syncer, peer: PeerId, rounds: seq<nat>): Syncer
  {
    if rounds == [] then s else
      Attempt(c, clock, cfg, theirs, Attempts(c, clock, cfg, theirs, s, peer, DropLast(rounds)), peer, Last(rounds))
  }

  /** The two ways in which an honest peer cannot be followed. */
  ghost predicate CannotFollow(c: Crypto, s: Syncer, theirs: Node) {
    && Meeting(c, s.node, theirs).Some? && Meeting(c, s.node, theirs).value < |theirs.canonical|
    && var a := Meeting(c, s.node, theirs).value;
       || !NoResumeAbove(s, a, theirs)
       || (a != |s.node.canonical| - 1 && |theirs.canonical| - (a + 1) > MAX_STAGED_BLOCKS)
  }

  /** A stall is permanent: greeting the same peer again, any number of times, stalls again. */
  lemma {:induction false} StallsForever(
    c: Crypto, now: u64, clock: nat -> u64, cfg: Config, s: Syncer, peer: PeerId, theirs: Node, rounds: seq<nat>)
    requires Honest(c, now, s.node, theirs) && Clocked(clock, now) && CannotFollow(c, s, theirs)
    ensures var end := Attempts(c, clock, cfg, theirs, s, peer, rounds);
            end.node == s.node && end.resume == s.resume
    decreases |rounds|
  {
    hide Honest, LocalHello, Exchange, Meeting;
    if rounds != [] {
      StallsForever(c, now, clock, cfg, s, peer, theirs, DropLast(rounds));
      var before := Attempts(c, clock, cfg, theirs, s, peer, DropLast(rounds));
      SyncStalls(c, now, clock, cfg, before, peer, theirs, Last(rounds));
    }
  }

  lemma {:induction false} EarlyRounds(
    c: Crypto, now: u64, clock: nat -> u64, cfg: Config, s: Syncer, peer: PeerId, theirs: Node, rounds: nat)
    requires Honest(c, now, s.node, theirs) && rounds < 2 && LocalHello(c, cfg, s.node).Ok?
    ensures var request := AskHello(LocalHello(c, cfg, s.node).value);
            Stalled(Exchange(c, clock, cfg, theirs, s, peer, Some(request), rounds), s)
  {
    hide Honest, LocalHello, Exchange, Round, Locator;
    var request := AskHello(LocalHello(c, cfg, s.node).value);
    NoRounds(c, clock, cfg, theirs, s, peer, Some(request));
    if rounds == 1 {
      GreetingRound(c, now, clock(1), cfg, s, peer, theirs);
      OneRound(c, clock, cfg, theirs, s, peer, request, 1);
      var h := Round(c, clock(1), cfg, theirs, s, peer, request);
      NoRounds(c, clock, cfg, theirs, h.state, peer, h.request);
    }
  }

  /** A first header request above the ancestor's successor is answered, and refused. */
  lemma {:induction false} GapStops(
    c: Crypto, now: u64, clock: nat -> u64, cfg: Config, s: Syncer, peer: PeerId, theirs: Node, a: u64, next: u64,
    rounds: nat)
    requires Honest(c, now, s.node, theirs) && LocalHello(c, cfg, s.node).Ok? && a + 1 < next < |theirs.canonical|
    requires peer in s.branches && s.branches[peer].ancestor == a && s.branches[peer].headers == []
    ensures var request := AskHeaders(LocalHello(c, cfg, s.node).value, next, MAX_SYNC_HEADERS);
            Stalled(Exchange(c, clock, cfg, theirs, s, peer, Some(request), rounds), s)
  {
    hide NodeInvariant, Valid, LocalHello, Exchange, BlockHash, CumulativeWork, HandleRequest, CheckHello, OnHello,
         OnAncestor, OnBlocks, AskForMore, Summary;
    var request := AskHeaders(LocalHello(c, cfg, s.node).value, next, MAX_SYNC_HEADERS);
    NoRounds(c, clock, cfg, theirs, s, peer, Some(request));
    if rounds > 0 {
      HeadersServed(c, now, cfg, s.node, theirs, next);
      GreetingAccepted(c, now, cfg, s.node, theirs);
      ValidStructure(c, now, s.node.network, theirs.canonical);
      var headers := Summaries(c, theirs.canonical[next..EndOf(next, MAX_SYNC_HEADERS, |theirs.canonical|)]);
      GapRefused(c, s.node, s.branches[peer], headers, theirs.canonical[next], a, next);
      OneRound(c, clock, cfg, theirs, s, peer, request, rounds);
    }
  }

  lemma {:induction false} GapRefused(
    c: Crypto, n: Node, branch: Branch, headers: seq<HeaderSummary>, b: Block, a: u64, next: u64)
    requires headers != [] && headers[0] == Summary(c, b) && b.header.height == next > a + 1
    requires branch.ancestor == a && branch.headers == []
    ensures CheckHeaderChain(c, n, branch, headers).Err?
  {
    hide BlockHash;
  }

  lemma {:induction false} FewHeaderRounds(
    c: Crypto, now: u64, clock: nat -> u64, cfg: Config, s: Syncer, peer: PeerId, theirs: Node, a: u64,
    direct: bool, k: nat, rounds: nat)
    requires Honest(c, now, s.node, theirs) && CumulativeWork(theirs.canonical).Ok? && LocalHello(c, cfg, s.node).Ok?
    requires Fetching(c, now, cfg, s, theirs, a) && a + 1 <= k < |theirs.canonical|
    requires peer in s.branches
    requires s.branches[peer] == HeaderBranch(c, Remote(c, cfg, theirs), theirs.canonical, a, direct, k)
    ensures rounds < Rounds(|theirs.canonical| - k, MAX_SYNC_HEADERS) ==>
            var request := AskHeaders(LocalHello(c, cfg, s.node).value, k, MAX_SYNC_HEADERS);
            Stalled(Exchange(c, clock, cfg, theirs, s, peer, Some(request), rounds), s)
    decreases rounds
  {
    hide NodeInvariant, Valid, LocalHello, Round, Exchange, HeaderBranch, VerifiedBranch, BlockHash, CumulativeWork;
    var local, remote, th := LocalHello(c, cfg, s.node).value, Remote(c, cfg, theirs), theirs.canonical;
    var e := EndOf(k, MAX_SYNC_HEADERS, |th|);
    NoRounds(c, clock, cfg, theirs, s, peer, Some(AskHeaders(local, k, MAX_SYNC_HEADERS)));
    if 0 < rounds < Rounds(|th| - k, MAX_SYNC_HEADERS) {
      HeaderRound(c, now, clock(rounds), cfg, s, peer, theirs, a, direct, k);
      OneRound(c, clock, cfg, theirs, s, peer, AskHeaders(local, k, MAX_SYNC_HEADERS), rounds);
      FewHeaderRounds(c, now, clock, cfg,
          s.(branches := s.branches[peer := HeaderBranch(c, remote, th, a, direct, e)]), peer, theirs, a, direct, e,
          rounds - 1);
    }
  }
}

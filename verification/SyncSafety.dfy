/** Whatever peers answer, the chain only ever changes through validated node events. */
module SyncSafety {
  import opened Prelude
  import opened Primitives
  import opened Blocks
  import opened Chains
  import opened ChainIdentity
  import opened Nodes
  import opened Sync

  lemma {:induction false} SubmitAllIsEvents(
    c: Crypto, now: u64, n: Node, blocks: seq<Block>) returns (events: seq<Event>)
    ensures SubmitAll(c, now, n, blocks).node == Run(c, n, events)
    decreases |blocks|
  {
    hide SubmitMinedBlock;
    if blocks == [] {
      events := [];
    } else {
      var earlier := SubmitAllIsEvents(c, now, n, DropLast(blocks));
      events := earlier;
      if SubmitAll(c, now, n, DropLast(blocks)).result.Ok? {
        events := earlier + [MinedBlock(now, Last(blocks))];
        assert DropLast(events) == earlier;
      }
    }
  }

  lemma {:induction false} OneEvent(c: Crypto, n: Node, e: Event)
    ensures Run(c, n, [e]) == Step(c, n, e)
    ensures Run(c, n, []) == n
  {
    hide Step;
    assert DropLast([e]) == [];
  }

  /** A peer response, honest or not, acts on the node like some list of ordinary events. */
  lemma {:induction false} ResponseIsEvents(
    c: Crypto, now: u64, cfg: Config, s: Syncer, peer: PeerId, response: Response) returns (events: seq<Event>)
    ensures HandleResponse(c, now, cfg, s, peer, response).state.node == Run(c, s.node, events)
  {
    hide LocalHello, CheckHello, FromBlocks, CumulativeWork, CheckHeaderChain, RemoteHasMoreWork, Locators.Locator,
         AdoptCandidateChain, SubmitAll, MatchesHeader, Step, Run;
    events := [];
    assert Run(c, s.node, events) == s.node by { OneEvent(c, s.node, PoolRefresh(0)); }
    if response.BlocksReply? && peer in s.branches && response.blocks != [] {
      var branch, blocks := s.branches[peer], response.blocks;
      if branch.direct {
        var submitted := SubmitAllIsEvents(c, now, s.node, blocks);
        if HandleResponse(c, now, cfg, s, peer, response).state.node != s.node {
          events := submitted;
        }
      } else if s.node.canonical != [] {
        var staged := branch.(next := Last(blocks).header.height + 1, blocks := branch.blocks + blocks);
        var adopt := CandidateChain(now, BlockHash(c, Last(s.node.canonical)), StagedCandidate(s.node, staged));
        AdoptIsStep(c, s.node, adopt);
        OneEvent(c, s.node, adopt);
        if HandleResponse(c, now, cfg, s, peer, response).state.node != s.node {
          events := [adopt];
        }
      }
    }
  }

  lemma {:induction false} AdoptIsStep(c: Crypto, n: Node, e: Event)
    requires e.CandidateChain?
    ensures Step(c, n, e) == AdoptCandidateChain(c, e.now, n, e.expectedTip, e.candidate).node
  {
    hide AdoptCandidateChain;
  }

  // ----- runs that mix peers and local events

  datatype Occurrence =
    | FromPeer(now: u64, peer: PeerId, response: Response)
    | Local(event: Event)
    | PeerGone(peer: PeerId)

  function Occur(c: Crypto, cfg: Config, s: Syncer, o: Occurrence): Syncer {
    match o
    case FromPeer(now, peer, response) => HandleResponse(c, now, cfg, s, peer, response).state
    case Local(event) => s.(node := Step(c, s.node, event))
    case PeerGone(peer) => s.(branches := s.branches - {peer})
  }

  function Session(c: Crypto, cfg: Config, s: Syncer, occurrences: seq<Occurrence>): Syncer {
    if occurrences == [] then s else Occur(c, cfg, Session(c, cfg, s, DropLast(occurrences)), Last(occurrences))
  }

  lemma {:induction false} SessionIsEvents(
    c: Crypto, cfg: Config, s: Syncer, occurrences: seq<Occurrence>) returns (events: seq<Event>)
    ensures Session(c, cfg, s, occurrences).node == Run(c, s.node, events)
    decreases |occurrences|
  {
    hide HandleResponse, Step, Run;
    if occurrences == [] {
      events := [];
      OneEvent(c, s.node, PoolRefresh(0));
    } else {
      var earlier := SessionIsEvents(c, cfg, s, DropLast(occurrences));
      var before := Session(c, cfg, s, DropLast(occurrences));
      match Last(occurrences)
      case FromPeer(now, peer, response) =>
        var more := ResponseIsEvents(c, now, cfg, before, peer, response);
        RunSplit(c, s.node, earlier, more);
        events := earlier + more;
      case Local(event) =>
        RunSplit(c, s.node, earlier, [event]);
        OneEvent(c, before.node, event);
        events := earlier + [event];
      case PeerGone(_) =>
        events := earlier;
    }
  }

  /** Under any mix of peer responses, including forged ones, disconnections, and local
      submissions, the node keeps its invariant and its genesis, and its chain is what it
      was or an accepted chain with strictly more work. */
  lemma {:induction false} SessionSafety(c: Crypto, cfg: Config, s: Syncer, occurrences: seq<Occurrence>)
    requires NodeInvariant(c, s.node)
    ensures var end := Session(c, cfg, s, occurrences).node;
            && NodeInvariant(c, end) && end.network == s.node.network
            && end.canonical[0] == s.node.canonical[0]
            && (end.canonical == s.node.canonical || MoreWork(end.canonical, s.node.canonical))
  {
    hide EverValid, ArchiveSound, CumulativeWork, Run, Session;
    var events := SessionIsEvents(c, cfg, s, occurrences);
    RunSafety(c, s.node, events);
  }

  /** Blocks survive any such session, too. */
  lemma {:induction false} SessionKeepsBlocks(c: Crypto, cfg: Config, s: Syncer, occurrences: seq<Occurrence>, b: Block)
    requires NodeInvariant(c, s.node) && Stored(c, s.node, b)
    ensures Stored(c, Session(c, cfg, s, occurrences).node, b)
  {
    hide NodeInvariant, Stored, Run, Session;
    var events := SessionIsEvents(c, cfg, s, occurrences);
    NothingVanishes(c, s.node, events, b);
  }
}

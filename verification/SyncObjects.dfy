/** The sync handler as an object: pending branches, sync target and node updated in place
    while a response is handled (p2p.rs). */
module SyncObjects {
  import opened Prelude
  import opened Primitives
  import opened Blocks
  import opened Chains
  import opened ChainIdentity
  import opened ChainObjects
  import opened Nodes
  import opened NodeObjects
  import opened Locators
  import opened Sync

  method BodiesMatch(c: Crypto, headers: seq<HeaderSummary>, blocks: seq<Block>) returns (ok: bool)
    ensures ok <==> forall i :: 0 <= i < |blocks| ==> MatchesHeader(c, headers, blocks[i])
  {
    hide BlockHash;
    for i := 0 to |blocks|
      invariant forall k :: 0 <= k < i ==> MatchesHeader(c, headers, blocks[k])
    {
      var found := false;
      for j := 0 to |headers|
        invariant found <==> exists k :: 0 <= k < j && headers[k].hash == Hex(BlockHash(c, blocks[i])) &&
                               headers[k].height == blocks[i].header.height
      {
        if headers[j].hash == Hex(BlockHash(c, blocks[i])) && headers[j].height == blocks[i].header.height {
          found := true;
        }
      }
      assert found <==> MatchesHeader(c, headers, blocks[i]);
      if !found {
        return false;
      }
    }
    ok := true;
  }

  class SyncObject {
    const node: NodeObject
    var branches: map<PeerId, Branch>
    var target: Option<Hello>
    var resume: Option<nat>

    function View(): Syncer reads this, node { Syncer(node.View(), branches, target, resume) }

    constructor (node: NodeObject)
      ensures this.node == node && View() == Syncer(node.View(), map[], None, None)
    {
      this.node := node;
      branches, target, resume := map[], None, None;
    }

    method ClearTarget()
      modifies this
      ensures View() == Cleared(old(View())) && branches == old(branches)
    {
      target, resume := None, None;
    }

    method RequestMore(
      c: Crypto, cfg: Config, start: nat, bodies: bool) returns (r: Result<()>, request: Option<Request>)
      ensures Handled(View(), request, r) == AskForMore(c, cfg, View(), start, bodies)
    {
      hide LocalHello;
      request := None;
      var local := LocalHello(c, cfg, node.View());
      if local.Err? {
        return Err(local.error), None;
      }
      if start > U64_MAX {
        return Err(HeightOutOfRange), None;
      }
      if bodies {
        request := Some(AskBlocks(local.value, start, MAX_SYNC_BLOCKS));
      } else {
        request := Some(AskHeaders(local.value, start, MAX_SYNC_HEADERS));
      }
      r := Ok(());
    }

    method Greeted(c: Crypto, cfg: Config, hello: Hello) returns (r: Result<()>, request: Option<Request>)
      modifies this
      ensures Handled(View(), request, r) == OnHello(c, cfg, old(View()), hello)
    {
      hide LocalHello, RemoteHasMoreWork, Locator;
      request := None;
      var local :- LocalHello(c, cfg, node.View());
      var more :- RemoteHasMoreWork(hello, local);
      if more && hello.bestHash != local.bestHash {
        target := Some(hello);
        request := Some(AskAncestor(local, Locator(c, node.canonical)));
      } else if target.Some? && target.value.bestHash == local.bestHash {
        ClearTarget();
      }
      r := Ok(());
    }

    method AncestorChosen(
      c: Crypto, cfg: Config, peer: PeerId, hello: Hello, height: u64) returns (r: Result<()>, request: Option<Request>)
      modifies this
      ensures Handled(View(), request, r) == OnAncestor(c, cfg, old(View()), peer, hello, height)
    {
      hide LocalHello, RemoteHasMoreWork, AskForMore;
      request := None;
      var local :- LocalHello(c, cfg, node.View());
      var more :- RemoteHasMoreWork(hello, local);
      if !more {
        branches := branches - {peer};
        ClearTarget();
        return Ok(()), None;
      }
      target := Some(hello);
      if height >= |node.canonical| {
        return Err(P2pProtocol), None;
      }
      var next: nat := Min(height + 1, U64_MAX);
      if resume.Some? && next < resume.value <= hello.bestHeight {
        next := resume.value;
      }
      branches := branches[peer := Branch(hello, height, height == local.bestHeight, next, false, [], [])];
      r, request := RequestMore(c, cfg, next, false);
    }

    method HeadersReceived(
      c: Crypto, cfg: Config, peer: PeerId, hello: Hello, headers: seq<HeaderSummary>)
      returns (r: Result<()>, request: Option<Request>)
      modifies this
      ensures Handled(View(), request, r) == OnHeaders(c, cfg, old(View()), peer, hello, headers)
    {
      hide AskForMore, CheckHeaderLinks;
      request := None;
      if peer !in branches || hello.bestHash != branches[peer].remote.bestHash {
        return Err(P2pProtocol), None;
      }
      var branch := branches[peer];
      var _ :- ValidateHeaderChain(c, node.View(), branch, headers);
      branch := branch.(headers := branch.headers + headers);
      branches := branches[peer := branch];
      var last := Last(branch.headers);
      if last.height < branch.remote.bestHeight {
        branches := branches[peer := branch.(next := last.height + 1)];
        assert branches == old(branches)[peer := branch.(next := last.height + 1)];
        r, request := RequestMore(c, cfg, last.height + 1, false);
        return;
      }
      if last.hash != branch.remote.bestHash {
        return Err(P2pProtocol), None;
      }
      var next: nat := Min(branch.ancestor + 1, U64_MAX);
      if target.Some? && target.value.bestHash == branch.remote.bestHash && resume.Some? &&
          next < resume.value <= branch.remote.bestHeight {
        next := resume.value;
      }
      branches := branches[peer := branch.(verified := true, next := next)];
      assert branches == old(branches)[peer := branch.(verified := true, next := next)];
      r, request := RequestMore(c, cfg, next, true);
    }

    method SubmitBlocks(c: Crypto, now: u64, blocks: seq<Block>) returns (r: Result<()>)
      modifies node
      ensures Submitted(node.View(), r) == SubmitAll(c, now, old(node.View()), blocks)
    {
      hide SubmitMinedBlock;
      for i := 0 to |blocks|
        invariant SubmitAll(c, now, old(node.View()), blocks[..i]) == Submitted(node.View(), Ok(()))
      {
        assert DropLast(blocks[..i + 1]) == blocks[..i];
        var step := node.SubmitBlock(c, now, blocks[i]);
        if step.Err? {
          SubmitFailureIsFinal(c, now, old(node.View()), blocks, i + 1);
          return step;
        }
      }
      assert blocks[..|blocks|] == blocks;
      r := Ok(());
    }

    method DirectReceived(
      c: Crypto, now: u64, cfg: Config, peer: PeerId, blocks: seq<Block>)
      returns (r: Result<()>, request: Option<Request>)
      requires peer in branches && blocks != []
      modifies this, node
      ensures Handled(View(), request, r) == OnDirectBlocks(c, now, cfg, old(View()), peer, old(branches[peer]), blocks)
    {
      hide AskForMore, LocalHello, SubmitAll;
      request := None;
      var branch := branches[peer].(next := Last(blocks).header.height + 1);
      branches := branches[peer := branch];
      var _ :- SubmitBlocks(c, now, blocks);
      resume := Some(branch.next);
      target := Some(branch.remote);
      var local :- LocalHello(c, cfg, node.View());
      if local.bestHeight < branch.remote.bestHeight {
        r, request := RequestMore(c, cfg, branch.next, true);
      } else if local.bestHash == branch.remote.bestHash && local.work == branch.remote.work {
        branches := branches - {peer};
        ClearTarget();
        r := Ok(());
      } else {
        r := Err(P2pProtocol);
      }
    }

    method StagedReceived(
      c: Crypto, now: u64, cfg: Config, peer: PeerId, blocks: seq<Block>)
      returns (r: Result<()>, request: Option<Request>)
      requires peer in branches && blocks != []
      modifies this, node
      ensures Handled(View(), request, r) == OnStagedBlocks(c, now, cfg, old(View()), peer, old(branches[peer]), blocks)
    {
      hide AskForMore, FromBlocks, CumulativeWork, AdoptCandidateChain, BlockHash;
      request := None;
      var branch := branches[peer];
      if |branch.blocks| + |blocks| > MAX_STAGED_BLOCKS {
        return Err(P2pProtocol), None;
      }
      branch := branch.(next := Last(blocks).header.height + 1, blocks := branch.blocks + blocks);
      branches := branches[peer := branch];
      var candidate := StagedCandidate(node.View(), branch);
      var _, built := RebuildChain(c, now, node.network, candidate);
      if built.Err? {
        return Err(built.error), None;
      }
      var tip := Last(candidate);
      if tip.header.height < branch.remote.bestHeight {
        r, request := RequestMore(c, cfg, branch.next, true);
        return;
      }
      var work :- SumWork(candidate);
      if tip.header.height != branch.remote.bestHeight || Hex(BlockHash(c, tip)) != branch.remote.bestHash ||
          Decimal(work) != branch.remote.work {
        return Err(P2pProtocol), None;
      }
      if node.canonical == [] {
        return Err(ChainNotInitialized), None;
      }
      var _ :- node.Adopt(c, now, BlockHash(c, Last(node.canonical)), candidate);
      branches := branches - {peer};
      assert old(branches)[peer := branch] - {peer} == old(branches) - {peer};
      ClearTarget();
      r := Ok(());
    }

    method BlocksReceived(
      c: Crypto, now: u64, cfg: Config, peer: PeerId, hello: Hello, blocks: seq<Block>)
      returns (r: Result<()>, request: Option<Request>)
      modifies this, node
      ensures Handled(View(), request, r) == OnBlocks(c, now, cfg, old(View()), peer, hello, blocks)
    {
      hide OnDirectBlocks, OnStagedBlocks, MatchesHeader;
      request := None;
      if peer !in branches || !branches[peer].verified || hello.bestHash != branches[peer].remote.bestHash
         || hello.work != branches[peer].remote.work || blocks == [] ||
             Last(blocks).header.height > branches[peer].remote.bestHeight {
        return Err(P2pProtocol), None;
      }
      var matching := BodiesMatch(c, branches[peer].headers, blocks);
      if !matching {
        return Err(P2pProtocol), None;
      }
      if branches[peer].direct {
        r, request := DirectReceived(c, now, cfg, peer, blocks);
      } else {
        r, request := StagedReceived(c, now, cfg, peer, blocks);
      }
    }

    /** One response handled: the state after it, the request sent and the outcome. */
    method Handle(
      c: Crypto, now: u64, cfg: Config, peer: PeerId, response: Response)
      returns (r: Result<()>, request: Option<Request>)
      modifies this, node
      ensures Handled(View(), request, r) == HandleResponse(c, now, cfg, old(View()), peer, response)
    {
      hide OnHello, OnAncestor, OnHeaders, OnBlocks, CheckHello;
      if response.Rejected? {
        return Ok(()), None;
      }
      var greeting := CheckHello(c, cfg, node.View(), response.hello);
      if greeting.Err? {
        return Err(P2pProtocol), None;
      }
      match response {
        case HelloAccepted(hello) => r, request := Greeted(c, cfg, hello);
        case CommonAncestor(hello, height) => r, request := AncestorChosen(c, cfg, peer, hello, height);
        case HeadersReply(hello, headers) => r, request := HeadersReceived(c, cfg, peer, hello, headers);
        case BlocksReply(hello, blocks) => r, request := BlocksReceived(c, now, cfg, peer, hello, blocks);
      }
    }
  }

  lemma {:induction false} SubmitFailureIsFinal(c: Crypto, now: u64, n: Node, blocks: seq<Block>, count: nat)
    requires count <= |blocks| && SubmitAll(c, now, n, blocks[..count]).result.Err?
    ensures SubmitAll(c, now, n, blocks) == SubmitAll(c, now, n, blocks[..count])
    decreases |blocks| - count
  {
    hide SubmitMinedBlock;
    if count < |blocks| {
      assert DropLast(blocks[..count + 1]) == blocks[..count];
      SubmitFailureIsFinal(c, now, n, blocks, count + 1);
    } else {
      assert blocks[..count] == blocks;
    }
  }
}

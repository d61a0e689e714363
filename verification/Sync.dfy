/** The synchronisation protocol: Hello, FindAncestor, Headers, Blocks (p2p.rs). */
module Sync {
  import opened Prelude
  import opened Primitives
  import opened Blocks
  import opened Chains
  import opened ChainIdentity
  import opened Nodes
  import opened Locators

  const PROTOCOL_VERSION: u32 := 3
  const MAX_SYNC_BLOCKS: nat := 128
  const MAX_SYNC_HEADERS: nat := 512
  const MAX_STAGED_BLOCKS: nat := 2_048

  type PeerId = nat

  /** A hash on the wire: the hex rendering of a digest, or any other text. */
  datatype Text = Hex(digest: Digest) | OtherText(raw: Str)

  /** Cumulative work on the wire: the decimal rendering of a number, or any other text and
      what parsing it yields. */
  datatype WorkText = Decimal(value: nat) | OtherNumber(raw: Str, parsed: Option<nat>)

  datatype Hello = Hello(version: u32, networkId: Str, magic: Str, genesis: Text, bestHeight: u64, bestHash: Text,
      work: WorkText)

  datatype HeaderSummary = HeaderSummary(height: u64, hash: Text, previousHash: Text, difficulty: u8)

  datatype Request =
    | AskHello(hello: Hello)
    | AskAncestor(hello: Hello, locator: seq<LocatorEntry>)
    | AskHeaders(hello: Hello, start: u64, max: nat)
    | AskBlocks(hello: Hello, start: u64, max: nat)

  datatype Response =
    | HelloAccepted(hello: Hello)
    | CommonAncestor(hello: Hello, height: u64)
    | HeadersReply(hello: Hello, headers: seq<HeaderSummary>)
    | BlocksReply(hello: Hello, blocks: seq<Block>)
    | Rejected

  datatype Config = Config(networkId: Str, magic: Str)

  /** A branch being fetched from one peer: headers first, then bodies. */
  datatype Branch = Branch(remote: Hello, ancestor: u64, direct: bool, next: nat,
                           verified: bool, headers: seq<HeaderSummary>, blocks: seq<Block>)

  datatype Syncer = Syncer(node: Node, branches: map<PeerId, Branch>, target: Option<Hello>, resume: Option<nat>)

  // ----- hellos

  function ParseWork(w: WorkText): Result<nat> {
    match w
    case Decimal(n) => if n <= U128_MAX then Ok(n) else Err(P2pProtocol)
    case OtherNumber(_, parsed) => if parsed.Some? &&
        parsed.value <= U128_MAX then Ok(parsed.value) else Err(P2pProtocol)
  }

  function LocalHello(c: Crypto, cfg: Config, n: Node): Result<Hello> {
    var blocks :- LoadBlocks(c, n);
    var work :- CumulativeWork(blocks);
    Ok(Hello(PROTOCOL_VERSION, cfg.networkId, cfg.magic, Hex(BlockHash(c, blocks[0])),
             Last(blocks).header.height, Hex(BlockHash(c, Last(blocks))), Decimal(work)))
  }

  function CheckHello(c: Crypto, cfg: Config, n: Node, hello: Hello): Result<()> {
    var blocks :- LoadBlocks(c, n);
    var _ :- Need(hello.version == PROTOCOL_VERSION, P2pProtocol);
    var _ :- Need(hello.networkId == cfg.networkId && hello.magic == cfg.magic, NetworkMismatch);
    Need(hello.genesis == Hex(BlockHash(c, blocks[0])), GenesisMismatch)
  }

  function RemoteHasMoreWork(remote: Hello, local: Hello): Result<bool> {
    var theirs :- ParseWork(remote.work);
    var ours :- ParseWork(local.work);
    Ok(theirs > ours)
  }

  // ----- serving a peer

  function FromHeight(blocks: seq<Block>, start: u64): seq<Block> {
    if blocks == [] then [] else
      FromHeight(DropLast(blocks), start) + (if Last(blocks).header.height >= start then [Last(blocks)] else [])
  }

  function Take<T>(s: seq<T>, n: nat): seq<T> { s[..Min(|s|, n)] }

  function Summary(c: Crypto, b: Block): HeaderSummary {
    HeaderSummary(b.header.height, Hex(BlockHash(c, b)), Hex(b.header.previousHash), b.header.difficulty)
  }

  function Summaries(c: Crypto, blocks: seq<Block>): (r: seq<HeaderSummary>)
    ensures |r| == |blocks|
    ensures forall i :: 0 <= i < |r| ==> r[i] == Summary(c, blocks[i])
  {
    seq(|blocks|, i requires 0 <= i < |blocks| => Summary(c, blocks[i]))
  }

  function Answer(c: Crypto, local: Hello, blocks: seq<Block>, request: Request): Response {
    match request
    case AskHello(_) => HelloAccepted(local)
    case AskAncestor(_, locator) =>
      (match FindAncestor(c, blocks, locator)
       case Some(height) => CommonAncestor(local, height)
       case None => Rejected)
    case AskHeaders(_, start, max) =>
      HeadersReply(local, Summaries(c, Take(FromHeight(blocks, start), Min(max, MAX_SYNC_HEADERS))))
    case AskBlocks(_, start, max) =>
      BlocksReply(local, Take(FromHeight(blocks, start), Min(max, MAX_SYNC_BLOCKS)))
  }

  function HandleRequest(c: Crypto, cfg: Config, n: Node, request: Request): Response {
    if CheckHello(c, cfg, n, request.hello).Err? then Rejected else
      match LocalHello(c, cfg, n)
      case Err(_) => Rejected
      case Ok(local) => Answer(c, local, n.canonical, request)
  }

  // ----- handling a response

  /** The state after a handler, the next request to the peer, and the outcome. */
  datatype Handled = Handled(state: Syncer, request: Option<Request>, result: Result<()>)

  function Refused(s: Syncer, e: Error): Handled { Handled(s, None, Err(e)) }

  function Done(s: Syncer): Handled { Handled(s, None, Ok(())) }

  function Cleared(s: Syncer): Syncer { s.(target := None, resume := None) }

  function TargetIs(s: Syncer, hash: Text): bool { s.target.Some? && s.target.value.bestHash == hash }

  /** The durable resume height applies only towards the same target and above `next`. */
  function Resumed(s: Syncer, remote: Hello, next: nat): nat {
    if TargetIs(s, remote.bestHash) && s.resume.Some? &&
        next < s.resume.value <= remote.bestHeight then s.resume.value else next
  }

  /** Asks for more of the branch; heights on the wire are 64-bit. */
  function AskForMore(c: Crypto, cfg: Config, s: Syncer, start: nat, bodies: bool): Handled {
    match LocalHello(c, cfg, s.node)
    case Err(e) => Refused(s, e)
    case Ok(local) =>
      if start > U64_MAX then Refused(s, HeightOutOfRange)
      else if bodies then Handled(s, Some(AskBlocks(local, start, MAX_SYNC_BLOCKS)), Ok(()))
      else Handled(s, Some(AskHeaders(local, start, MAX_SYNC_HEADERS)), Ok(()))
  }

  function OnHello(c: Crypto, cfg: Config, s: Syncer, hello: Hello): Handled {
    match LocalHello(c, cfg, s.node)
    case Err(e) => Refused(s, e)
    case Ok(local) =>
      match RemoteHasMoreWork(hello, local)
      case Err(e) => Refused(s, e)
      case Ok(more) =>
        if more && hello.bestHash != local.bestHash then
          Handled(s.(target := Some(hello)), Some(AskAncestor(local, Locator(c, s.node.canonical))), Ok(()))
        else if TargetIs(s, local.bestHash) then Done(Cleared(s))
        else Done(s)
  }

  function OnAncestor(c: Crypto, cfg: Config, s: Syncer, peer: PeerId, hello: Hello, height: u64): Handled {
    match LocalHello(c, cfg, s.node)
    case Err(e) => Refused(s, e)
    case Ok(local) =>
      match RemoteHasMoreWork(hello, local)
      case Err(e) => Refused(s, e)
      case Ok(more) =>
        if !more then Done(Cleared(s.(branches := s.branches - {peer})))
        else
          var aimed := s.(target := Some(hello));
          if height >= |s.node.canonical| then Refused(aimed, P2pProtocol)
          else
            var next := Resumed(aimed, hello, Min(height + 1, U64_MAX));
            AskForMore(c, cfg, aimed.(branches := aimed.branches[peer :=
              Branch(hello, height, height == local.bestHeight, next, false, [], [])]), next, false)
  }

  predicate LooksLikeHash(t: Text) {
    match t
    case Hex(_) => true
    case OtherText(raw) => IsHex32(raw)
  }

  /** Heights without gaps, each header naming its predecessor. */
  function CheckHeaderLinks(previous: Text, expected: nat, headers: seq<HeaderSummary>): Result<()>
    decreases |headers|
  {
    if headers == [] then Ok(()) else
      var h := headers[0];
      var _ :- Need(h.height == expected, P2pProtocol);
      var _ :- Need(h.previousHash == previous, P2pProtocol);
      var _ :- Need(LooksLikeHash(h.hash), P2pProtocol);
      CheckHeaderLinks(h.hash, expected + 1, headers[1..])
  }

  function CheckHeaderChain(c: Crypto, n: Node, branch: Branch, headers: seq<HeaderSummary>): Result<()> {
    var _ :- Need(headers != [], P2pProtocol);
    if branch.headers == [] then
      var _ :- Need(branch.ancestor < |n.canonical|, P2pProtocol);
      CheckHeaderLinks(Hex(BlockHash(c, n.canonical[branch.ancestor])), branch.ancestor + 1, headers)
    else
      CheckHeaderLinks(Last(branch.headers).hash, Last(branch.headers).height + 1, headers)
  }

  method ValidateHeaderChain(c: Crypto, n: Node, branch: Branch, headers: seq<HeaderSummary>) returns (r: Result<()>)
    ensures r == CheckHeaderChain(c, n, branch, headers)
  {
    hide BlockHash, LooksLikeHash;
    if headers == [] {
      return Err(P2pProtocol);
    }
    var previous: Text, expected: nat;
    if branch.headers == [] {
      if branch.ancestor >= |n.canonical| {
        return Err(P2pProtocol);
      }
      previous, expected := Hex(BlockHash(c, n.canonical[branch.ancestor])), branch.ancestor + 1;
    } else {
      previous, expected := Last(branch.headers).hash, Last(branch.headers).height + 1;
    }
    for i := 0 to |headers|
      invariant CheckHeaderLinks(previous, expected, headers[i..]) == CheckHeaderChain(c, n, branch, headers)
    {
      var h := headers[i];
      assert headers[i..][0] == h && headers[i..][1..] == headers[i + 1..];
      if h.height != expected || h.previousHash != previous || !LooksLikeHash(h.hash) {
        return Err(P2pProtocol);
      }
      previous, expected := h.hash, expected + 1;
    }
    r := Ok(());
  }

  function OnHeaders(
    c: Crypto, cfg: Config, s: Syncer, peer: PeerId, hello: Hello, headers: seq<HeaderSummary>): Handled
  {
    if peer !in s.branches then Refused(s, P2pProtocol) else
      var branch := s.branches[peer];
      if hello.bestHash != branch.remote.bestHash then Refused(s, P2pProtocol) else
        match CheckHeaderChain(c, s.node, branch, headers)
        case Err(e) => Refused(s, e)
        case Ok(_) =>
          var longer := branch.(headers := branch.headers + headers);
          var last := Last(longer.headers);
          if last.height < branch.remote.bestHeight then
            AskForMore(c, cfg, s.(branches := s.branches[peer := longer.(next := last.height + 1)]), last.height + 1,
                false)
          else if last.hash != branch.remote.bestHash then
            Refused(s.(branches := s.branches[peer := longer]), P2pProtocol)
          else
            var next := Resumed(s, branch.remote, Min(branch.ancestor + 1, U64_MAX));
            AskForMore(c, cfg, s.(branches := s.branches[peer := longer.(verified := true, next := next)]), next, true)
  }

  predicate MatchesHeader(c: Crypto, headers: seq<HeaderSummary>, b: Block) {
    exists i :: 0 <= i < |headers| && headers[i].hash == Hex(BlockHash(c, b)) && headers[i].height == b.header.height
  }

  datatype Submitted = Submitted(node: Node, result: Result<()>)

  /** Blocks go in one at a time; the accepted ones stay even if a later one fails. */
  function SubmitAll(c: Crypto, now: u64, n: Node, blocks: seq<Block>): Submitted {
    if blocks == [] then Submitted(n, Ok(())) else
      var before := SubmitAll(c, now, n, DropLast(blocks));
      if before.result.Err? then before else
        match SubmitMinedBlock(c, now, before.node, Last(blocks))
        case Err(e) => Submitted(before.node, Err(e))
        case Ok(next) => Submitted(next, Ok(()))
  }

  function OnDirectBlocks(
    c: Crypto, now: u64, cfg: Config, s: Syncer, peer: PeerId, branch: Branch, blocks: seq<Block>): Handled
    requires blocks != []
  {
    var moved := branch.(next := Last(blocks).header.height + 1);
    var run := SubmitAll(c, now, s.node, blocks);
    var after := s.(node := run.node, branches := s.branches[peer := moved]);
    if run.result.Err? then Refused(after, run.result.error) else
      var aimed := after.(resume := Some(moved.next), target := Some(branch.remote));
      match LocalHello(c, cfg, aimed.node)
      case Err(e) => Refused(aimed, e)
      case Ok(local) =>
        if local.bestHeight < branch.remote.bestHeight then AskForMore(c, cfg, aimed, moved.next, true)
        else if local.bestHash == branch.remote.bestHash && local.work == branch.remote.work then
          Done(Cleared(aimed.(branches := aimed.branches - {peer})))
        else Refused(aimed, P2pProtocol)
  }

  function StagedCandidate(n: Node, branch: Branch): seq<Block> {
    Take(n.canonical, branch.ancestor + 1) + branch.blocks
  }

  function OnStagedBlocks(
    c: Crypto, now: u64, cfg: Config, s: Syncer, peer: PeerId, branch: Branch, blocks: seq<Block>): Handled
    requires blocks != []
  {
    if |branch.blocks| + |blocks| > MAX_STAGED_BLOCKS then Refused(s, P2pProtocol) else
      var staged := branch.(next := Last(blocks).header.height + 1, blocks := branch.blocks + blocks);
      var after := s.(branches := s.branches[peer := staged]);
      var candidate := StagedCandidate(s.node, staged);
      match FromBlocks(c, now, s.node.network, candidate)
      case Err(e) => Refused(after, e)
      case Ok(_) =>
        if Last(candidate).header.height < branch.remote.bestHeight then AskForMore(c, cfg, after, staged.next, true)
        else
          match CumulativeWork(candidate)
          case Err(e) => Refused(after, e)
          case Ok(work) =>
            if Last(candidate).header.height != branch.remote.bestHeight ||
                Hex(BlockHash(c, Last(candidate))) != branch.remote.bestHash
               || Decimal(work) != branch.remote.work
            then Refused(after, P2pProtocol)
            else if s.node.canonical == [] then Refused(after, ChainNotInitialized)
            else
              var adopted := AdoptCandidateChain(c, now, s.node, BlockHash(c, Last(s.node.canonical)), candidate);
              match adopted.result
              case Err(e) => Refused(after.(node := adopted.node), e)
              case Ok(_) => Done(Cleared(after.(node := adopted.node, branches := s.branches - {peer})))
  }

  function OnBlocks(
    c: Crypto, now: u64, cfg: Config, s: Syncer, peer: PeerId, hello: Hello, blocks: seq<Block>): Handled
  {
    if peer !in s.branches then Refused(s, P2pProtocol) else
      var branch := s.branches[peer];
      if !branch.verified || hello.bestHash != branch.remote.bestHash || hello.work != branch.remote.work ||
          blocks == []
         || Last(blocks).header.height > branch.remote.bestHeight
         || exists i :: 0 <= i < |blocks| && !MatchesHeader(c, branch.headers, blocks[i])
      then Refused(s, P2pProtocol)
      else if branch.direct then OnDirectBlocks(c, now, cfg, s, peer, branch, blocks)
      else OnStagedBlocks(c, now, cfg, s, peer, branch, blocks)
  }

  function HandleResponse(c: Crypto, now: u64, cfg: Config, s: Syncer, peer: PeerId, response: Response): Handled {
    if response.Rejected? then Done(s)
    else if CheckHello(c, cfg, s.node, response.hello).Err? then Refused(s, P2pProtocol)
    else
      match response
      case HelloAccepted(hello) => OnHello(c, cfg, s, hello)
      case CommonAncestor(hello, height) => OnAncestor(c, cfg, s, peer, hello, height)
      case HeadersReply(hello, headers) => OnHeaders(c, cfg, s, peer, hello, headers)
      case BlocksReply(hello, blocks) => OnBlocks(c, now, cfg, s, peer, hello, blocks)
  }
}

/** The transaction merkle tree (block.rs): an odd level repeats its last hash. */
module Merkle {
  import opened Prelude
  import opened Primitives
  import opened Transactions

  function Padded(level: seq<Digest>): (r: seq<Digest>)
    ensures |r| % 2 == 0 && |r| == |level| + |level| % 2
  {
    if |level| % 2 == 1 then level + [level[|level| - 1]] else level
  }

  function NextLevel(level: seq<Digest>): (r: seq<Digest>)
    ensures |r| == (|level| + 1) / 2
  {
    var p := Padded(level);
    seq(|p| / 2, i requires 0 <= i < |p| / 2 => Node(p[2 * i], p[2 * i + 1]))
  }

  function Root(level: seq<Digest>): Digest
    requires level != []
    decreases |level|
  {
    if |level| == 1 then level[0] else Root(NextLevel(level))
  }

  function MerkleRoot(c: Crypto, txs: seq<Transaction>): Result<Digest> {
    if txs == [] then Err(EmptyTransactions) else Ok(Root(TxHashes(c, txs)))
  }

  method HashPairs(level: seq<Digest>) returns (next: seq<Digest>)
    ensures next == NextLevel(level)
  {
    var padded := level;
    if |level| % 2 == 1 {
      padded := padded + [level[|level| - 1]];
    }
    next := [];
    var i := 0;
    while 2 * i < |padded|
      invariant 0 <= 2 * i <= |padded|
      invariant |next| == i
      invariant forall k :: 0 <= k < i ==> next[k] == Node(padded[2 * k], padded[2 * k + 1])
    {
      next := next + [Node(padded[2 * i], padded[2 * i + 1])];
      i := i + 1;
    }
  }

  method ComputeMerkleRoot(c: Crypto, txs: seq<Transaction>) returns (r: Result<Digest>)
    ensures r == MerkleRoot(c, txs)
  {
    if txs == [] {
      return Err(EmptyTransactions);
    }
    var level := TxHashes(c, txs);
    while |level| > 1
      invariant level != []
      invariant Root(level) == Root(TxHashes(c, txs))
      decreases |level|
    {
      level := HashPairs(level);
    }
    r := Ok(level[0]);
  }

  // ----- the root is a binary tree over the list

  lemma {:induction false} NextLevelAt(level: seq<Digest>, i: nat)
    requires 2 * i < |level|
    ensures i < |NextLevel(level)|
    ensures NextLevel(level)[i] == Node(level[2 * i], if 2 * i + 1 < |level| then level[2 * i + 1] else level[2 * i])
  {
  }

  lemma {:induction false} NextLevelJoins(x: seq<Digest>, y: seq<Digest>)
    requires |x| % 2 == 0
    ensures NextLevel(x + y) == NextLevel(x) + NextLevel(y)
  {
    hide NextLevel;
    var whole, parts := NextLevel(x + y), NextLevel(x) + NextLevel(y);
    forall i | 0 <= i < |whole| ensures whole[i] == parts[i] {
      NextLevelAt(x + y, i);
      if 2 * i < |x| { NextLevelAt(x, i); } else { NextLevelAt(y, i - |x| / 2); }
    }
  }

  /** The root over a power of two of hashes is the node over the roots of its halves, the
      first half on the left. */
  lemma {:induction false} RootOfHalves(x: seq<Digest>, y: seq<Digest>, depth: nat)
    requires |x| == |y| == Pow2(depth)
    ensures Root(x + y) == Node(Root(x), Root(y))
    decreases depth
  {
    if depth == 0 {
      assert NextLevel(x + y) == [Node(x[0], y[0])];
    } else {
      NextLevelJoins(x, y);
      RootOfHalves(NextLevel(x), NextLevel(y), depth - 1);
    }
  }

  // ----- the root determines the list

  function Depth(d: Digest): nat {
    match d
    case Node(left, _) => 1 + Depth(left)
    case _ => 0
  }

  ghost predicate AtDepth(level: seq<Digest>, depth: nat) {
    forall i :: 0 <= i < |level| ==> Depth(level[i]) == depth
  }

  lemma {:induction false} NextLevelDepth(level: seq<Digest>, depth: nat)
    requires AtDepth(level, depth)
    ensures AtDepth(NextLevel(level), depth + 1)
  {
  }

  lemma {:induction false} NextLevelDistinct(level: seq<Digest>)
    requires Distinct(level)
    ensures Distinct(NextLevel(level))
  {
    var next := NextLevel(level);
    forall i, j | 0 <= i < j < |next| ensures next[i] != next[j] {
      assert next[i].left == level[2 * i] && next[j].left == level[2 * j];
    }
  }

  lemma {:induction false} NextLevelDeterminesPadding(a: seq<Digest>, b: seq<Digest>)
    requires NextLevel(a) == NextLevel(b)
    ensures Padded(a) == Padded(b)
  {
    forall i | 0 <= i < |Padded(a)| ensures Padded(a)[i] == Padded(b)[i] {
      assert NextLevel(a)[i / 2] == NextLevel(b)[i / 2];
    }
  }

  lemma {:induction false} OddPaddingRepeats(a: seq<Digest>)
    requires |a| % 2 == 1
    ensures !Distinct(Padded(a))
  {
    assert Padded(a)[|a| - 1] == Padded(a)[|a|];
  }

  lemma {:induction false} NextLevelInjective(a: seq<Digest>, b: seq<Digest>)
    requires Distinct(a) && Distinct(b)
    requires NextLevel(a) == NextLevel(b)
    ensures a == b
  {
    NextLevelDeterminesPadding(a, b);
    if |a| % 2 == 1 {
      OddPaddingRepeats(a);
    }
    if |b| % 2 == 1 {
      OddPaddingRepeats(b);
    }
    if |a| % 2 == 1 && |b| % 2 == 1 {
      assert Padded(a)[..|a|] == a && Padded(b)[..|b|] == b;
    }
  }

  lemma {:induction false} RootDepth(level: seq<Digest>, depth: nat)
    requires level != [] && AtDepth(level, depth)
    ensures Depth(Root(level)) >= depth
    ensures |level| > 1 ==> Depth(Root(level)) > depth
    decreases |level|
  {
    if |level| > 1 {
      NextLevelDepth(level, depth);
      RootDepth(NextLevel(level), depth + 1);
    }
  }

  /** Equal roots of repetition-free levels come from equal levels, of any lengths. */
  lemma {:induction false} RootDeterminesLevel(a: seq<Digest>, b: seq<Digest>, depth: nat)
    requires a != [] && b != [] && Distinct(a) && Distinct(b)
    requires AtDepth(a, depth) && AtDepth(b, depth)
    requires Root(a) == Root(b)
    ensures a == b
    decreases |a|
  {
    RootDepth(a, depth);
    RootDepth(b, depth);
    if |a| > 1 && |b| > 1 {
      NextLevelDepth(a, depth);
      NextLevelDepth(b, depth);
      NextLevelDistinct(a);
      NextLevelDistinct(b);
      RootDeterminesLevel(NextLevel(a), NextLevel(b), depth + 1);
      NextLevelInjective(a, b);
    }
  }

  /** The merkle root commits to the whole transaction list once hashes do not repeat. */
  lemma {:induction false} RootDeterminesTransactions(c: Crypto, a: seq<Transaction>, b: seq<Transaction>)
    requires Distinct(TxHashes(c, a)) && Distinct(TxHashes(c, b))
    requires forall i :: 0 <= i < |a| ==> Encodable(a[i])
    requires forall i :: 0 <= i < |b| ==> Encodable(b[i])
    requires MerkleRoot(c, a).Ok? && MerkleRoot(c, a) == MerkleRoot(c, b)
    ensures a == b
  {
    RootDeterminesLevel(TxHashes(c, a), TxHashes(c, b), 0);
    forall i | 0 <= i < |a| ensures a[i] == b[i] {
      EncodingInjective(c, a[i], b[i]);
    }
  }

  /** Without the no-repetition rule the commitment is ambiguous: repeating the last
      transaction of an odd list keeps the root. */
  lemma {:induction false} RepetitionIsInvisible(c: Crypto, txs: seq<Transaction>)
    requires |txs| % 2 == 1 && |txs| > 1
    ensures MerkleRoot(c, txs + [Last(txs)]) == MerkleRoot(c, txs)
    ensures !Distinct(TxHashes(c, txs + [Last(txs)]))
  {
    var hashes, longer := TxHashes(c, txs), TxHashes(c, txs + [Last(txs)]);
    assert longer == Padded(hashes);
    assert NextLevel(longer) == NextLevel(hashes);
    assert longer[|txs| - 1] == longer[|txs|];
  }
}

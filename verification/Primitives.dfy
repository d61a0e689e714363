/** Networks, digests and the cryptographic primitives the chain is built on.

    Hash functions are modelled by free constructors, so a digest determines what was
    hashed. Address parsing, signatures and the native proof-of-work routine are
    function-valued parameters: every result holds for each way they may behave. */
module Primitives {
  import opened Prelude

  datatype Network = Devnet | Testnet | MainnetCandidate {

    function NetworkId(): Str {
      match this
      case Devnet => Ascii("veiron-devnet")
      case Testnet => Ascii("veiron-testnet")
      case MainnetCandidate => Ascii("veiron-mainnet-candidate")
    }

    function MinimumDifficulty(): u8 {
      match this
      case Devnet => 4
      case Testnet => 12
      case MainnetCandidate => 16
    }

    function MaximumDifficulty(): u8 {
      match this
      case Devnet => 24
      case Testnet => 32
      case MainnetCandidate => 34
    }
  }

  function Ascii(s: string): (r: Str)
    ensures |r| == |s|
  {
    seq(|s|, i requires 0 <= i < |s| => s[i] as int % 0x100)
  }

  /** What the proof-of-work seed commits to: fixed-width header fields, without the
      network id, the base fee, the nonce and the mix hash. */
  datatype Seed = Seed(version: u32, previousHash: Digest, merkleRoot: Digest,
                       timestamp: u64, difficulty: u8, height: u64)

  datatype Digest =
    | Zero
    | Sha(preimage: seq<byte>)
    | Node(left: Digest, right: Digest)
    | Pow(epochHeight: nat, seed: Seed, nonce: u64)
    | Mix(epochHeight: nat, seed: Seed, nonce: u64)

  datatype Crypto = Crypto(
    addressNetwork: Str -> Option<Network>,
    deriveAddress: (Bytes32, Network) -> Str,
    signatureOk: (Bytes32, seq<byte>, Bytes64) -> bool,
    powRuns: (nat, Seed, u64) -> bool,
    powVerifies: (nat, Seed, Digest, u64, seq<byte>) -> bool,
    digestBytes: Digest -> Bytes32)

  /** A Bech32m address is a known prefix, a separator, 53 data and 6 checksum characters. */
  ghost predicate AddressesAreShort(c: Crypto) {
    forall s :: c.addressNetwork(s).Some? ==> |s| <= 65
  }

  function ParseAddress(c: Crypto, s: Str): Result<Network> {
    match c.addressNetwork(s)
    case Some(n) => Ok(n)
    case None => Err(InvalidAddress)
  }
}

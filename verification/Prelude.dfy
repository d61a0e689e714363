/** Shared vocabulary: machine integers, byte strings, results, and the little
    arithmetic over maps and powers of two that several components need. */
module Prelude {

  type byte = n: nat | n < 0x100
  type u8 = n: nat | n < 0x100
  type u32 = n: nat | n < 0x1_0000_0000
  type u64 = n: nat | n < 0x1_0000_0000_0000_0000

  const U64_MAX: u64 := 0xFFFF_FFFF_FFFF_FFFF
  const U128_MAX: nat := 0xFFFF_FFFF_FFFF_FFFF_FFFF_FFFF_FFFF_FFFF

  /** A Rust string, as its UTF-8 bytes. */
  type Str = seq<byte>
  type Bytes32 = b: seq<byte> | |b| == 32 witness seq(32, _ => 0)
  type Bytes64 = b: seq<byte> | |b| == 64 witness seq(64, _ => 0)

  datatype Option<+T> = None | Some(value: T)

  /** Error kinds of the node and the core; the payloads only feed messages. */
  datatype Error =
    | AmountOverflow | EmptyTransactions | TooManyTransactions | TransactionTooLarge
    | DuplicateTransactionHash | InvalidNetwork | InvalidHeight | InvalidTimestamp
    | InvalidMedianTimePast | InvalidFutureTimestamp | InvalidBlockVersion | InvalidBaseFee
    | InvalidDifficultyAdjustment | InvalidPreviousHash | InvalidCheckpoint | InvalidMerkleRoot
    | InvalidPow | MissingCoinbase | CoinbaseNotFirst | InvalidCoinbaseFee | DuplicateCoinbase
    | InvalidCoinbaseAmount | ZeroAmountTransaction | SupplyOverflow | InvalidTransaction
    | InvalidAddress | InvalidFee | InvalidSignature | InvalidNonce | InsufficientBalance
    | ChainWorkOverflow | InvalidGenesis | ChainNotInitialized | InvalidChainFile
    | StaleChainTip | InvalidInput | StorageConflict | HeightOutOfRange | NotEnoughWork
    | GenesisMismatch | NetworkMismatch | MempoolFull | P2pProtocol

  datatype Result<+T> = Ok(value: T) | Err(error: Error) {
    predicate IsFailure() { Err? }
    function PropagateFailure<U>(): Result<U> requires Err? { Err(error) }
    function Extract(): T requires Ok? { value }
  }

  function Need(condition: bool, error: Error): Result<()> {
    if condition then Ok(()) else Err(error)
  }

  function Min(a: int, b: int): int { if a <= b then a else b }
  function Max(a: int, b: int): int { if a >= b then a else b }

  function Clamp(x: int, lo: int, hi: int): int { if x < lo then lo else if x > hi then hi else x }

  function CheckedAdd(a: u64, b: u64): Result<u64> {
    if a + b <= U64_MAX then Ok(a + b) else Err(AmountOverflow)
  }

  function CheckedSub(a: u64, b: u64): Result<u64> {
    if b <= a then Ok(a - b) else Err(AmountOverflow)
  }

  function SaturatingAdd(a: u64, b: u64): u64 {
    if a + b <= U64_MAX then a + b else U64_MAX
  }

  function SaturatingSub(a: u64, b: u64): u64 {
    if b <= a then a - b else 0
  }

  function Last<T>(s: seq<T>): T requires s != [] { s[|s| - 1] }

  function DropLast<T>(s: seq<T>): seq<T> requires s != [] { s[..|s| - 1] }

  lemma {:induction false} Regroup<T>(a: seq<T>, b: seq<T>, c: seq<T>)
    ensures (a + b) + c == a + (b + c)
  {
  }

  ghost predicate Distinct<T>(s: seq<T>) {
    forall i, j :: 0 <= i < j < |s| ==> s[i] != s[j]
  }

  function Pow2(k: nat): nat
    ensures Pow2(k) > 0
  {
    if k == 0 then 1 else 2 * Pow2(k - 1)
  }

  lemma {:induction false} Pow2Monotone(a: nat, b: nat)
    requires a <= b
    ensures Pow2(a) <= Pow2(b)
    ensures a < b ==> 2 * Pow2(a) <= Pow2(b)
    decreases b
  {
    if a < b {
      Pow2Monotone(a, b - 1);
    }
  }

  lemma {:induction false} Pow2Sum(a: nat, b: nat)
    ensures Pow2(a + b) == Pow2(a) * Pow2(b)
    decreases b
  {
    if b > 0 {
      Pow2Sum(a, b - 1);
    }
  }

  lemma {:induction false} Pow2Values()
    ensures Pow2(8) == 0x100 && Pow2(16) == 0x1_0000 && Pow2(31) == 0x8000_0000
    ensures Pow2(34) == 0x4_0000_0000 && Pow2(64) == 0x1_0000_0000_0000_0000
  {
    assert Pow2(4) == 16;
    Pow2Sum(4, 4);
    Pow2Sum(8, 8);
    Pow2Sum(16, 16);
    Pow2Sum(32, 32);
    assert Pow2(32) == 2 * Pow2(31);
    assert Pow2(34) == 4 * Pow2(32);
  }

  lemma {:induction false} MultiplyMonotone(a: nat, b: nat, d: nat)
    requires a <= b
    ensures a * d <= b * d
  {
  }

  lemma {:induction false} QuotientUnique(n: nat, d: nat, q: nat, r: nat)
    requires d > 0 && n == q * d + r && r < d
    ensures n / d == q && n % d == r
  {
    var k := n / d;
    assert n == k * d + n % d;
    if k < q {
      MultiplyMonotone(k + 1, q, d);
      assert false;
    } else if q < k {
      MultiplyMonotone(q + 1, k, d);
      assert false;
    }
  }

  // ----- hexadecimal text

  /** 64 hexadecimal digits of either case. */
  predicate IsHex32(s: Str) {
    |s| == 64 && forall i :: 0 <= i < 64 ==> 48 <= s[i] <= 57 || 65 <= s[i] <= 70 || 97 <= s[i] <= 102
  }

  const HEX_DIGITS := "0123456789abcdefABCDEF"

  lemma {:induction false} HexDigits(s: Str)
    ensures IsHex32(s) <==> |s| == 64 && forall i :: 0 <= i < 64 ==> s[i] as char in HEX_DIGITS
  {
    forall i | 0 <= i < |s| ensures s[i] as char in HEX_DIGITS <==>
      48 <= s[i] <= 57 || 65 <= s[i] <= 70 || 97 <= s[i] <= 102
    {
      HexDigit(s[i]);
    }
  }

  lemma {:induction false} HexDigit(b: byte)
    ensures b as char in HEX_DIGITS <==> 48 <= b <= 57 || 65 <= b <= 70 || 97 <= b <= 102
  {
    if 48 <= b <= 57 { assert HEX_DIGITS[b - 48] == b as char; }
    if 97 <= b <= 102 { assert HEX_DIGITS[b - 87] == b as char; }
    if 65 <= b <= 70 { assert HEX_DIGITS[b - 49] == b as char; }
  }

  // ----- totals over finite maps

  ghost function AnyKey<K>(m: map<K, nat>): (k: K)
    requires m != map[]
    ensures k in m
  {
    var k :| k in m; k
  }

  ghost function Total<K>(m: map<K, nat>): nat
    decreases |m|
  {
    if m == map[] then 0 else m[AnyKey(m)] + Total(Without(m, AnyKey(m)))
  }

  ghost function Without<K>(m: map<K, nat>, k: K): (r: map<K, nat>)
    requires k in m
    ensures |r| == |m| - 1
    ensures r.Keys == m.Keys - {k}
    ensures forall j :: j in r ==> r[j] == m[j]
  {
    assert (m - {k}).Keys == m.Keys - {k};
    m - {k}
  }

  lemma {:induction false} TotalRemove<K>(m: map<K, nat>, k: K)
    requires k in m
    ensures Total(m) == m[k] + Total(Without(m, k))
    decreases |m|
  {
    var j := AnyKey(m);
    if j != k {
      TotalRemove(Without(m, j), k);
      TotalRemove(Without(m, k), j);
      assert Without(Without(m, j), k) == Without(Without(m, k), j);
    }
  }

  lemma {:induction false} WithoutUpdate<K>(m: map<K, nat>, k: K, v: nat)
    ensures Without(m[k := v], k) == if k in m then Without(m, k) else m
  {
  }

  /** Writing one key changes the total by exactly the difference of the entries. */
  lemma {:induction false} TotalUpdate<K>(m: map<K, nat>, k: K, v: nat)
    ensures Total(m[k := v]) == Total(m) - (if k in m then m[k] else 0) + v
  {
    WithoutUpdate(m, k, v);
    TotalRemove(m[k := v], k);
    if k in m {
      TotalRemove(m, k);
    }
  }

  lemma {:induction false} TotalEntry<K>(m: map<K, nat>, k: K)
    requires k in m
    ensures m[k] <= Total(m)
  {
    TotalRemove(m, k);
  }
}

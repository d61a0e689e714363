/** Transactions: wire encoding, fee arithmetic and signature checks (transaction.rs). */
module Transactions {
  import opened Prelude
  import opened Primitives

  const MAX_SUPPLY: u64 := 6_000_000_000_000_000

  datatype Transaction = Transaction(
    version: u32, nonce: u64, from: Option<Str>, to: Str,
    amount: u64, maxFee: u64, priorityFee: u64,
    memo: Option<Bytes32>, senderKey: Option<Bytes32>, signature: Option<Bytes64>)
  {
    predicate IsCoinbase() { from.None? && senderKey.None? && signature.None? }
  }

  // ----- wire encoding

  function LittleEndian(n: nat, width: nat): (r: seq<byte>)
    ensures |r| == width
  {
    if width == 0 then [] else [n % 256] + LittleEndian(n / 256, width - 1)
  }

  /** The length prefix is a 32-bit cast of the length. */
  function EncodeString(s: Str): (r: seq<byte>)
    ensures |r| == 4 + |s|
  {
    LittleEndian(|s| % 0x1_0000_0000, 4) + s
  }

  function EncodeOptionalString(s: Option<Str>): seq<byte> {
    match s
    case None => [0]
    case Some(text) => [1] + EncodeString(text)
  }

  function EncodeOptionalBytes(b: Option<seq<byte>>): seq<byte> {
    match b
    case None => [0]
    case Some(raw) => [1] + raw
  }

  const SIGNING_DOMAIN := "veiron-tx-ed25519-v1"

  function TransactionNetwork(c: Crypto, t: Transaction): Result<Network> {
    var recipient :- ParseAddress(c, t.to);
    match t.from
    case None => Ok(recipient)
    case Some(from) =>
      var sender :- ParseAddress(c, from);
      if sender == recipient then Ok(recipient) else Err(InvalidNetwork)
  }

  function SigningNetworkId(c: Crypto, t: Transaction): (r: Str)
    ensures |r| < 25
  {
    match TransactionNetwork(c, t)
    case Ok(network) => network.NetworkId()
    case Err(_) => Ascii("unknown-network")
  }

  function EncodeParties(t: Transaction): seq<byte> {
    LittleEndian(t.version, 4) + (LittleEndian(t.nonce, 8) +
    (EncodeOptionalString(t.from) + EncodeString(t.to)))
  }

  function EncodeAmounts(t: Transaction): seq<byte> {
    LittleEndian(t.amount, 8) + (LittleEndian(t.maxFee, 8) +
    (LittleEndian(t.priorityFee, 8) + EncodeOptionalBytes(t.memo)))
  }

  function EncodeBody(t: Transaction): seq<byte> { EncodeParties(t) + EncodeAmounts(t) }

  function UnsignedPayload(c: Crypto, t: Transaction): seq<byte> {
    Ascii(SIGNING_DOMAIN) + (EncodeString(SigningNetworkId(c, t)) + EncodeBody(t))
  }

  function Encode(c: Crypto, t: Transaction): seq<byte> {
    if t.senderKey.None? && t.signature.None? then
      EncodeBody(t)
    else
      UnsignedPayload(c, t) + (EncodeOptionalBytes(t.senderKey) + EncodeOptionalBytes(t.signature))
  }

  function TxHash(c: Crypto, t: Transaction): Digest { Sha(Encode(c, t)) }

  function TxHashes(c: Crypto, txs: seq<Transaction>): (r: seq<Digest>)
    ensures |r| == |txs|
    ensures forall i :: 0 <= i < |txs| ==> r[i] == TxHash(c, txs[i])
  {
    seq(|txs|, i requires 0 <= i < |txs| => TxHash(c, txs[i]))
  }

  /** The encoders of the source: one growing buffer, field by field. */
  method PushParties(bytes: seq<byte>, t: Transaction) returns (buffer: seq<byte>)
    ensures buffer == bytes + EncodeParties(t)
  {
    buffer := bytes + LittleEndian(t.version, 4);
    buffer := buffer + LittleEndian(t.nonce, 8);
    buffer := buffer + EncodeOptionalString(t.from);
    buffer := buffer + EncodeString(t.to);
  }

  method PushAmounts(bytes: seq<byte>, t: Transaction) returns (buffer: seq<byte>)
    ensures buffer == bytes + EncodeAmounts(t)
  {
    buffer := bytes + LittleEndian(t.amount, 8);
    buffer := buffer + LittleEndian(t.maxFee, 8);
    buffer := buffer + LittleEndian(t.priorityFee, 8);
    buffer := buffer + EncodeOptionalBytes(t.memo);
  }

  method PushUnsignedPayload(c: Crypto, t: Transaction) returns (buffer: seq<byte>)
    ensures buffer == UnsignedPayload(c, t)
  {
    var header := Ascii(SIGNING_DOMAIN);
    header := header + EncodeString(SigningNetworkId(c, t));
    buffer := PushParties(header, t);
    buffer := PushAmounts(buffer, t);
    Regroup(header, EncodeParties(t), EncodeAmounts(t));
    Regroup(Ascii(SIGNING_DOMAIN), EncodeString(SigningNetworkId(c, t)), EncodeBody(t));
  }

  method EncodeToBuffer(c: Crypto, t: Transaction) returns (bytes: seq<byte>)
    ensures bytes == Encode(c, t)
  {
    if t.senderKey.None? && t.signature.None? {
      bytes := PushParties([], t);
      bytes := PushAmounts(bytes, t);
    } else {
      bytes := PushUnsignedPayload(c, t);
      bytes := bytes + EncodeOptionalBytes(t.senderKey);
      bytes := bytes + EncodeOptionalBytes(t.signature);
    }
  }

  // ----- a decoder that undoes the encoding

  datatype Parsed<+T> = NoParse | Parsed(value: T, rest: seq<byte>) {
    predicate IsFailure() { NoParse? }
    function PropagateFailure<U>(): Parsed<U> requires NoParse? { NoParse }
    function Extract(): (T, seq<byte>) requires Parsed? { (value, rest) }
  }

  function FromLittleEndian(b: seq<byte>): nat {
    if b == [] then 0 else b[0] + 256 * FromLittleEndian(b[1..])
  }

  lemma {:induction false} FromLittleEndianBound(b: seq<byte>, width: nat)
    requires |b| <= width
    ensures FromLittleEndian(b) < Pow256(width)
    decreases width
  {
    if b != [] {
      FromLittleEndianBound(b[1..], width - 1);
    }
  }

  function Pow256(k: nat): nat
    ensures Pow256(k) > 0
  {
    if k == 0 then 1 else 256 * Pow256(k - 1)
  }

  function DecodeU32(b: seq<byte>): Parsed<u32> {
    if |b| < 4 then NoParse else
      assert Pow256(4) == 0x1_0000_0000;
      FromLittleEndianBound(b[..4], 4);
      Parsed(FromLittleEndian(b[..4]), b[4..])
  }

  function DecodeU64(b: seq<byte>): Parsed<u64> {
    if |b| < 8 then NoParse else
      assert Pow256(8) == 256 * 256 * 256 * 256 * Pow256(4);
      assert Pow256(4) == 0x1_0000_0000;
      FromLittleEndianBound(b[..8], 8);
      Parsed(FromLittleEndian(b[..8]), b[8..])
  }

  function DecodeBytes(b: seq<byte>, width: nat): (r: Parsed<seq<byte>>)
    ensures r.Parsed? ==> |r.value| == width
  {
    if |b| < width then NoParse else Parsed(b[..width], b[width..])
  }

  function DecodeString(b: seq<byte>): Parsed<Str> {
    var (length, rest) :- DecodeU32(b);
    DecodeBytes(rest, length)
  }

  function DecodeOptionalString(b: seq<byte>): Parsed<Option<Str>> {
    if b == [] then NoParse
    else if b[0] == 0 then Parsed(None, b[1..])
    else
      var (text, rest) :- DecodeString(b[1..]);
      Parsed(Some(text), rest)
  }

  function DecodeOptionalBytes(b: seq<byte>, width: nat): (r: Parsed<Option<seq<byte>>>)
    ensures r.Parsed? && r.value.Some? ==> |r.value.value| == width
  {
    if b == [] then NoParse
    else if b[0] == 0 then Parsed(None, b[1..])
    else
      var (raw, rest) :- DecodeBytes(b[1..], width);
      Parsed(Some(raw), rest)
  }

  function DecodeParties(b: seq<byte>): Parsed<(u32, u64, Option<Str>, Str)> {
    var (version, b1) :- DecodeU32(b);
    var (nonce, b2) :- DecodeU64(b1);
    var (from, b3) :- DecodeOptionalString(b2);
    var (to, b4) :- DecodeString(b3);
    Parsed((version, nonce, from, to), b4)
  }

  function DecodeAmounts(b: seq<byte>): Parsed<(u64, u64, u64, Option<Bytes32>)> {
    var (amount, b1) :- DecodeU64(b);
    var (maxFee, b2) :- DecodeU64(b1);
    var (priorityFee, b3) :- DecodeU64(b2);
    var (memo, b4) :- DecodeOptionalBytes(b3, 32);
    Parsed((amount, maxFee, priorityFee, memo), b4)
  }

  function DecodeBody(b: seq<byte>): (r: Parsed<Transaction>)
    ensures r.Parsed? ==> r.value.senderKey.None? && r.value.signature.None?
  {
    var (parties, b1) :- DecodeParties(b);
    var (amounts, b2) :- DecodeAmounts(b1);
    Parsed(Transaction(parties.0, parties.1, parties.2, parties.3,
                       amounts.0, amounts.1, amounts.2, amounts.3, None, None), b2)
  }

  function DecodeSigned(b: seq<byte>): Parsed<Transaction> {
    var (_, b1) :- DecodeBytes(b, |SIGNING_DOMAIN|);
    var (_, b2) :- DecodeString(b1);
    var (t, b3) :- DecodeBody(b2);
    var (key, b4) :- DecodeOptionalBytes(b3, 32);
    var (signature, b5) :- DecodeOptionalBytes(b4, 64);
    Parsed(t.(senderKey := key, signature := signature), b5)
  }

  /** Byte 12 is the sender's option tag in the unsigned layout and the character '2' of
      the signing domain in the signed one. */
  function Decode(b: seq<byte>): Option<Transaction> {
    if |b| <= 12 then None else
      match (if b[12] <= 1 then DecodeBody(b) else DecodeSigned(b))
      case NoParse => None
      case Parsed(t, rest) => if rest == [] then Some(t) else None
  }

  ghost predicate Encodable(t: Transaction) {
    |t.to| < 0x1_0000_0000 && (t.from.Some? ==> |t.from.value| < 0x1_0000_0000)
  }

  lemma {:induction false} LittleEndianRoundTrip(n: nat, width: nat)
    requires n < Pow256(width)
    ensures FromLittleEndian(LittleEndian(n, width)) == n
    decreases width
  {
    if width > 0 {
      LittleEndianRoundTrip(n / 256, width - 1);
      assert LittleEndian(n, width)[1..] == LittleEndian(n / 256, width - 1);
    }
  }

  lemma {:induction false} U32RoundTrip(n: u32, rest: seq<byte>)
    ensures DecodeU32(LittleEndian(n, 4) + rest) == Parsed(n, rest)
  {
    assert Pow256(4) == 0x1_0000_0000;
    LittleEndianRoundTrip(n, 4);
    assert (LittleEndian(n, 4) + rest)[..4] == LittleEndian(n, 4);
    assert (LittleEndian(n, 4) + rest)[4..] == rest;
  }

  lemma {:induction false} U64RoundTrip(n: u64, rest: seq<byte>)
    ensures DecodeU64(LittleEndian(n, 8) + rest) == Parsed(n, rest)
  {
    assert Pow256(8) == 256 * 256 * 256 * 256 * Pow256(4);
    assert Pow256(4) == 0x1_0000_0000;
    LittleEndianRoundTrip(n, 8);
    assert (LittleEndian(n, 8) + rest)[..8] == LittleEndian(n, 8);
    assert (LittleEndian(n, 8) + rest)[8..] == rest;
  }

  lemma {:induction false} BytesRoundTrip(raw: seq<byte>, rest: seq<byte>)
    ensures DecodeBytes(raw + rest, |raw|) == Parsed(raw, rest)
  {
    assert (raw + rest)[..|raw|] == raw;
    assert (raw + rest)[|raw|..] == rest;
  }

  lemma {:induction false} StringRoundTrip(s: Str, rest: seq<byte>)
    requires |s| < 0x1_0000_0000
    ensures DecodeString(EncodeString(s) + rest) == Parsed(s, rest)
  {
    assert EncodeString(s) + rest == LittleEndian(|s|, 4) + (s + rest);
    U32RoundTrip(|s|, s + rest);
    BytesRoundTrip(s, rest);
  }

  lemma {:induction false} OptionalStringRoundTrip(s: Option<Str>, rest: seq<byte>)
    requires s.Some? ==> |s.value| < 0x1_0000_0000
    ensures DecodeOptionalString(EncodeOptionalString(s) + rest) == Parsed(s, rest)
  {
    match s
    case None => assert ([0] + rest)[1..] == rest;
    case Some(text) =>
      assert ([1] + EncodeString(text) + rest)[1..] == EncodeString(text) + rest;
      StringRoundTrip(text, rest);
  }

  lemma {:induction false} OptionalBytesRoundTrip(b: Option<seq<byte>>, width: nat, rest: seq<byte>)
    requires b.Some? ==> |b.value| == width
    ensures DecodeOptionalBytes(EncodeOptionalBytes(b) + rest, width) == Parsed(b, rest)
  {
    match b
    case None => assert ([0] + rest)[1..] == rest;
    case Some(raw) =>
      assert ([1] + raw + rest)[1..] == raw + rest;
      BytesRoundTrip(raw, rest);
  }

  lemma {:induction false} PartiesRoundTrip(t: Transaction, rest: seq<byte>)
    requires Encodable(t)
    ensures DecodeParties(EncodeParties(t) + rest) == Parsed((t.version, t.nonce, t.from, t.to), rest)
  {
    var b3 := EncodeString(t.to) + rest;
    var b2 := EncodeOptionalString(t.from) + b3;
    var b1 := LittleEndian(t.nonce, 8) + b2;
    assert EncodeParties(t) + rest == LittleEndian(t.version, 4) + b1;
    U32RoundTrip(t.version, b1);
    U64RoundTrip(t.nonce, b2);
    OptionalStringRoundTrip(t.from, b3);
    StringRoundTrip(t.to, rest);
  }

  lemma {:induction false} AmountsRoundTrip(t: Transaction, rest: seq<byte>)
    ensures DecodeAmounts(EncodeAmounts(t) + rest) == Parsed((t.amount, t.maxFee, t.priorityFee, t.memo), rest)
  {
    var b3 := EncodeOptionalBytes(t.memo) + rest;
    var b2 := LittleEndian(t.priorityFee, 8) + b3;
    var b1 := LittleEndian(t.maxFee, 8) + b2;
    assert EncodeAmounts(t) + rest == LittleEndian(t.amount, 8) + b1;
    U64RoundTrip(t.amount, b1);
    U64RoundTrip(t.maxFee, b2);
    U64RoundTrip(t.priorityFee, b3);
    OptionalBytesRoundTrip(t.memo, 32, rest);
  }

  lemma {:induction false} BodyRoundTrip(t: Transaction, rest: seq<byte>)
    requires Encodable(t)
    ensures DecodeBody(EncodeBody(t) + rest) == Parsed(t.(senderKey := None, signature := None), rest)
  {
    Regroup(EncodeParties(t), EncodeAmounts(t), rest);
    PartiesRoundTrip(t, EncodeAmounts(t) + rest);
    AmountsRoundTrip(t, rest);
  }

  lemma {:induction false} LayoutTags(c: Crypto, t: Transaction)
    ensures |EncodeBody(t)| > 12 && EncodeBody(t)[12] <= 1
    ensures |UnsignedPayload(c, t)| > 12 && UnsignedPayload(c, t)[12] == 50
  {
    assert Ascii(SIGNING_DOMAIN)[12] == 50;
    assert EncodeBody(t)[12] == EncodeOptionalString(t.from)[0];
  }

  /** The unsigned and signed layouts never produce the same bytes, whatever the lengths. */
  lemma {:induction false} LayoutsNeverCollide(c: Crypto, t: Transaction, u: Transaction)
    requires t.senderKey.None? && t.signature.None?
    requires u.senderKey.Some? || u.signature.Some?
    ensures Encode(c, t) != Encode(c, u)
  {
    LayoutTags(c, t);
    LayoutTags(c, u);
    assert Encode(c, u)[12] == UnsignedPayload(c, u)[12];
  }

  lemma {:induction false} SignedRoundTrip(c: Crypto, t: Transaction)
    requires Encodable(t)
    ensures DecodeSigned(UnsignedPayload(c, t) + (EncodeOptionalBytes(t.senderKey) + EncodeOptionalBytes(t.signature)))
         == Parsed(t, [])
  {
    var b3 := EncodeOptionalBytes(t.senderKey) + EncodeOptionalBytes(t.signature);
    var b2 := EncodeBody(t) + b3;
    var b1 := EncodeString(SigningNetworkId(c, t)) + b2;
    Regroup(Ascii(SIGNING_DOMAIN), EncodeString(SigningNetworkId(c, t)) + EncodeBody(t), b3);
    Regroup(EncodeString(SigningNetworkId(c, t)), EncodeBody(t), b3);
    BytesRoundTrip(Ascii(SIGNING_DOMAIN), b1);
    StringRoundTrip(SigningNetworkId(c, t), b2);
    BodyRoundTrip(t, b3);
    OptionalBytesRoundTrip(t.senderKey, 32, EncodeOptionalBytes(t.signature));
    assert EncodeOptionalBytes(t.signature) + [] == EncodeOptionalBytes(t.signature);
    OptionalBytesRoundTrip(t.signature, 64, []);
  }

  lemma {:induction false} EncodableRoundTrips(c: Crypto, t: Transaction)
    requires Encodable(t)
    ensures Decode(Encode(c, t)) == Some(t)
  {
    LayoutTags(c, t);
    if t.senderKey.None? && t.signature.None? {
      BodyRoundTrip(t, []);
      assert EncodeBody(t) + [] == EncodeBody(t);
    } else {
      assert Encode(c, t)[12] == UnsignedPayload(c, t)[12];
      SignedRoundTrip(c, t);
    }
  }

  /** The decoder only ever yields strings that fit their length prefix. */
  lemma {:induction false} DecodedIsEncodable(b: seq<byte>)
    ensures Decode(b).Some? ==> Encodable(Decode(b).value)
  {
    hide DecodeString, DecodeU32, DecodeU64, DecodeBytes, DecodeAmounts, DecodeOptionalBytes;
    forall raw: seq<byte> ensures DecodeString(raw).Parsed? ==> |DecodeString(raw).value| < 0x1_0000_0000 {
      DecodedStringIsShort(raw);
    }
  }

  lemma {:induction false} DecodedStringIsShort(b: seq<byte>)
    ensures DecodeString(b).Parsed? ==> |DecodeString(b).value| < 0x1_0000_0000
  {
  }

  /** Decoding undoes encoding exactly for the transactions whose strings fit their length
      prefix. */
  lemma {:induction false} EncodingRoundTrip(c: Crypto, t: Transaction)
    ensures Decode(Encode(c, t)) == Some(t) <==> Encodable(t)
  {
    hide Encode, Decode;
    DecodedIsEncodable(Encode(c, t));
    if Encodable(t) {
      EncodableRoundTrips(c, t);
    }
  }

  /** A transaction hash determines the transaction. */
  lemma {:induction false} EncodingInjective(c: Crypto, t: Transaction, u: Transaction)
    requires Encodable(t) && Encodable(u)
    requires TxHash(c, t) == TxHash(c, u)
    ensures t == u
  {
    EncodableRoundTrips(c, t);
    EncodableRoundTrips(c, u);
  }

  lemma {:induction false} LongZeroString(zeros: Str)
    requires |zeros| == 0x1_0000_0000 && forall i :: 0 <= i < |zeros| ==> zeros[i] == 0
    ensures EncodeOptionalString(Some(zeros)) + EncodeString([]) ==
            EncodeOptionalString(Some([])) + EncodeString(zeros)
  {
    var length := LittleEndian(0, 4);
    assert length == [0, 0, 0, 0];
    assert EncodeString(zeros) == length + zeros;
    assert zeros + length == length + zeros;
    assert [1] + (length + zeros) + length == [1] + length + (length + zeros);
  }

  /** The length bound is needed: a 2^32-byte string is written with length zero, and its
      bytes can then be read as the next field. */
  lemma {:induction false} LongStringsCollide(c: Crypto, t: Transaction, zeros: Str)
    requires |zeros| == 0x1_0000_0000 && forall i :: 0 <= i < |zeros| ==> zeros[i] == 0
    requires t.from == Some(zeros) && t.to == [] && t.senderKey.None? && t.signature.None?
    ensures var u := t.(from := Some([]), to := zeros);
            t != u && Encode(c, t) == Encode(c, u)
  {
    LongZeroString(zeros);
    assert EncodeAmounts(t) == EncodeAmounts(t.(from := Some([]), to := zeros));
  }

  // ----- fees

  function EffectivePriorityFee(t: Transaction, baseFee: u64): Result<u64> {
    if t.IsCoinbase() then Ok(0)
    else if t.maxFee < baseFee then Err(InvalidFee)
    else if t.priorityFee > t.maxFee - baseFee then Ok(t.maxFee - baseFee)
    else Ok(t.priorityFee)
  }

  function EffectiveFee(t: Transaction, baseFee: u64): Result<u64> {
    if t.IsCoinbase() then Ok(0) else
      var tip :- EffectivePriorityFee(t, baseFee);
      CheckedAdd(baseFee, tip)
  }

  function TotalDebit(t: Transaction, baseFee: u64): Result<u64> {
    var fee :- EffectiveFee(t, baseFee);
    CheckedAdd(t.amount, fee)
  }

  function ValidateFee(t: Transaction, baseFee: u64): Result<()> {
    if t.IsCoinbase() then Ok(())
    else Need(t.maxFee >= baseFee, InvalidFee)
  }

  /** What the miner gets of a spend whose maximum covers the base fee. */
  ghost function TipPaid(t: Transaction, baseFee: u64): int {
    if t.IsCoinbase() then 0 else Min(t.priorityFee, t.maxFee - baseFee)
  }

  lemma {:induction false} AffordableFees(t: Transaction, baseFee: u64)
    requires ValidateFee(t, baseFee).Ok?
    ensures EffectivePriorityFee(t, baseFee) == Ok(TipPaid(t, baseFee))
    ensures EffectiveFee(t, baseFee) == Ok(TipPaid(t, baseFee) + if t.IsCoinbase() then 0 else baseFee)
  {
  }

  // ----- shape and signature

  predicate IsBlank(s: Str) {
    forall i :: 0 <= i < |s| ==> s[i] == 32 || 9 <= s[i] <= 13
  }

  function ValidateShape(c: Crypto, t: Transaction): Result<()> {
    var _ :- Need(!IsBlank(t.to), InvalidTransaction);
    var recipient :- ParseAddress(c, t.to);
    var _ :- Need(t.amount != 0, ZeroAmountTransaction);
    var _ :- Need(t.maxFee <= MAX_SUPPLY && t.priorityFee <= MAX_SUPPLY, InvalidFee);
    if t.IsCoinbase() then
      Need(t.maxFee == 0 && t.priorityFee == 0, InvalidTransaction)
    else
      var _ :- Need(t.priorityFee <= t.maxFee, InvalidFee);
      var _ :- Need(t.from.Some? ==> !IsBlank(t.from.value), InvalidTransaction);
      var _ :- Need(t.senderKey.Some? == t.signature.Some?, InvalidTransaction);
      match t.from
      case None => Ok(())
      case Some(from) =>
        var sender :- ParseAddress(c, from);
        Need(sender == recipient, InvalidNetwork)
  }

  function Verify(c: Crypto, t: Transaction): Result<()> {
    var _ :- ValidateShape(c, t);
    if t.IsCoinbase() then Ok(()) else
      var _ :- Need(t.from.Some? && t.senderKey.Some? && t.signature.Some?, InvalidTransaction);
      var sender :- ParseAddress(c, t.from.value);
      var recipient :- ParseAddress(c, t.to);
      var _ :- Need(sender == recipient, InvalidNetwork);
      var _ :- Need(c.deriveAddress(t.senderKey.value, sender) == t.from.value, InvalidTransaction);
      Need(c.signatureOk(t.senderKey.value, UnsignedPayload(c, t), t.signature.value), InvalidSignature)
  }

  /** Whatever a signature check accepts is either a coinbase in the unsigned layout or a
      spend that carries sender, key and signature, on one network. */
  lemma {:induction false} VerifiedShape(c: Crypto, t: Transaction)
    requires Verify(c, t).Ok?
    ensures t.amount != 0 && c.addressNetwork(t.to).Some?
    ensures TransactionNetwork(c, t).Ok?
    ensures t.IsCoinbase() ||
            (t.from.Some? && t.senderKey.Some? && t.signature.Some? && c.addressNetwork(t.from.value).Some?)
    ensures t.maxFee <= MAX_SUPPLY && t.priorityFee <= MAX_SUPPLY
  {
  }

  /** What holds of every transaction before anyone signs it: a recipient that is an address,
      something to move, and fees below the supply. */
  ghost predicate WellShaped(c: Crypto, t: Transaction) {
    && HasText(t.to) && c.addressNetwork(t.to).Some? && t.amount > 0
    && t.priorityFee <= t.maxFee <= MAX_SUPPLY
    && (t.IsCoinbase() ==> t.maxFee == 0)
    && (t.from.Some? ==> HasText(t.from.value) && c.addressNetwork(t.from.value) == c.addressNetwork(t.to))
  }

  /** Some character is no blank, tab, line feed, vertical tab, form feed or carriage return. */
  ghost predicate HasText(s: Str) { exists b :: b in s && b !in [32, 9, 10, 11, 12, 13] }

  lemma {:induction false} BlankHasNoText(s: Str)
    ensures IsBlank(s) <==> !HasText(s)
  {
    if !IsBlank(s) {
      var i :| 0 <= i < |s| && !(s[i] == 32 || 9 <= s[i] <= 13);
      assert s[i] in s;
    }
  }

  /** The sender's address derives from the key that is given, and that key signed all other
      fields. */
  ghost predicate SignedBySender(c: Crypto, t: Transaction) {
    && t.from.Some? && t.senderKey.Some? && t.signature.Some? && c.addressNetwork(t.from.value).Some?
    && c.deriveAddress(t.senderKey.value, c.addressNetwork(t.from.value).value) == t.from.value
    && c.signatureOk(t.senderKey.value, UnsignedPayload(c, t), t.signature.value)
  }

  /** A spend is accepted exactly if it is well shaped and signed by its sender; a coinbase
      needs the shape alone. */
  lemma {:induction false} VerifyMeaning(c: Crypto, t: Transaction)
    ensures Verify(c, t).Ok? <==> WellShaped(c, t) && (t.IsCoinbase() || SignedBySender(c, t))
  {
    hide UnsignedPayload, IsBlank, HasText;
    BlankHasNoText(t.to);
    if t.from.Some? { BlankHasNoText(t.from.value); }
  }

  /** What is signed names the network, whichever way either side reads addresses: a signature
      for one network is none for another. */
  lemma {:induction false} SignatureNamesNetwork(c: Crypto, d: Crypto, t: Transaction, u: Transaction)
    requires UnsignedPayload(c, t) == UnsignedPayload(d, u)
    ensures SigningNetworkId(c, t) == SigningNetworkId(d, u)
    ensures TransactionNetwork(c, t).Ok? && TransactionNetwork(d, u).Ok? ==>
            TransactionNetwork(c, t) == TransactionNetwork(d, u)
  {
    hide EncodeBody, DecodeString, EncodeString, SigningNetworkId, TransactionNetwork;
    var domain := Ascii(SIGNING_DOMAIN);
    assert UnsignedPayload(c, t)[|domain|..] == EncodeString(SigningNetworkId(c, t)) + EncodeBody(t);
    assert UnsignedPayload(d, u)[|domain|..] == EncodeString(SigningNetworkId(d, u)) + EncodeBody(u);
    StringRoundTrip(SigningNetworkId(c, t), EncodeBody(t));
    StringRoundTrip(SigningNetworkId(d, u), EncodeBody(u));
    if TransactionNetwork(c, t).Ok? && TransactionNetwork(d, u).Ok? {
      IdNamesNetwork(c, d, t, u);
    }
  }

  lemma {:induction false} IdNamesNetwork(c: Crypto, d: Crypto, t: Transaction, u: Transaction)
    requires TransactionNetwork(c, t).Ok? && TransactionNetwork(d, u).Ok?
    ensures SigningNetworkId(c, t) == SigningNetworkId(d, u) ==> TransactionNetwork(c, t) == TransactionNetwork(d, u)
  {
    hide TransactionNetwork;
    assert |Devnet.NetworkId()| == 13 && |Testnet.NetworkId()| == 14 && |MainnetCandidate.NetworkId()| == 24;
  }

  lemma {:induction false} PayloadIgnoresSignature(c: Crypto, t: Transaction)
    ensures UnsignedPayload(c, t.(senderKey := None, signature := None)) == UnsignedPayload(c, t)
    ensures TransactionNetwork(c, t.(senderKey := None, signature := None)) == TransactionNetwork(c, t)
  {
    hide LittleEndian, EncodeString;
  }

  /** What is signed determines every field but the key and the signature themselves, and the
      network the transaction is for. */
  lemma {:induction false} SignatureCommits(c: Crypto, t: Transaction, u: Transaction)
    requires Encodable(t) && Encodable(u) && UnsignedPayload(c, t) == UnsignedPayload(c, u)
    ensures t.(senderKey := None, signature := None) == u.(senderKey := None, signature := None)
    ensures TransactionNetwork(c, t) == TransactionNetwork(c, u)
  {
    hide DecodeSigned, EncodeOptionalBytes, UnsignedPayload, TransactionNetwork;
    var bare, other := t.(senderKey := None, signature := None), u.(senderKey := None, signature := None);
    PayloadIgnoresSignature(c, t);
    PayloadIgnoresSignature(c, u);
    SignedRoundTrip(c, bare);
    SignedRoundTrip(c, other);
  }
}

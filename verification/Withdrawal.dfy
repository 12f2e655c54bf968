/** Commitments, the client's withdrawal inputs, and the circuit they are checked by. */
module Withdrawal {
  import opened Base
  import opened Bytes
  import opened MerklePath
  import opened Notes
  import opened Numerals

  /** Poseidon over one, two and three inputs, as uninterpreted functions. */
  datatype Poseidon = Poseidon(one: int -> nat, two: Hash2, three: (int, int, int) -> nat)

  /** Hash values are elements of a field smaller than 2^256. */
  ghost predicate FieldValued(p: Poseidon) {
    && (forall x :: p.one(x) < TWO_TO_256)
    && (forall x, y, z :: p.three(x, y, z) < TWO_TO_256)
  }

  function CommitmentOf(p: Poseidon, secret: int, nullifier: int, amount: int): (r: seq<Byte>)
    ensures |r| == 32
  {
    Bytes32BE(p.three(secret, nullifier, amount))
  }

  method ComputeCommitment(p: Poseidon, secret: int, nullifier: int, amount: int) returns (commitment: seq<Byte>)
    ensures commitment == CommitmentOf(p, secret, nullifier, amount)
  {
    var hash := p.three(secret, nullifier, amount);
    commitment := BigintToBytes32BE(hash);
  }

  function NullifierHashOf(p: Poseidon, nullifier: int): (r: seq<Byte>)
    ensures |r| == 32
  {
    Bytes32BE(p.one(nullifier))
  }

  method ComputeNullifierHash(p: Poseidon, nullifier: int) returns (hash: seq<Byte>)
    ensures hash == NullifierHashOf(p, nullifier)
  {
    hash := BigintToBytes32BE(p.one(nullifier));
  }

  // ---- The circuit ---------------------------------------------------------------------------------

  datatype Inputs = Inputs(
    merkleRoot: int,
    nullifierHash: int,
    recipient: int,
    amount: int,
    fee: int,
    secret: int,
    nullifier: int,
    merklePath: seq<int>,
    pathIndices: seq<int>
  )

  /** Every constraint of the Withdrawal template. */
  predicate Satisfies(p: Poseidon, depth: nat, w: Inputs) {
    && |w.merklePath| == |w.pathIndices| == depth
    && w.nullifierHash == p.one(w.nullifier)
    && w.merkleRoot == PathRoot(p.two, p.three(w.secret, w.nullifier, w.amount), w.merklePath, w.pathIndices)
    && w.amount > w.fee
  }

  /** The deposited triple and the witness's do not collide, and neither do the nodes above them; a
      commitment is not the zero that stands for an empty leaf. */
  predicate ApartFrom(p: Poseidon, depth: nat, index: nat, secret: int, nullifier: int, amount: int, w: Inputs)
    requires |w.merklePath| == |w.pathIndices| == depth
  {
    var leaf, committed := p.three(w.secret, w.nullifier, w.amount), p.three(secret, nullifier, amount);
    && leaf != 0
    && (leaf == committed ==> w.secret == secret && w.nullifier == nullifier && w.amount == amount)
    && PathApart(p.two, OneLeaf(depth, index, committed), leaf, w.merklePath, w.pathIndices)
  }

  /** Soundness: against the root of a deposit, the circuit only accepts that deposit's own secret,
      nullifier, amount and position. So its nullifier hash is the only one, and it is paid once. */
  lemma OnlyTheDepositSatisfies(p: Poseidon, depth: nat, index: nat, secret: int, nullifier: int, amount: int, w: Inputs)
    requires index < Pow(2, depth) && Satisfies(p, depth, w) && ApartFrom(p, depth, index, secret, nullifier, amount, w)
    requires w.merkleRoot == TreeRoot(p.two, OneLeaf(depth, index, p.three(secret, nullifier, amount)), depth)
    ensures w.secret == secret && w.nullifier == nullifier && w.amount == amount
    ensures w.nullifierHash == p.one(nullifier) && Position(w.pathIndices) == index
  {
    var leaf := p.three(w.secret, w.nullifier, w.amount);
    AcceptedPathIsMembership(p.two, OneLeaf(depth, index, p.three(secret, nullifier, amount)), leaf, w.merklePath, w.pathIndices);
  }

  // ---- The client ------------------------------------------------------------------------------------

  /** The wrapped and the plain leaf index name one leaf. */
  function LeafOf(depth: nat, leafIndex: nat): (r: nat)
    ensures r < Pow(2, depth)
  {
    leafIndex % Pow(2, depth)
  }

  /** Root of the tree that holds one deposit. */
  function DepositRoot(p: Poseidon, depth: nat, note: DepositNoteData, leafIndex: nat): int {
    TreeRoot(p.two, OneLeaf(depth, LeafOf(depth, leafIndex), p.three(note.secret, note.nullifier, note.amount)), depth)
  }

  /** Through bytes and back: the recomputed commitment is the hash itself. */
  method RecomputeCommitment(p: Poseidon, note: DepositNoteData) returns (value: int)
    requires FieldValued(p)
    ensures value == p.three(note.secret, note.nullifier, note.amount)
  {
    var commitment := ComputeCommitment(p, note.secret, note.nullifier, note.amount);
    Bytes32RoundTrip(p.three(note.secret, note.nullifier, note.amount));
    var read := Bytes32ToBigint(commitment);
    value := read.value;
  }

  method RecomputeNullifierHash(p: Poseidon, note: DepositNoteData) returns (value: int)
    requires FieldValued(p)
    ensures value == p.one(note.nullifier)
  {
    var hash := ComputeNullifierHash(p, note.nullifier);
    Bytes32RoundTrip(p.one(note.nullifier));
    var read := Bytes32ToBigint(hash);
    value := read.value;
  }

  method RecipientValue(recipient: Key) returns (value: int)
    ensures Bytes32BE(value) == recipient
  {
    BigintRoundTrip(recipient);
    var read := Bytes32ToBigint(recipient);
    value := read.value;
  }

  /** What generateWithdrawalProof gives the prover; the source fixes `depth` to MERKLE_DEPTH. The
      circuit is satisfied exactly when the fee leaves something over. */
  method WithdrawalInputs(p: Poseidon, depth: nat, note: DepositNoteData, leafIndex: nat, recipient: Key, fee: int)
    returns (inputs: Inputs)
    requires FieldValued(p) && leafIndex < 0x1_0000_0000 && depth <= 32
    ensures Satisfies(p, depth, inputs) <==> note.amount > fee
    ensures inputs.merkleRoot == DepositRoot(p, depth, note, leafIndex)
    ensures inputs.nullifierHash == p.one(note.nullifier)
    ensures inputs.amount == note.amount && inputs.fee == fee
    ensures inputs.secret == note.secret && inputs.nullifier == note.nullifier
    ensures Bytes32BE(inputs.recipient) == recipient
    ensures Position(inputs.pathIndices) == LeafOf(depth, leafIndex)
  {
    var commitment := RecomputeCommitment(p, note);
    var pathElements, pathIndices, root := ComputeMerklePath(p.two, depth, commitment, leafIndex);
    var nullifierHash := RecomputeNullifierHash(p, note);
    var recipientBigint := RecipientValue(recipient);
    inputs := Inputs(root, nullifierHash, recipientBigint, note.amount, fee, note.secret, note.nullifier, pathElements, pathIndices);
  }

  /** BigInt division truncates toward zero. */
  function Truncated(a: int, d: int): int
    requires d > 0
  {
    if a >= 0 then a / d else -(-a / d)
  }

  function FeeOf(amount: int, feeBps: nat): int {
    Truncated(amount * feeBps, 10000)
  }

  /** The fee is the rate's share in basis points, rounded toward zero. */
  lemma FeeIs(amount: int, feeBps: nat)
    ensures amount >= 0 ==> 10000 * FeeOf(amount, feeBps) <= amount * feeBps < 10000 * (FeeOf(amount, feeBps) + 1)
    ensures amount < 0 ==> 10000 * (FeeOf(amount, feeBps) - 1) < amount * feeBps <= 10000 * FeeOf(amount, feeBps)
  {
    ProductSign(amount, feeBps);
  }

  lemma ProductSign(a: int, n: nat)
    ensures a >= 0 ==> a * n >= 0
    ensures a < 0 ==> a * n <= 0
  {
  }

  lemma FeeBelowAmountIff(amount: nat, feeBps: nat)
    ensures amount * feeBps >= 0 && FeeOf(amount, feeBps) >= 0
    ensures 10000 * FeeOf(amount, feeBps) <= amount * feeBps < 10000 * (FeeOf(amount, feeBps) + 1)
    ensures amount > FeeOf(amount, feeBps) <==> amount > 0 && feeBps < 10000
  {
    var product := amount * feeBps;
    FeeIs(amount, feeBps);
    assert product >= 0;
    if feeBps >= 10000 {
      assert product == amount * 10000 + amount * (feeBps - 10000);
      assert amount * (feeBps - 10000) >= 0;
      QuotientAtLeast(product, 10000, amount);
    } else {
      assert product == amount * 10000 - amount * (10000 - feeBps);
      if amount > 0 {
        MulAtLeast(amount, 10000 - feeBps);
        QuotientBelow(product, 10000, amount);
      }
    }
  }

  lemma QuotientAtLeast(n: nat, d: nat, m: nat)
    requires d > 0 && n >= m * d
    ensures n / d >= m
  {
    var q := n / d;
    DivMod(n, d);
    assert q < m ==> (m - q) * d >= d by {
      if q < m { MulAtLeast(m - q, d); }
    }
    assert (m - q) * d == m * d - q * d;
  }

  datatype Request =
    Request(inputs: Inputs, merkleRoot: string, nullifierHash: string, recipient: string, amount: string, fee: string)

  /** executeWithdraw up to the submission, with the fee rate the pool account shows. `publicKey` is
      the decoding of an address. */
  method ExecuteWithdraw(p: Poseidon, depth: nat, note: DepositNoteData, leafIndex: nat, recipientAddress: string,
                         publicKey: string -> Key, feeBps: nat)
    returns (request: Request)
    requires FieldValued(p) && leafIndex < 0x1_0000_0000 && depth <= 32
    ensures note.amount >= 0 ==> (Satisfies(p, depth, request.inputs) <==> note.amount > 0 && feeBps < 10000)
    ensures Satisfies(p, depth, request.inputs) <==> note.amount > request.inputs.fee
    ensures request.inputs.merkleRoot == DepositRoot(p, depth, note, leafIndex)
    ensures var root := request.inputs.merkleRoot;
      0 <= root < TWO_TO_256 ==> BytesValue(HexBytes(request.merkleRoot)) == Some(root)
    ensures HexBytes(request.nullifierHash) == NullifierHashOf(p, note.nullifier)
    ensures ParseBigInt(request.amount) == Some(note.amount) && ParseBigInt(request.fee) == Some(request.inputs.fee)
    ensures var fee := request.inputs.fee;
      if note.amount >= 0 then 10000 * fee <= note.amount * feeBps < 10000 * (fee + 1)
      else 10000 * (fee - 1) < note.amount * feeBps <= 10000 * fee
    ensures request.recipient == recipientAddress && Bytes32BE(request.inputs.recipient) == publicKey(recipientAddress)
    ensures request.inputs.amount == note.amount && request.inputs.secret == note.secret
    ensures request.inputs.nullifier == note.nullifier && request.inputs.nullifierHash == p.one(note.nullifier)
    ensures Position(request.inputs.pathIndices) == LeafOf(depth, leafIndex)
  {
    var nullifierHash := ComputeNullifierHash(p, note.nullifier);
    var nullifierHex := BytesToHex(nullifierHash);
    var fee := FeeOf(note.amount, feeBps);
    FeeIs(note.amount, feeBps);
    if note.amount >= 0 {
      FeeBelowAmountIff(note.amount, feeBps);
    }
    var inputs := WithdrawalInputs(p, depth, note, leafIndex, publicKey(recipientAddress), fee);
    HexRoundTrip(nullifierHash);
    BigIntRoundTrip(note.amount);
    BigIntRoundTrip(fee);
    var root := BufferFromHex(PadStart(HexText(inputs.merkleRoot), 64));
    HexRoundTrip(root);
    if 0 <= inputs.merkleRoot < TWO_TO_256 {
      Bytes32RoundTrip(inputs.merkleRoot);
    }
    request := Request(inputs, BytesToHex(root), nullifierHex, recipientAddress, Decimal(note.amount), Decimal(fee));
  }
}

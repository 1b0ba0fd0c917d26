/** Heights, pools, decoded blocks and the per-block ledger built from them. */
module Ledger {
  import opened Wrappers
  import opened Money

  datatype Network = Mainnet | Testnet {
    function ActivationHeight(): u32 {
      match this
      case Mainnet => 3_428_143
      case Testnet => 4_134_000
    }

    predicate IsPostActivation(height: u32) {
      height >= ActivationHeight()
    }
  }

  /** Where the boundary lies on each network: the two heights that decide every activation rule. */
  lemma ActivationExact(height: u32)
    ensures Mainnet.IsPostActivation(height) <==> height > 3_428_142
    ensures Testnet.IsPostActivation(height) <==> height > 4_133_999
  {
  }

  /** An interval of heights; the anchor is the block just before `start`. */
  datatype HeightInterval = HeightInterval(anchor: u32, start: u32, end: u32) {
    predicate Valid() {
      anchor + 1 == start <= end
    }

    predicate Contains(height: u32) {
      start <= height <= end
    }

    function BlockCount(): (count: nat)
      requires Valid()
    {
      end - start + 1
    }
  }

  function NewInterval(start: u32, end: u32): (r: Result<HeightInterval>)
    ensures r.Ok? <==> 0 < start <= end
    ensures r.Ok? ==> r.value.Valid() && r.value.start == start && r.value.end == end
    ensures r.Err? ==> r.error == InvalidInterval
  {
    if end < start then Err(InvalidInterval)
    else if start == 0 then Err(InvalidInterval)
    else Ok(HeightInterval(start - 1, start, end))
  }

  datatype Pool = Transparent | Sprout | Sapling | Orchard | Lockbox | Ironwood

  /** The pools reconstructed from transaction data. */
  const RECONSTRUCTED: seq<Pool> := [Orchard, Ironwood]

  predicate IsReconstructed(pool: Pool) {
    pool == Orchard || pool == Ironwood
  }

  /** What a node reported after a block; a pool absent from a map was not reported. */
  datatype ReportedPoolState = ReportedPoolState(
    height: u32, balances: map<Pool, Zatoshi>, deltas: map<Pool, Zatoshi>) {
    function Balance(pool: Pool): Option<Zatoshi> {
      if pool in balances then Some(balances[pool]) else None
    }

    function Delta(pool: Pool): Option<Zatoshi> {
      if pool in deltas then Some(deltas[pool]) else None
    }

    function RequireBalance(pool: Pool): Result<Zatoshi> {
      if pool in balances then Ok(balances[pool]) else Err(CaptureIncomplete)
    }
  }

  /** A figure is reported exactly when the map it belongs to has it. */
  lemma ReportedExact(state: ReportedPoolState, pool: Pool, figure: Zatoshi)
    ensures state.Balance(pool) == Some(figure) <==> (pool, figure) in state.balances.Items
    ensures state.Delta(pool) == Some(figure) <==> (pool, figure) in state.deltas.Items
    ensures state.RequireBalance(pool) == Ok(figure) <==> (pool, figure) in state.balances.Items
    ensures state.RequireBalance(pool).Err? <==> pool !in state.balances.Keys
  {
  }

  /** A pool-state record: the block it says it describes and the figures the node served. */
  datatype CapturedBlockState = CapturedBlockState(
    height: u32, blockHash: string, pools: ReportedPoolState)

  /** A decoded transaction; an absent bundle carries no value balance. */
  datatype RawTransaction = RawTransaction(
    txid: string, branchId: u32, orchardBalance: Option<i64>, ironwoodBalance: Option<i64>) {
    function ValueBalance(pool: Pool): Option<i64> {
      match pool
      case Orchard => orchardBalance
      case Ironwood => ironwoodBalance
      case _ => None
    }

    /** The specified change to a pool: the negated value balance, nothing without a bundle. */
    ghost function Movement(pool: Pool): int {
      match ValueBalance(pool)
      case Some(balance) => -(balance as int)
      case None => 0
    }
  }

  datatype RawBlock = RawBlock(
    claimedHeight: u32, hash: string, previousHash: string, transactions: seq<RawTransaction>) {
    ghost function Movements(pool: Pool): seq<int> {
      seq(|transactions|, i requires 0 <= i < |transactions| => transactions[i].Movement(pool))
    }

    /** The block's whole effect on a pool, over unbounded integers. */
    ghost function Movement(pool: Pool): int {
      Sum(Movements(pool))
    }
  }

  datatype TransactionPoolDelta = TransactionPoolDelta(
    txid: string, blockHeight: u32, txIndex: u32, orchardDelta: Zatoshi, ironwoodDelta: Zatoshi) {
    function Delta(pool: Pool): Zatoshi {
      match pool
      case Orchard => orchardDelta
      case Ironwood => ironwoodDelta
      case _ => 0
    }
  }

  datatype ParsedBlock = ParsedBlock(
    claimedHeight: u32, blockHash: string, previousBlockHash: string,
    transactions: seq<TransactionPoolDelta>)

  function BundleDelta(valueBalance: Option<i64>): Result<Zatoshi> {
    match valueBalance
    case Some(balance) => PoolDelta(balance)
    case None => Ok(0)
  }

  function ExtractDelta(tx: RawTransaction, height: u32, index: u32, branchId: u32)
    : Result<TransactionPoolDelta>
  {
    if tx.branchId != branchId then Err(BranchIdMismatch(branchId, tx.branchId))
    else
      var orchard, ironwood := BundleDelta(tx.orchardBalance), BundleDelta(tx.ironwoodBalance);
      if orchard.Err? || ironwood.Err? then Err(TransactionParse(height, index))
      else Ok(TransactionPoolDelta(tx.txid, height, index, orchard.value, ironwood.value))
  }

  /** A transaction that can be read: right branch, and both value balances in the money range. */
  ghost predicate Readable(tx: RawTransaction, branchId: u32) {
    && tx.branchId == branchId
    && forall pool: Pool :: tx.ValueBalance(pool).Some? ==> InMoneyRange(tx.ValueBalance(pool).value)
  }

  /** What is wrong with a transaction that cannot be read: its branch first, then its value balances. */
  function Unreadable(tx: RawTransaction, height: u32, index: nat, branchId: u32): ReconcileError {
    if tx.branchId != branchId then BranchIdMismatch(branchId, tx.branchId) else TransactionParse(height, index)
  }

  /** A transaction yields its specified movements exactly when it is readable. */
  lemma ExtractDeltaExact(tx: RawTransaction, height: u32, index: u32, branchId: u32)
    ensures ExtractDelta(tx, height, index, branchId).Ok? <==> Readable(tx, branchId)
    ensures !Readable(tx, branchId) ==>
              ExtractDelta(tx, height, index, branchId) == Err(Unreadable(tx, height, index, branchId))
    ensures ExtractDelta(tx, height, index, branchId).Ok? ==>
              forall pool: Pool ::
                ExtractDelta(tx, height, index, branchId).value.Delta(pool) == tx.Movement(pool)
  {
    assert tx.ValueBalance(Orchard) == tx.orchardBalance;
    assert tx.ValueBalance(Ironwood) == tx.ironwoodBalance;
  }

  /** The error a block that does not parse gives: a foreign height, or the first transaction that cannot
      be read or indexed. */
  ghost predicate ParseError(raw: RawBlock, expectedHeight: u32, branchId: u32, error: ReconcileError) {
    if raw.claimedHeight != expectedHeight then error == BlockContinuity(expectedHeight, ClaimedHeightDiffers)
    else
      exists i | 0 <= i < |raw.transactions| ::
        && (forall k | 0 <= k < i :: Readable(raw.transactions[k], branchId))
        && if i > U32_MAX then error == TransactionParse(expectedHeight, 0)
           else
             && !Readable(raw.transactions[i], branchId)
             && error == Unreadable(raw.transactions[i], expectedHeight, i, branchId)
  }

  /** Reads a block's transactions in order, stopping at the first that cannot be used. */
  method ParseBlock(raw: RawBlock, expectedHeight: u32, branchId: u32) returns (r: Result<ParsedBlock>)
    ensures r.Ok? <==>
            && raw.claimedHeight == expectedHeight
            && |raw.transactions| <= U32_MAX + 1
            && forall i | 0 <= i < |raw.transactions| :: Readable(raw.transactions[i], branchId)
    ensures r.Ok? ==> Represents(r.value, raw)
    ensures r.Err? ==> ParseError(raw, expectedHeight, branchId, r.error)
  {
    if raw.claimedHeight != expectedHeight {
      return Err(BlockContinuity(expectedHeight, ClaimedHeightDiffers));
    }
    var transactions: seq<TransactionPoolDelta> := [];
    for i := 0 to |raw.transactions|
      invariant |transactions| == i <= U32_MAX + 1
      invariant forall k | 0 <= k < i :: Readable(raw.transactions[k], branchId)
      invariant forall k | 0 <= k < i :: SameMovement(transactions[k], raw.transactions[k])
      invariant forall k | 0 <= k < i ::
                  transactions[k].blockHeight == raw.claimedHeight && transactions[k].txIndex == k
    {
      var tx := raw.transactions[i];
      if i > U32_MAX {
        return Err(TransactionParse(raw.claimedHeight, 0));
      }
      ExtractDeltaExact(tx, raw.claimedHeight, i, branchId);
      var delta :- ExtractDelta(tx, raw.claimedHeight, i, branchId);
      transactions := transactions + [delta];
    }
    r := Ok(ParsedBlock(raw.claimedHeight, raw.hash, raw.previousHash, transactions));
  }

  ghost predicate SameMovement(delta: TransactionPoolDelta, tx: RawTransaction) {
    delta.txid == tx.txid && forall pool: Pool :: delta.Delta(pool) == tx.Movement(pool)
  }

  /** The parsed form carries the block's own links and, transaction by transaction in block
      order, the specified movement of each pool. */
  ghost predicate Represents(block: ParsedBlock, raw: RawBlock) {
    && block.claimedHeight == raw.claimedHeight
    && block.blockHash == raw.hash
    && block.previousBlockHash == raw.previousHash
    && |block.transactions| == |raw.transactions|
    && forall i | 0 <= i < |raw.transactions| ::
         && SameMovement(block.transactions[i], raw.transactions[i])
         && block.transactions[i].blockHeight == raw.claimedHeight
         && block.transactions[i].txIndex == i
  }

  function DeltasOf(transactions: seq<TransactionPoolDelta>, pool: Pool): (ds: seq<Zatoshi>)
    ensures |ds| == |transactions|
    ensures forall i | 0 <= i < |ds| :: ds[i] == transactions[i].Delta(pool)
  {
    seq(|transactions|, i requires 0 <= i < |transactions| => transactions[i].Delta(pool))
  }

  datatype BlockLedger = BlockLedger(
    height: u32, blockHash: string, previousBlockHash: string,
    orchardDelta: Zatoshi, ironwoodDelta: Zatoshi, transactions: seq<TransactionPoolDelta>) {
    function Delta(pool: Pool): Zatoshi {
      match pool
      case Orchard => orchardDelta
      case Ironwood => ironwoodDelta
      case _ => 0
    }

    /** The block totals are the sums of the transactions they summarise. */
    ghost predicate Balanced() {
      forall pool: Pool | IsReconstructed(pool) :: Delta(pool) == Sum(DeltasOf(transactions, pool))
    }
  }

  function LedgerFromParsed(block: ParsedBlock): Result<BlockLedger> {
    var orchard :- TrySum(DeltasOf(block.transactions, Orchard));
    var ironwood :- TrySum(DeltasOf(block.transactions, Ironwood));
    Ok(BlockLedger(block.claimedHeight, block.blockHash, block.previousBlockHash,
                   orchard, ironwood, block.transactions))
  }

  /** From value balances to block totals: when a ledger exists its totals are the integer sums of
      the negated value balances, and it always exists for a block of at most 4392 transactions. */
  lemma LedgerIsBlockMovement(block: ParsedBlock, raw: RawBlock, branchId: u32)
    requires Represents(block, raw)
    requires forall i | 0 <= i < |raw.transactions| :: Readable(raw.transactions[i], branchId)
    ensures LedgerFromParsed(block).Ok? ==>
              && LedgerFromParsed(block).value.Balanced()
              && forall pool: Pool | IsReconstructed(pool) ::
                   LedgerFromParsed(block).value.Delta(pool) == raw.Movement(pool)
    ensures |raw.transactions| <= SAFE_BLOCK_TRANSACTIONS ==> LedgerFromParsed(block).Ok?
  {
    forall pool: Pool
      ensures DeltasOf(block.transactions, pool) == raw.Movements(pool)
    {
      forall i | 0 <= i < |raw.transactions|
        ensures DeltasOf(block.transactions, pool)[i] == raw.Movements(pool)[i]
      {
        assert SameMovement(block.transactions[i], raw.transactions[i]);
      }
    }
    TrySumExact(DeltasOf(block.transactions, Orchard));
    TrySumExact(DeltasOf(block.transactions, Ironwood));
    if |raw.transactions| <= SAFE_BLOCK_TRANSACTIONS {
      forall pool: Pool
        ensures PrefixesFit(DeltasOf(block.transactions, pool))
      {
        forall i | 0 <= i < |raw.transactions|
          ensures InMoneyRange(DeltasOf(block.transactions, pool)[i])
        {
          assert Readable(raw.transactions[i], branchId);
          assert SameMovement(block.transactions[i], raw.transactions[i]);
        }
        PrefixesOfDeltasFit(DeltasOf(block.transactions, pool));
      }
    }
  }
}

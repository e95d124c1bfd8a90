/** The records the store keeps and the ingestion loops exchange. */
module StoreTypes {
  import opened Prelude
  import opened Frames

  /** Hashes, addresses and identifiers are byte strings; the zero address is the empty one. */
  type Hash = seq<Byte>
  type Address = seq<Byte>
  const ZERO_ADDRESS: Address := []

  datatype BlobTransaction = BlobTransaction(hash: Hash, timestamp: Uint64, missing: bool, frames: seq<Frame>)

  datatype QueueOrigin = L1 | Sequencer

  datatype BlockTransaction = BlockTransaction(
    index: Uint64, batchIndex: Uint64, blockNumber: Uint64, timestamp: Uint64, gasLimit: nat,
    target: Address, origin: Address, data: seq<Byte>, queueOrigin: QueueOrigin, queueIndex: Option<Uint64>,
    signed: Option<SignedTransaction>)

  /** What is published only for sequencer transactions: value, decoded fields and both signatures. */
  datatype SignedTransaction = SignedTransaction(
    nonce: Uint64, gasPrice: nat, value: nat, to: Option<Address>, input: seq<Byte>,
    v: nat, r: seq<Byte>, s: seq<Byte>, seqR: seq<Byte>, seqS: seq<Byte>, seqParity: bool)

  datatype Block = Block(index: Uint64, batchIndex: Uint64, timestamp: Uint64, extraData: seq<Byte>,
                         transactions: seq<BlockTransaction>)

  datatype BlockBatch = BlockBatch(index: Uint64, size: Uint64, prevTotalElements: Uint64, l1Transaction: Hash)

  datatype ChannelRecord = ChannelRecord(id: seq<Byte>, sources: seq<Hash>, blocks: seq<Uint64>, batch: BlockBatch,
                                         expiresAt: Uint64)

  datatype BlobChannel = BlobChannel(record: ChannelRecord, blocks: seq<Block>)
}

/** A single ledger entry and its digest. */
module Blocks {
  import opened Primitives

  /** A snapshot of a block's fields, used to state what the block operations
      compute. */
  datatype BlockRecord = BlockRecord(
    index: int,
    timestamp: Timestamp,
    transactions: seq<Transaction>,
    nonce: int,
    previousHash: string,
    hash: string)

  /** The digest of a block: its index, nonce, timestamp, transactions and
      previous hash, formatted and hashed. The stored `hash` field itself is
      not an input. */
  function Digest(c: Codec, r: BlockRecord): string
  {
    c.digest(c.blockText(r.index, r.nonce, r.timestamp, r.transactions, r.previousHash))
  }

  /** The record with its stored hash set to its digest. */
  function Seal(c: Codec, r: BlockRecord): (s: BlockRecord)
    ensures s.hash == Digest(c, s)
    ensures s.(hash := r.hash) == r
  {
    r.(hash := Digest(c, r))
  }

  /** The digest does not depend on the stored hash. */
  lemma DigestIgnoresStoredHash(c: Codec, r: BlockRecord, h: string)
    ensures Digest(c, r.(hash := h)) == Digest(c, r)
  {
  }

  /** The stored hash is not an input to the digest, so sealing a block twice
      gives the same block as sealing it once, and a sealed block is its own seal. */
  lemma SealIdempotent(c: Codec, r: BlockRecord)
    ensures Seal(c, Seal(c, r)) == Seal(c, r)
    ensures r.hash == Digest(c, r) <==> Seal(c, r) == r
  {
  }

  /** A block of the chain. Its fields are updated in place by
      `Blockchain.ChangeBlock` and by `Mining.ProofOfWork`. */
  class Block {
    var index: int
    var timestamp: Timestamp
    var transactions: seq<Transaction>
    var nonce: int
    var previousHash: string
    var hash: string

    /** The block as it is built before its hash is computed: every field
        given, the hash still empty. */
    constructor (index: int, timestamp: Timestamp, transactions: seq<Transaction>,
                 nonce: int, previousHash: string)
      ensures Record() == BlockRecord(index, timestamp, transactions, nonce, previousHash, "")
    {
      this.index := index;
      this.timestamp := timestamp;
      this.transactions := transactions;
      this.nonce := nonce;
      this.previousHash := previousHash;
      this.hash := "";
    }

    /** The current field values. */
    function Record(): BlockRecord
      reads this
    {
      BlockRecord(index, timestamp, transactions, nonce, previousHash, hash)
    }

    /** The digest of the block's current fields. */
    function CreateHash(c: Codec): string
      reads this
    {
      Digest(c, Record())
    }
  }

  /** The snapshots of a sequence of blocks, position by position. */
  function Records(bs: seq<Block>): (v: seq<BlockRecord>)
    reads bs
    ensures |v| == |bs|
    ensures forall i :: 0 <= i < |bs| ==> v[i] == bs[i].Record()
  {
    if bs == [] then [] else [bs[0].Record()] + Records(bs[1..])
  }
}

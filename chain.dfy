/** The blockchain: an append-ordered sequence of blocks with creation,
    mutation and chain-wide verification. */
module Chain {
  import opened Primitives
  import opened Blocks

  /** The self-check VerifyChain applies at position `i`: the stored hash
      equals a recomputation from the block's current fields. */
  predicate SelfCheck(c: Codec, v: seq<BlockRecord>, i: int)
    requires 0 <= i < |v|
  {
    v[i].hash == Digest(c, v[i])
  }

  /** The link check VerifyChain applies at position `i >= 1`: the stored
      previous hash equals the predecessor's stored hash. */
  predicate LinkCheck(v: seq<BlockRecord>, i: int)
    requires 1 <= i < |v|
  {
    v[i].previousHash == v[i - 1].hash
  }

  /** Both checks at position `i >= 1`. */
  predicate CheckAt(c: Codec, v: seq<BlockRecord>, i: int)
    requires 1 <= i < |v|
  {
    SelfCheck(c, v, i) && LinkCheck(v, i)
  }

  /** What VerifyChain accepts: both checks hold at every position from 1 on.
      Block 0 is never checked. */
  predicate ChainValid(c: Codec, v: seq<BlockRecord>)
  {
    forall i :: 1 <= i < |v| ==> CheckAt(c, v, i)
  }

  /** Every block's stored hash matches its fields. */
  predicate Sealed(c: Codec, v: seq<BlockRecord>)
  {
    forall i :: 0 <= i < |v| ==> SelfCheck(c, v, i)
  }

  /** Every block's index is its position. */
  predicate Indexed(v: seq<BlockRecord>)
  {
    forall i :: 0 <= i < |v| ==> v[i].index == i
  }

  /** The chain after appending a block built from the given fields: its index
      is the old length and its hash is its digest. */
  function Appended(c: Codec, v: seq<BlockRecord>, transactions: seq<Transaction>,
                    nonce: int, previousHash: string, timestamp: Timestamp): (w: seq<BlockRecord>)
    ensures |w| == |v| + 1 && w[..|v|] == v
    ensures w[|v|].index == |v| && w[|v|].timestamp == timestamp
    ensures w[|v|].transactions == transactions && w[|v|].nonce == nonce
    ensures w[|v|].previousHash == previousHash
    ensures SelfCheck(c, w, |v|)
  {
    v + [Seal(c, BlockRecord(|v|, timestamp, transactions, nonce, previousHash, ""))]
  }

  /** The chain after replacing the transactions of block `blockIndex` and
      recomputing that block's hash; an index out of range changes nothing. */
  function Replaced(c: Codec, v: seq<BlockRecord>, blockIndex: int,
                    transactions: seq<Transaction>): (w: seq<BlockRecord>)
    ensures |w| == |v|
    ensures !(0 <= blockIndex < |v|) ==> w == v
    ensures 0 <= blockIndex < |v| ==>
      && w[blockIndex].transactions == transactions
      && w[blockIndex].index == v[blockIndex].index
      && w[blockIndex].timestamp == v[blockIndex].timestamp
      && w[blockIndex].nonce == v[blockIndex].nonce
      && w[blockIndex].previousHash == v[blockIndex].previousHash
      && SelfCheck(c, w, blockIndex)
    ensures forall j :: 0 <= j < |v| && j != blockIndex ==> w[j] == v[j]
  {
    if 0 <= blockIndex < |v| then
      v[blockIndex := Seal(c, v[blockIndex].(transactions := transactions))]
    else
      v
  }

  /** Chains of zero or one block verify, whatever block 0 holds. */
  lemma ShortChainsVerify(c: Codec, v: seq<BlockRecord>)
    requires |v| <= 1
    ensures ChainValid(c, v)
  {
  }

  /** Appending keeps every stored hash matching its block and every index
      equal to its position. */
  lemma AppendedKeepsInvariants(c: Codec, v: seq<BlockRecord>, transactions: seq<Transaction>,
                                nonce: int, previousHash: string, timestamp: Timestamp)
    ensures Sealed(c, v) ==> Sealed(c, Appended(c, v, transactions, nonce, previousHash, timestamp))
    ensures Indexed(v) ==> Indexed(Appended(c, v, transactions, nonce, previousHash, timestamp))
  {
    var w := Appended(c, v, transactions, nonce, previousHash, timestamp);
    if Sealed(c, v) {
      forall i | 0 <= i < |w| ensures SelfCheck(c, w, i) {
        if i < |v| {
          assert w[i] == v[i] && SelfCheck(c, v, i);
        }
      }
    }
  }

  /** A chain extended by one block verifies exactly when the old chain
      verified and the new block's previous hash is the old last block's hash. */
  lemma AppendedVerifies(c: Codec, v: seq<BlockRecord>, transactions: seq<Transaction>,
                         nonce: int, previousHash: string, timestamp: Timestamp)
    ensures ChainValid(c, Appended(c, v, transactions, nonce, previousHash, timestamp))
        <==> ChainValid(c, v) && (|v| > 0 ==> previousHash == v[|v| - 1].hash)
  {
    var w := Appended(c, v, transactions, nonce, previousHash, timestamp);
    assert forall i :: 0 <= i < |v| ==> w[i] == v[i];
    if ChainValid(c, w) {
      forall i | 1 <= i < |v| ensures CheckAt(c, v, i) {
        assert CheckAt(c, w, i);
      }
      if |v| > 0 {
        assert CheckAt(c, w, |v|);
      }
    }
    if ChainValid(c, v) && (|v| > 0 ==> previousHash == v[|v| - 1].hash) {
      forall i | 1 <= i < |w| ensures CheckAt(c, w, i) {
        if i < |v| {
          assert CheckAt(c, v, i);
        }
      }
    }
  }

  /** Replacing one block's transactions keeps every stored hash matching its
      block and every index equal to its position. */
  lemma ReplacedKeepsInvariants(c: Codec, v: seq<BlockRecord>, blockIndex: int,
                                transactions: seq<Transaction>)
    ensures Sealed(c, v) ==> Sealed(c, Replaced(c, v, blockIndex, transactions))
    ensures Indexed(v) ==> Indexed(Replaced(c, v, blockIndex, transactions))
  {
    var w := Replaced(c, v, blockIndex, transactions);
    if Sealed(c, v) {
      forall i | 0 <= i < |w| ensures SelfCheck(c, w, i) {
        if i != blockIndex {
          assert SelfCheck(c, v, i);
        }
      }
    }
  }

  /** Tampering with a block that has a successor is always detected, and only
      by the successor's link check: the replaced block's own hash is
      recomputed, so every other check still passes. This needs the new digest
      to differ from the old stored hash. */
  lemma TamperDetectedBySuccessor(c: Codec, v: seq<BlockRecord>, blockIndex: int,
                                  transactions: seq<Transaction>)
    requires ChainValid(c, v)
    requires 0 <= blockIndex && blockIndex + 1 < |v|
    requires Digest(c, v[blockIndex].(transactions := transactions)) != v[blockIndex].hash
    ensures !ChainValid(c, Replaced(c, v, blockIndex, transactions))
    ensures !LinkCheck(Replaced(c, v, blockIndex, transactions), blockIndex + 1)
    ensures SelfCheck(c, Replaced(c, v, blockIndex, transactions), blockIndex + 1)
    ensures forall i :: 1 <= i < |v| && i != blockIndex + 1 ==>
      CheckAt(c, Replaced(c, v, blockIndex, transactions), i)
  {
    var w := Replaced(c, v, blockIndex, transactions);
    assert w[blockIndex].hash == Digest(c, v[blockIndex].(transactions := transactions));
    assert CheckAt(c, v, blockIndex + 1);
    assert w[blockIndex + 1] == v[blockIndex + 1];
    assert !CheckAt(c, w, blockIndex + 1);
    forall i | 1 <= i < |v| && i != blockIndex + 1 ensures CheckAt(c, w, i) {
      assert CheckAt(c, v, i);
    }
  }

  /** Tampering with the last block of a verifying chain goes undetected:
      its hash is recomputed and no block links to it. */
  lemma TamperOfLastBlockUndetected(c: Codec, v: seq<BlockRecord>, transactions: seq<Transaction>)
    requires ChainValid(c, v) && |v| > 0
    ensures ChainValid(c, Replaced(c, v, |v| - 1, transactions))
  {
    var w := Replaced(c, v, |v| - 1, transactions);
    forall i | 1 <= i < |w| ensures CheckAt(c, w, i) {
      assert CheckAt(c, v, i);
    }
  }

  /** The ledger. It owns its blocks: no block object occurs twice. The
      transaction-count and hash-range fields are configuration that no
      operation consults. */
  class Blockchain {
    const codec: Codec
    var blocks: seq<Block>
    var numberOfTransactions: int
    var blockHashRangeMinValue: int
    var blockHashRangeMaxValue: int

    ghost predicate Valid()
      reads this
    {
      forall i, j :: 0 <= i < j < |blocks| ==> blocks[i] != blocks[j]
    }

    /** The current contents of the chain. */
    function View(): seq<BlockRecord>
      reads this, blocks
    {
      Records(blocks)
    }

    /** An empty chain with the given configuration. */
    constructor (codec: Codec, numberOfTransactions: int, minValue: int, maxValue: int)
      ensures Valid() && View() == [] && this.codec == codec
      ensures this.numberOfTransactions == numberOfTransactions
      ensures blockHashRangeMinValue == minValue && blockHashRangeMaxValue == maxValue
    {
      this.codec := codec;
      blocks := [];
      this.numberOfTransactions := numberOfTransactions;
      blockHashRangeMinValue := minValue;
      blockHashRangeMaxValue := maxValue;
    }

    /** Appends a fresh block whose index is the current length and whose hash
        is computed at once. The previous hash is taken as given. */
    method NewBlock(transactions: seq<Transaction>, nonce: int, previousHash: string,
                    transactionDateTime: Timestamp)
      requires Valid()
      modifies this
      ensures Valid()
      ensures View() == Appended(codec, old(View()), transactions, nonce, previousHash, transactionDateTime)
      ensures |blocks| == |old(blocks)| + 1 && blocks[..|old(blocks)|] == old(blocks)
      ensures fresh(blocks[|old(blocks)|])
      ensures numberOfTransactions == old(numberOfTransactions)
      ensures blockHashRangeMinValue == old(blockHashRangeMinValue)
      ensures blockHashRangeMaxValue == old(blockHashRangeMaxValue)
    {
      ghost var before := View();
      var block := new Block(|blocks|, transactionDateTime, transactions, nonce, previousHash);
      block.hash := block.CreateHash(codec);
      blocks := blocks + [block];
      assert View() == before + [block.Record()] by {
        assert forall i :: 0 <= i < |before| ==> View()[i] == before[i];
      }
    }

    /** Replaces the transactions of block `blockIndex` and recomputes that
        block's hash; an index out of range is silently ignored. */
    method ChangeBlock(blockIndex: int, newTransactions: seq<Transaction>)
      requires Valid()
      modifies blocks
      ensures Valid() && blocks == old(blocks)
      ensures View() == Replaced(codec, old(View()), blockIndex, newTransactions)
    {
      ghost var before := View();
      if 0 <= blockIndex < |blocks| {
        blocks[blockIndex].transactions := newTransactions;
        blocks[blockIndex].hash := blocks[blockIndex].CreateHash(codec);
        assert forall j :: 0 <= j < |before| && j != blockIndex ==> View()[j] == before[j];
      }
    }

    /** Scans blocks 1 to the end, failing at the first block whose stored
        hash is stale or whose previous hash differs from its predecessor's. */
    method VerifyChain() returns (ok: bool)
      ensures ok == ChainValid(codec, View())
    {
      ghost var v := View();
      var i := 1;
      while i < |blocks|
        invariant 1 <= i && (i <= |blocks| || |blocks| == 0)
        invariant forall k :: 1 <= k < i && k < |v| ==> CheckAt(codec, v, k)
      {
        var currentBlock := blocks[i];
        var previousBlock := blocks[i - 1];
        if currentBlock.hash != currentBlock.CreateHash(codec) {
          assert !CheckAt(codec, v, i);
          return false;
        }
        if currentBlock.previousHash != previousBlock.hash {
          assert v[i].previousHash == currentBlock.previousHash && v[i - 1].hash == previousBlock.hash;
          assert !CheckAt(codec, v, i);
          return false;
        }
        i := i + 1;
      }
      return true;
    }

    /** Records the intended number of transactions per block. */
    method SetNumberOfTransactionsPerBlock(numTransactions: int)
      modifies this`numberOfTransactions
      ensures numberOfTransactions == numTransactions
    {
      numberOfTransactions := numTransactions;
    }

    /** Records the intended range of block hash values. */
    method SetBlockHashRangeForBlockCreation(minValue: int, maxValue: int)
      modifies this`blockHashRangeMinValue, this`blockHashRangeMaxValue
      ensures blockHashRangeMinValue == minValue && blockHashRangeMaxValue == maxValue
    {
      blockHashRangeMinValue := minValue;
      blockHashRangeMaxValue := maxValue;
    }
  }
}

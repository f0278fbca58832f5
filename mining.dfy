/** Proof of work: a brute-force search over a block's nonce. */
module Mining {
  import opened Primitives
  import opened Blocks

  /** Nonce `n` mines block `r`: with its nonce set to `n`, the block's digest
      starts with `targetPrefix`. The stored nonce and hash of `r` play no part. */
  predicate Mines(c: Codec, r: BlockRecord, targetPrefix: string, n: int)
  {
    HasPrefix(Digest(c, r.(nonce := n)), targetPrefix)
  }

  /** Every nonce mines for the empty prefix; whether a nonce mines does not
      depend on the block's stored nonce or hash. */
  lemma MinesFacts(c: Codec, r: BlockRecord, targetPrefix: string, n: int, m: int, h: string)
    ensures Mines(c, r, "", n)
    ensures Mines(c, r.(nonce := m, hash := h), targetPrefix, n) == Mines(c, r, targetPrefix, n)
  {
    assert r.(nonce := m, hash := h).(nonce := n) == r.(nonce := n).(hash := h);
  }

  /** Tries the nonces 0, 1, 2, ... below `maxAttempts` in turn, storing each
      in the block together with the block's recomputed hash, and stops at the
      first whose hash starts with `targetPrefix`. That nonce is the least one
      that mines the block. `None` means no nonce below the bound mines it. */
  method ProofOfWork(c: Codec, block: Block, targetPrefix: string, maxAttempts: nat)
    returns (found: Option<nat>)
    modifies block
    ensures block.index == old(block.index) && block.timestamp == old(block.timestamp)
    ensures block.transactions == old(block.transactions)
    ensures block.previousHash == old(block.previousHash)
    ensures found.Some? ==>
      && found.value < maxAttempts
      && block.nonce == found.value
      && block.hash == block.CreateHash(c)
      && HasPrefix(block.hash, targetPrefix)
    ensures found.Some? ==>
      forall k :: 0 <= k < found.value ==> !Mines(c, old(block.Record()), targetPrefix, k)
    ensures found.None? ==>
      forall k :: 0 <= k < maxAttempts ==> !Mines(c, old(block.Record()), targetPrefix, k)
    ensures found.None? && maxAttempts == 0 ==> block.Record() == old(block.Record())
    ensures found.None? && maxAttempts > 0 ==>
      block.nonce == maxAttempts - 1 && block.hash == block.CreateHash(c)
    ensures targetPrefix == "" && maxAttempts > 0 ==> found == Some(0)
  {
    ghost var given := block.Record();
    var nonce: nat := 0;
    while nonce < maxAttempts
      invariant nonce <= maxAttempts
      invariant block.index == given.index && block.timestamp == given.timestamp
      invariant block.transactions == given.transactions
      invariant block.previousHash == given.previousHash
      invariant forall k :: 0 <= k < nonce ==> !Mines(c, given, targetPrefix, k)
      invariant nonce == 0 ==> block.Record() == given
      invariant targetPrefix == "" ==> nonce == 0
      invariant nonce > 0 ==> block.nonce == nonce - 1 && block.hash == block.CreateHash(c)
    {
      block.nonce := nonce;
      block.hash := block.CreateHash(c);
      assert block.Record().(hash := given.hash) == given.(nonce := nonce);
      if HasPrefix(block.hash, targetPrefix) {
        return Some(nonce);
      }
      nonce := nonce + 1;
    }
    return None;
  }
}

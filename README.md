# Hash-chained ledger with proof of work and Merkle roots

This project models, in Dafny, the hash-chaining engine of a small teaching blockchain written in Go. The engine has four parts:

- **Block digest.** A block has an index, a timestamp, a batch of transactions, a nonce, the previous block's hash and its own hash. Its digest is the hash of its formatted index, nonce, timestamp, transactions and previous hash.
- **Blockchain.** `NewBlock` appends a block whose index is the current length and hashes it at once. `ChangeBlock` replaces one block's transactions and re-hashes that block only; an index out of range does nothing. `VerifyChain` checks every block from position 1 on: its stored hash must equal a recomputation, and its previous hash must equal its predecessor's stored hash.
- **ProofOfWork.** It tries the nonces 0, 1, 2, … and re-hashes the block each time, until the hash starts with a target prefix.
- **CreateMerkleTree.** It hashes each transaction into a leaf. It then folds each level pairwise from left to right, carrying an odd last node up unchanged, until one node, the root, remains.

Files and modules:

- `primitives.dfy` (`Primitives`): transactions, the timestamp and amount types, the hashing interface `Codec`, and `HasPrefix`.
- `block.dfy` (`Blocks`): the block record, its `Digest`, and the `Block` class.
- `chain.dfy` (`Chain`): the chain predicates, the pure effects of `NewBlock` and `ChangeBlock`, and the `Blockchain` class.
- `mining.dfy` (`Mining`): `ProofOfWork`.
- `merkle.dfy` (`Merkle`): Merkle nodes and trees, the fold, and `CreateMerkleTree`.

Modelling choices:

- **Hashing.** SHA-256 with hex output and the `fmt.Sprintf` encodings are foreign code. They stay uninterpreted as the three function values of a `Codec`:
  - `digest`: the hash of a string;
  - `blockText`: the formatted block fields;
  - `txText`: the formatted transaction.

  Every operation takes the `Codec` as a parameter; a `Blockchain` holds it as a constant. No proof assumes anything about these functions. Where a property needs "the digest differs" or "no collision", that is stated as a `requires` of the lemma.
- **Opaque values.** Timestamps and amounts are opaque types, only carried and compared.
- **Classes.** `Block` is a class because the source changes blocks in place through pointers: `ChangeBlock` sets a block's transactions and hash, and `ProofOfWork` sets its nonce and hash. `Blockchain` is a class with a `seq<Block>` field. Its invariant `Valid()` says no block object occurs twice, since the chain owns its blocks. `View()` gives the chain's current contents as a sequence of `BlockRecord` values.
- **Pure specifications.** Each state-changing method is proved against a pure function of the old view: `Appended` for `NewBlock`, `Replaced` for `ChangeBlock`. `VerifyChain` is proved equal to the predicate `ChainValid`. The lemmas about chain properties are stated on these functions.
- **One hash function.** The source uses one global `CalculateHash`. In the model, `ProofOfWork` and `CreateMerkleTree` take a `Codec` parameter. A caller that mines a block of a chain is expected to pass that chain's `codec`; the model does not enforce this.
- **Merkle tree.** Merkle nodes are datatypes, because nodes are never changed after they are built. `CreateMerkleTree` keeps the source's nested loops. Its result is proved equal to `MerkleTreeOf`, which is defined by the recursive `FoldLevel` and `Reduce`.

Tamper detection works as the code does, not as a tamper demonstration would suggest. `ChangeBlock` re-hashes the block it changes, so `VerifyChain`'s self-check never catches that block. The change is caught only by the successor's link check:
- `Chain.TamperDetectedBySuccessor` proves that this link check fails and every other check still passes.
- `Chain.TamperOfLastBlockUndetected` proves that changing the last block of a verifying chain goes undetected.
- Changing block 0 of a one-block chain also goes undetected, because block 0 is never checked (`Chain.ShortChainsVerify`).

## Model

| member | source | states |
|---|---|---|
| `Primitives.HasPrefixFacts` | assignment02bca/main.go:160 | the prefix test holds for the empty prefix and agrees with sequence-prefix |
| `Blocks.Digest` | assignment02bca/main.go:125-128 | the hash of the formatted index, nonce, timestamp, transactions and previous hash; its properties are stated by `Blocks.DigestIgnoresStoredHash` and `Blocks.SealIdempotent` |
| `Blocks.Block.CreateHash` | assignment02bca/main.go:125-128 | the digest of the block object's current fields, i.e. `Blocks.Digest` of its `Record()` |
| `Blocks.Seal` | assignment02bca/main.go:65 | sealing sets the stored hash to the block's digest and changes no other field |
| `Blocks.DigestIgnoresStoredHash` | assignment02bca/main.go:125-128 | the digest covers index, nonce, timestamp, transactions and previous hash, not the stored hash |
| `Blocks.SealIdempotent` | assignment02bca/main.go:125-128 | re-hashing a sealed block changes nothing; a block is its own seal iff its hash matches its fields |
| `Blocks.Block.constructor` | assignment02bca/main.go:57-63 | a new block holds the given fields and an empty hash |
| `Chain.Appended` | assignment02bca/main.go:56-67 | appending adds exactly one block, with index = old length, the given fields and hash = its digest; earlier blocks unchanged |
| `Chain.Replaced` | assignment02bca/main.go:82-87 | out of range: chain unchanged; in range: only that block changes, its transactions replaced and hash recomputed, index, timestamp, nonce and previous hash kept |
| `Chain.ShortChainsVerify` | assignment02bca/main.go:91-104 | chains of length 0 or 1 verify, whatever block 0 holds |
| `Chain.AppendedKeepsInvariants` | assignment02bca/main.go:56-67 | appending keeps "every hash matches its block" and "every index is its position" |
| `Chain.AppendedVerifies` | assignment02bca/main.go:90-105 | the extended chain verifies iff the old one did and the new block's previous hash is the old last block's hash |
| `Chain.ReplacedKeepsInvariants` | assignment02bca/main.go:82-87 | replacing transactions keeps "every hash matches its block" and "every index is its position" |
| `Chain.TamperDetectedBySuccessor` | assignment02bca/main.go:83-100 | on a verifying chain, changing block i with a successor (new digest differing) makes verification fail; the successor's self-check still passes and its link check fails, and every other position passes both checks |
| `Chain.TamperOfLastBlockUndetected` | assignment02bca/main.go:82-104 | on a verifying chain, changing the last block leaves the chain verifying |
| `Chain.Blockchain.constructor` | assignment02bca/main.go:36-41 | an empty chain owning no blocks, with the given configuration |
| `Chain.Blockchain.NewBlock` | assignment02bca/main.go:56-67 | the new view is `Appended` of the old one; the new block object is fresh; earlier block objects and configuration unchanged |
| `Chain.Blockchain.ChangeBlock` | assignment02bca/main.go:82-87 | the new view is `Replaced` of the old one (a no-op out of range); the block objects are the same |
| `Chain.Blockchain.VerifyChain` | assignment02bca/main.go:90-105 | returns true iff for every 1 <= i < length the stored hash equals the digest and the previous hash equals block i-1's hash |
| `Chain.Blockchain.SetNumberOfTransactionsPerBlock` | assignment02bca/main.go:114-116 | sets that one field and nothing else |
| `Chain.Blockchain.SetBlockHashRangeForBlockCreation` | assignment02bca/main.go:119-122 | sets the two range fields and nothing else |
| `Mining.MinesFacts` | assignment02bca/main.go:157-160 | every nonce mines for the empty prefix; whether a nonce mines ignores the stored nonce and hash |
| `Mining.ProofOfWork` | assignment02bca/main.go:154-166 | on success n: block nonce = n, hash = its digest, hash has the prefix, no smaller nonce mines; empty prefix gives 0; other fields unchanged |
| `Merkle.Leaves` | assignment02bca/main.go:170-176 | one leaf per transaction, in order, the digest of its text |
| `Merkle.FoldLevel` | assignment02bca/main.go:182-196 | one fold maps a level of n nodes to ceil(n/2) nodes |
| `Merkle.FoldLevelAt` | assignment02bca/main.go:185-196 | element k of a fold is the parent of nodes 2k and 2k+1 when 2k+1 < n, else node 2k unchanged |
| `Merkle.FoldLevelShrinks` | assignment02bca/main.go:182 | a fold of more than one node is shorter and non-empty, so the loop ends with one root |
| `Merkle.MerkleTreeOf` | assignment02bca/main.go:178-180 | the tree has no root iff there are no transactions |
| `Merkle.CreateMerkleTree` | assignment02bca/main.go:169-204 | the built tree equals `MerkleTreeOf` |
| `Merkle.FoldLevelKeepsLeaves` | assignment02bca/main.go:185-196 | folding keeps the level's leaves in order |
| `Merkle.FoldLevelKeepsConsistent` | assignment02bca/main.go:187-191 | folding consistent nodes gives consistent nodes (parent data = digest of left data + right data) |
| `Merkle.Reduce` | assignment02bca/main.go:182-199 | folds a non-empty level with `FoldLevel` until one node remains; terminates by `FoldLevel`'s length contract; its properties are stated by `Merkle.ReduceSound` |
| `Merkle.ReduceSound` | assignment02bca/main.go:182-202 | the root's leaves are the level's leaves in order, and it is consistent when the level is |
| `Merkle.FlattenLeaves` | assignment02bca/main.go:172-176 | the leaf level is its own list of leaves |
| `Merkle.MerkleTreeSound` | assignment02bca/main.go:169-204 | a non-empty tree's root is consistent and its leaves are the transactions' leaf digests, in order |
| `Merkle.MerkleSmallTrees` | assignment02bca/main.go:170-190 | no transactions: no root; one: root is its leaf, data = digest of its text; two: root data = digest of the two leaf digests |
| `Merkle.MerkleOddCarry` | assignment02bca/main.go:185-195 | for three transactions the root is digest(digest(leaf a + leaf b) + leaf c) |
| `Merkle.MerkleOrderSensitive` | assignment02bca/main.go:190 | swapping two transactions with distinct same-length leaf digests changes the root digest, absent a collision |

## Left out

- Mining.ProofOfWork: the source searches without bound and never returns without a mining nonce. The model takes a bound `maxAttempts` and returns `None` when no nonce below it mines. It proves only what holds when the search returns, plus that `None` means no nonce below the bound mines.
- Transaction parsing (`getTransactions`, main.go:131-151) is not modelled. It parses floats and indexes a field without checking it exists, so `NewBlock` and `ChangeBlock` take an already-parsed `seq<Transaction>`.
- SHA-256 and hex encoding (`CalculateHash`, main.go:108-111) and the `fmt.Sprintf` block and transaction encodings (main.go:126, 174) are foreign code. They are the uninterpreted `Codec` functions.
- Floating-point amounts and `time.Time` are opaque types, with no arithmetic or formatting.
- `DisplayBlocks` (main.go:70-79) and `main` (main.go:206-267) are console output and a demo driver.
- Go's 64-bit `int` for `Index` and `Nonce` is not modelled: indices and nonces are unbounded, so wrap-around after 2^63 steps is not captured.
- The slice capacity hint `(len(nodes)+1)/2` (main.go:183) affects only allocation, not any result.
- Merkle nodes are values, not heap pointers. The source never shares or changes a node after building it, so nothing is lost.

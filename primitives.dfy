/** Values shared by the whole ledger: transactions, the opaque timestamp and
    amount types, the hashing interface and the prefix test used by mining.

    The digest (SHA-256 rendered as lowercase hex) and the two text encodings
    that feed it (the block's formatted fields and a transaction's
    "sender,receiver,amount" text) are foreign code. They are kept
    uninterpreted: every operation receives them bundled in a `Codec`, and no
    property below depends on what they compute beyond being functions. */
module Primitives {

  /** A point in time, as carried by a block. Only compared, never inspected. */
  type Timestamp(==)

  /** A floating-point amount of currency. Only carried, never inspected. */
  type Amount(==)

  /** A value transfer; equality is structural. */
  datatype Transaction = Transaction(sender: string, receiver: string, amount: Amount)

  datatype Option<T> = None | Some(value: T)

  /** The foreign hashing collaborators.
      - `digest` is the hex digest of a string;
      - `blockText` formats a block's index, nonce, timestamp, transactions and
        previous hash, in that order, into the string that is hashed;
      - `txText` formats one transaction for a Merkle leaf. */
  datatype Codec = Codec(
    digest: string -> string,
    blockText: (int, int, Timestamp, seq<Transaction>, string) -> string,
    txText: Transaction -> string)

  /** `s` starts with `prefix` (a case-sensitive literal match). */
  predicate HasPrefix(s: string, prefix: string)
  {
    |prefix| <= |s| && s[..|prefix|] == prefix
  }

  /** Every string starts with the empty prefix, and a prefix test is the
      same as Dafny's sequence-prefix relation. */
  lemma HasPrefixFacts(s: string, prefix: string)
    ensures HasPrefix(s, "")
    ensures HasPrefix(s, prefix) <==> prefix <= s
  {
  }
}

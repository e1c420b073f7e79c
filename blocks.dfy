/** The ledger's records: transactions, blocks and the link a block keeps to its predecessor. */
module Blocks {
  import opened Wrappers
  import Decimal

  /** One `{sender, recipient, amount}` record of the pending pool or of a block. */
  datatype Transaction = Transaction(sender: string, recipient: string, amount: int)

  /**
   * The `previous_hash` field. The genesis block stores the integer 1; every other
   * block stores a hex digest string.
   */
  datatype PrevHash = Sentinel(n: int) | HashStr(s: string)

  datatype Block = Block(
    index: int,
    timestamp: real,
    transactions: seq<Transaction>,
    proof: int,
    previousHash: PrevHash)

  type Chain = seq<Block>

  /** SHA-256 of the canonical JSON of a block, as a hex string; left uninterpreted. */
  type Hasher = Block -> string

  const GenesisProof: int := 100
  const GenesisPreviousHash: PrevHash := Sentinel(1)

  /** Python truthiness of an optional `previous_hash` argument (`previous_hash or ...`). */
  predicate Truthy(h: Option<PrevHash>) {
    match h
    case None => false
    case Some(Sentinel(n)) => n != 0
    case Some(HashStr(s)) => s != ""
  }

  /** The text an f-string gives for a `previous_hash` value. */
  function PrevHashText(h: PrevHash): string {
    match h
    case Sentinel(n) => Decimal.IntToString(n)
    case HashStr(s) => s
  }

  function Last(chain: Chain): Block
    requires |chain| > 0
  {
    chain[|chain| - 1]
  }

  /** Every block's `index` is its 1-based position in the chain. */
  predicate WellIndexed(chain: Chain) {
    forall i :: 0 <= i < |chain| ==> chain[i].index == i + 1
  }

  /** The `previous_hash` a new block stores: the supplied value if truthy, else the hash of the tip. */
  function LinkFor(hash: Hasher, chain: Chain, previousHash: Option<PrevHash>): (h: PrevHash)
    requires |chain| > 0 || Truthy(previousHash)
  {
    if Truthy(previousHash) then previousHash.value else HashStr(hash(Last(chain)))
  }

  /** Appending a block whose index is the next position keeps a chain well indexed. */
  lemma {:induction false} AppendKeepsWellIndexed(chain: Chain, b: Block)
    requires WellIndexed(chain) && b.index == |chain| + 1
    ensures WellIndexed(chain + [b])
  {
    forall i | 0 <= i < |chain| + 1
      ensures (chain + [b])[i].index == i + 1
    {
      if i < |chain| {
        assert (chain + [b])[i] == chain[i];
      }
    }
  }
}

/** The `Blockchain` object: the chain, the pending pool and the peer set, updated in place. */
module Ledger {
  import opened Wrappers
  import opened Blocks
  import opened ProofOfWork
  import opened Validation
  import opened Consensus
  import Nodes

  /** The replies of the peers, fetched in the order `order` lists them. */
  function Replies(order: seq<string>, fetch: string -> PeerReply): (rs: seq<PeerReply>)
    ensures |rs| == |order| && forall i :: 0 <= i < |order| ==> rs[i] == fetch(order[i])
  {
    seq(|order|, i requires 0 <= i < |order| => fetch(order[i]))
  }

  class Blockchain {
    /** The block hash (`Blockchain.hash`) and the puzzle digest; fixed for the object's life. */
    const hash: Hasher
    const digest: Digester

    var chain: Chain
    var currentTransactions: seq<Transaction>
    var nodes: set<string>

    /** The chain is never empty: the genesis block is sealed at construction. */
    ghost predicate Valid()
      reads this
    {
      |chain| > 0
    }

    /** `__init__`: empty pool and peer set, and the genesis block with `previous_hash=1, proof=100`. */
    constructor (hash: Hasher, digest: Digester, timestamp: real)
      ensures Valid() && this.hash == hash && this.digest == digest
      ensures chain == [Block(1, timestamp, [], GenesisProof, GenesisPreviousHash)]
      ensures WellIndexed(chain)
      ensures currentTransactions == [] && nodes == {}
    {
      this.hash := hash;
      this.digest := digest;
      chain := [];
      nodes := {};
      currentTransactions := [];
      new;
      var _ := NewBlock(GenesisProof, Some(GenesisPreviousHash), timestamp);
    }

    /** `last_block`: the tip, which is the block at position `|chain|` when indices are positions. */
    function LastBlock(): (b: Block)
      reads this
      requires Valid()
      ensures b in chain
      ensures WellIndexed(chain) ==> b.index == |chain|
    {
      Last(chain)
    }

    /**
     * `new_block`: seals the whole pending pool into a block at index `|chain| + 1`,
     * linked to the supplied hash when truthy, else to the hash of the tip; appends it
     * and empties the pool. Sealing needs a tip unless a truthy hash is supplied.
     */
    method NewBlock(proof: int, previousHash: Option<PrevHash>, timestamp: real) returns (block: Block)
      requires |chain| > 0 || Truthy(previousHash)
      modifies this`chain, this`currentTransactions
      ensures block.index == |old(chain)| + 1
      ensures block.timestamp == timestamp && block.proof == proof
      ensures block.transactions == old(currentTransactions)
      ensures Truthy(previousHash) ==> block.previousHash == previousHash.value
      ensures !Truthy(previousHash) ==> block.previousHash == HashStr(hash(Last(old(chain))))
      ensures chain == old(chain) + [block]
      ensures currentTransactions == []
      ensures Valid()
      ensures WellIndexed(old(chain)) ==> WellIndexed(chain)
    {
      block := Block(|chain| + 1, timestamp, currentTransactions, proof, LinkFor(hash, chain, previousHash));
      currentTransactions := [];
      if WellIndexed(chain) {
        AppendKeepsWellIndexed(chain, block);
      }
      chain := chain + [block];
    }

    /** `new_Transaction`: appends one record to the pool and returns the tip's index plus one. */
    method NewTransaction(sender: string, recipient: string, amount: int) returns (index: int)
      requires Valid()
      modifies this`currentTransactions
      ensures currentTransactions == old(currentTransactions) + [Transaction(sender, recipient, amount)]
      ensures index == LastBlock().index + 1
      ensures WellIndexed(chain) ==> index == |chain| + 1
      ensures Valid()
    {
      currentTransactions := currentTransactions + [Transaction(sender, recipient, amount)];
      index := Last(chain).index + 1;
    }

    /**
     * `register_node` with the host attribute spelled `netloc`: records the host, else
     * the path; when both are empty it raises and the peer set is unchanged.
     */
    method RegisterNode(url: Nodes.ParsedUrl) returns (r: Result<string>)
      requires Valid()
      modifies this`nodes
      ensures Valid()
      ensures r == Nodes.NodeEntry(url, Nodes.HostAttr)
      ensures r.Ok? ==> nodes == old(nodes) + {r.value}
      ensures r.Err? ==> nodes == old(nodes)
    {
      r := Nodes.NodeEntry(url, Nodes.HostAttr);
      if r.Ok? {
        nodes := nodes + {r.value};
      }
    }

    /**
     * `proof_of_work` as lines 184-191 set it out, with the tip's hash computed at
     * line 185 passed as `last_hash` (line 188 leaves it out): search upward from 0
     * against the tip's proof and hash, here bounded by `fuel` candidates.
     */
    method ProofOfWork(fuel: nat) returns (r: Option<int>)
      requires Valid()
      ensures r.Some? ==> ValidProof(digest, LastBlock().proof, r.value, hash(LastBlock()))
      ensures r.None? ==> forall q :: 0 <= q < fuel ==> !ValidProof(digest, LastBlock().proof, q, hash(LastBlock()))
    {
      var last := Last(chain);
      r := Search(digest, last.proof, hash(last), fuel);
    }

    /**
     * `resolve_conflicts`: asks every peer, in the iteration order `order` of `nodes`,
     * for its chain and adopts the outcome of the longest-chain scan. The local chain
     * changes only when the result is `Ok(true)`.
     */
    method ResolveConflicts(order: seq<string>, fetch: string -> PeerReply) returns (r: Result<bool>)
      requires Valid()
      requires |order| == |nodes| && forall n :: n in nodes <==> n in order
      modifies this`chain
      ensures Valid()
      ensures Resolve(hash, digest, |old(chain)|, Replies(order, fetch)).Err? ==>
        r == Err(Resolve(hash, digest, |old(chain)|, Replies(order, fetch)).error) && chain == old(chain)
      ensures Resolve(hash, digest, |old(chain)|, Replies(order, fetch)).Ok? ==>
        var t := Resolve(hash, digest, |old(chain)|, Replies(order, fetch)).value;
        (t.newChain.Some? ==> r == Ok(true) && chain == t.newChain.value) &&
        (t.newChain.None? ==> r == Ok(false) && chain == old(chain))
    {
      ghost var replies := Replies(order, fetch);
      var newChain: Option<Chain> := None;
      var maxLength := |chain|;
      var i := 0;
      while i < |order|
        invariant 0 <= i <= |order|
        invariant chain == old(chain)
        invariant newChain.Some? ==> |newChain.value| > 0
        invariant Resolve(hash, digest, |chain|, replies) ==
          ScanFrom(hash, digest, Scan(maxLength, newChain), replies[i..])
      {
        ghost var s := Scan(maxLength, newChain);
        assert replies[i..][0] == replies[i] && replies[i..][1..] == replies[i + 1..];
        var response := fetch(order[i]);
        if response.Reply? {
          var length, peerChain := response.length, response.chain;
          if length > maxLength {
            if |peerChain| == 0 {
              // `chain[0]` at the start of `valid_chain` raises.
              return Err(IndexError);
            }
            var valid := ValidChain(hash, digest, peerChain);
            if valid {
              maxLength := length;
              newChain := Some(peerChain);
            }
          }
        }
        i := i + 1;
      }
      if newChain.Some? && newChain.value != [] {
        chain := newChain.value;
        return Ok(true);
      }
      return Ok(false);
    }
  }
}

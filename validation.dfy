/** `valid_chain`: hash linkage and proof-of-work at every adjacent pair of a chain. */
module Validation {
  import opened Blocks
  import opened ProofOfWork

  /** `curr.previous_hash` equals the hash of `prev` (an integer sentinel never equals a digest). */
  predicate Linked(hash: Hasher, prev: Block, curr: Block) {
    curr.previousHash == HashStr(hash(prev))
  }

  /**
   * The puzzle check of a pair, bound as the validator binds it: to the previous
   * block's proof and to the previous block's own `previous_hash`.
   */
  predicate ProofHolds(digest: Digester, prev: Block, curr: Block) {
    ValidProof(digest, prev.proof, curr.proof, PrevHashText(prev.previousHash))
  }

  predicate ValidPair(hash: Hasher, digest: Digester, prev: Block, curr: Block) {
    Linked(hash, prev, curr) && ProofHolds(digest, prev, curr)
  }

  /** The pair ending at position `i` passes both checks. */
  predicate ValidStep(hash: Hasher, digest: Digester, chain: Chain, i: int)
    requires 1 <= i < |chain|
  {
    ValidPair(hash, digest, chain[i - 1], chain[i])
  }

  /** Every adjacent pair is linked and carries a valid proof; a one-block chain is valid. */
  predicate IsValidChain(hash: Hasher, digest: Digester, chain: Chain) {
    forall i :: 1 <= i < |chain| ==> ValidStep(hash, digest, chain, i)
  }

  /**
   * `valid_chain`: walks the pairs from the front and stops at the first failing check.
   * An empty chain raises IndexError at `chain[0]`, hence the precondition.
   */
  method ValidChain(hash: Hasher, digest: Digester, chain: Chain) returns (valid: bool)
    requires |chain| > 0
    ensures valid <==> IsValidChain(hash, digest, chain)
  {
    var lastBlock := chain[0];
    var currentIndex := 1;
    while currentIndex < |chain|
      invariant 1 <= currentIndex <= |chain|
      invariant lastBlock == chain[currentIndex - 1]
      invariant forall i :: 1 <= i < currentIndex ==> ValidStep(hash, digest, chain, i)
    {
      var block := chain[currentIndex];
      assert ValidStep(hash, digest, chain, currentIndex) == ValidPair(hash, digest, lastBlock, block);
      if block.previousHash != HashStr(hash(lastBlock)) {
        assert !Linked(hash, lastBlock, block);
        return false;
      }
      if !ValidProof(digest, lastBlock.proof, block.proof, PrevHashText(lastBlock.previousHash)) {
        assert !ProofHolds(digest, lastBlock, block);
        return false;
      }
      lastBlock := block;
      currentIndex := currentIndex + 1;
    }
    return true;
  }

  /** A valid chain stays valid exactly when the appended block forms a valid pair with its tip. */
  lemma {:induction false} AppendValid(hash: Hasher, digest: Digester, chain: Chain, b: Block)
    requires |chain| > 0
    ensures IsValidChain(hash, digest, chain + [b]) <==>
      IsValidChain(hash, digest, chain) && ValidPair(hash, digest, Last(chain), b)
  {
    var c := chain + [b];
    assert c[|chain|] == b && c[|chain| - 1] == Last(chain);
    forall i | 1 <= i < |chain|
      ensures ValidStep(hash, digest, c, i) == ValidStep(hash, digest, chain, i)
    {
      assert c[i] == chain[i] && c[i - 1] == chain[i - 1];
    }
    if IsValidChain(hash, digest, c) {
      assert ValidStep(hash, digest, c, |chain|);
    }
  }

  /** Changing the `previous_hash` of any non-genesis block of a valid chain makes it invalid. */
  lemma TamperedLinkDetected(hash: Hasher, digest: Digester, chain: Chain, i: int, h: PrevHash)
    requires IsValidChain(hash, digest, chain)
    requires 1 <= i < |chain| && h != chain[i].previousHash
    ensures !IsValidChain(hash, digest, chain[i := chain[i].(previousHash := h)])
  {
    var c := chain[i := chain[i].(previousHash := h)];
    assert ValidStep(hash, digest, chain, i);
    assert c[i - 1] == chain[i - 1];
    assert !ValidStep(hash, digest, c, i);
  }

  /**
   * Replacing a block that has a successor by a block with a different hash makes a
   * valid chain invalid: the successor's link breaks.
   */
  lemma TamperedBlockDetected(hash: Hasher, digest: Digester, chain: Chain, i: int, b: Block)
    requires IsValidChain(hash, digest, chain)
    requires 0 <= i < |chain| - 1 && hash(b) != hash(chain[i])
    ensures !IsValidChain(hash, digest, chain[i := b])
  {
    var c := chain[i := b];
    assert ValidStep(hash, digest, chain, i + 1);
    assert c[i + 1] == chain[i + 1] && c[i] == b;
    assert !ValidStep(hash, digest, c, i + 1);
  }

  /**
   * The validator does not look at `index`: a one-block chain whose block claims
   * index 7 passes, though it is not well indexed.
   */
  lemma IndexNotValidated(hash: Hasher, digest: Digester, b: Block)
    requires b.index == 7
    ensures IsValidChain(hash, digest, [b]) && !WellIndexed([b])
  {
    assert [b][0].index != 0 + 1;
  }

  /**
   * The two puzzle bindings of the source disagree. Line 185 of `proof_of_work`
   * computes `last_hash = self.hash(last_block)` for the puzzle, the binding the
   * `valid_proof` docstring describes (line 198), though line 188 then drops it from
   * the call. `valid_chain` checks the puzzle against the tip's own `previous_hash`.
   * With this hash and digest, proof 0 solves the first binding for the genesis
   * block, and the two-block chain sealed with it is still rejected.
   */
  lemma MiningBindingMismatch()
    ensures
      var hash: Hasher := (b: Block) => "H";
      var digest: Digester := (s: string) => if |s| > 0 && s[|s| - 1] == 'H' then "0000" else "1111";
      var genesis := Block(1, 0.0, [], GenesisProof, GenesisPreviousHash);
      var mined := Block(2, 1.0, [], 0, HashStr(hash(genesis)));
      ValidProof(digest, genesis.proof, mined.proof, hash(genesis)) &&
      !IsValidChain(hash, digest, [genesis, mined])
  {
    var hash: Hasher := (b: Block) => "H";
    var digest: Digester := (s: string) => if |s| > 0 && s[|s| - 1] == 'H' then "0000" else "1111";
    var genesis := Block(1, 0.0, [], GenesisProof, GenesisPreviousHash);
    var mined := Block(2, 1.0, [], 0, HashStr(hash(genesis)));
    var bound := PuzzleInput(genesis.proof, mined.proof, hash(genesis));
    assert bound[|bound| - 1] == 'H';
    assert digest(bound) == "0000";
    var checked := PuzzleInput(genesis.proof, mined.proof, PrevHashText(genesis.previousHash));
    assert PrevHashText(genesis.previousHash) == "1";
    assert checked[|checked| - 1] == '1';
    assert digest(checked) == "1111";
    assert Prefix(digest(checked), |Target|) == "1111" != Target;
    assert !ProofHolds(digest, genesis, mined);
    assert [genesis, mined][0] == genesis && [genesis, mined][1] == mined;
    assert !ValidStep(hash, digest, [genesis, mined], 1);
  }
}

/** The proof-of-work puzzle: its check, and a bounded search for a solution. */
module ProofOfWork {
  import opened Wrappers
  import opened Decimal

  /** The digest applied to the puzzle input (SHA-256 as hex); left uninterpreted. */
  type Digester = string -> string

  /** A solved puzzle's digest starts with this. */
  const Target: string := "0000"

  /** The string `f'{last_proof}{proof}{last_hash}'` that the digest is taken of. */
  function PuzzleInput(lastProof: int, proof: int, lastHash: string): string {
    IntToString(lastProof) + IntToString(proof) + lastHash
  }

  /** Python's slice `s[:n]`: the whole string when it is shorter than `n`. */
  function Prefix(s: string, n: nat): string {
    if |s| < n then s else s[..n]
  }

  /** `valid_proof`: the first four characters of the digest are `"0000"`. */
  predicate ValidProof(digest: Digester, lastProof: int, proof: int, lastHash: string) {
    Prefix(digest(PuzzleInput(lastProof, proof, lastHash)), |Target|) == Target
  }

  /** A proof is valid exactly when the digest has at least four characters, all `'0'`. */
  lemma ValidProofIffLeadingZeros(digest: Digester, lastProof: int, proof: int, lastHash: string)
    ensures ValidProof(digest, lastProof, proof, lastHash) <==>
      var d := digest(PuzzleInput(lastProof, proof, lastHash));
      |d| >= 4 && forall k :: 0 <= k < 4 ==> d[k] == '0'
  {
  }

  /**
   * The search of `proof_of_work`, counting up from 0, bounded by `fuel` candidates.
   * Returns the least valid proof below `fuel`, or None when there is none.
   */
  method Search(digest: Digester, lastProof: int, lastHash: string, fuel: nat) returns (r: Option<int>)
    ensures r.Some? ==> 0 <= r.value < fuel && ValidProof(digest, lastProof, r.value, lastHash)
    ensures r.Some? ==> forall q :: 0 <= q < r.value ==> !ValidProof(digest, lastProof, q, lastHash)
    ensures r.None? ==> forall q :: 0 <= q < fuel ==> !ValidProof(digest, lastProof, q, lastHash)
  {
    var proof := 0;
    while proof < fuel && !ValidProof(digest, lastProof, proof, lastHash)
      invariant 0 <= proof <= fuel
      invariant forall q :: 0 <= q < proof ==> !ValidProof(digest, lastProof, q, lastHash)
    {
      proof := proof + 1;
    }
    if proof < fuel {
      r := Some(proof);
    } else {
      r := None;
    }
  }

  /** The names bound at module level by the imports and the class statement (lines 1-12). */
  const ModuleGlobals: set<string> :=
    {"hashlib", "json", "requests", "time", "uuid4", "dedent", "urlparse",
     "Flask", "jsonify", "request", "Blockchain"}

  /** The parameters of `proof_of_work(self, last_proof)`. */
  const ProofOfWorkParameters: set<string> := {"self", "last_proof"}

  /** The names line 184 can read: a class body's names are not in a method's scope. */
  const ProofOfWorkScope: set<string> := ProofOfWorkParameters + ModuleGlobals

  /** `valid_proof(last_proof, proof, last_hash)` takes three arguments. */
  const ValidProofParameters: nat := 3

  /** Reading `name`, which raises NameError when nothing in `scope` binds it. */
  function LookupName(scope: set<string>, name: string): Result<()> {
    if name in scope then Ok(()) else Err(NameError(name))
  }

  /** Calling `callee` with `arguments` arguments where it takes `parameters`. */
  function CheckArity(callee: string, parameters: nat, arguments: nat): Result<()> {
    if arguments == parameters then Ok(()) else Err(TypeError(callee))
  }

  /**
   * `proof_of_work` as written, up to the first puzzle check: line 184 reads
   * `last_block` in `scope`, and line 188 calls `valid_proof` with
   * `validProofArguments` arguments. `Ok` means the search loop would start.
   */
  function ProofOfWorkAsWritten(scope: set<string>, validProofArguments: nat): Result<()> {
    match LookupName(scope, "last_block")
    case Err(e) => Err(e)
    case Ok(_) => CheckArity("valid_proof", ValidProofParameters, validProofArguments)
  }

  /** As written, `last_block` is neither a parameter nor a global, so the body raises NameError. */
  lemma ProofOfWorkAsWrittenRaisesNameError()
    ensures "last_block" !in ProofOfWorkScope
    ensures ProofOfWorkAsWritten(ProofOfWorkScope, 2) == Err(NameError("last_block"))
  {
  }

  /** Even with `last_block` bound, the two-argument call at line 188 raises TypeError. */
  lemma ProofOfWorkAsWrittenTwoArgumentCall(scope: set<string>)
    requires "last_block" in scope
    ensures ProofOfWorkAsWritten(scope, 2) == Err(TypeError("valid_proof"))
    ensures ProofOfWorkAsWritten(scope, ValidProofParameters).Ok?
  {
  }
}

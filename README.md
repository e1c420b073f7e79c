# Blockchain ledger and consensus engine, modelled in Dafny

This project models the `Blockchain` class of `venv/blockchain.py`: a single-node ledger with three pieces of state.
- The hash-linked chain of blocks, seeded with a genesis block.
- The pool of pending transactions, which `new_block` seals into the next block.
- The set of peer addresses, which `resolve_conflicts` consults to adopt the longest valid chain.

Layout, one module per concern:

- `wrappers.dfy` (`Wrappers`): `Option`, `Result` and the Python exceptions the code raises (`IndexError`, `ValueError`, `AttributeError`, `NameError`, `TypeError`).
- `decimal.dfy` (`Decimal`): Python's `str(int)`. The puzzle input is built from it.
- `blocks.dfy` (`Blocks`): the records.
  - `Transaction` and `Block`.
  - `previous_hash` is `Sentinel(int) | HashStr(string)`, because the genesis block stores the integer 1.
  - Python truthiness of the optional `previous_hash` argument.
  - The "index is position" property.
- `proof_of_work.dfy` (`ProofOfWork`): `valid_proof`, plus a fuel-bounded form of the `proof_of_work` search.
- `validation.dfy` (`Validation`): `valid_chain`. The `while` loop is proved equal to the predicate `IsValidChain`.
- `consensus.dfy` (`Consensus`): the longest-chain rule of `resolve_conflicts`, written as a scan over the peers' replies.
- `nodes.dfy` (`Nodes`): the entry `register_node` records for a parsed address.
- `blockchain.dfy` (`Ledger`): the class `Blockchain`.
  - Its fields `chain`, `currentTransactions` and `nodes` are updated in place.
  - `hash` and `digest` are `const` fields.

SHA-256 over the JSON of a block (`hash`) and SHA-256 of the puzzle string (in `valid_proof`) are left uninterpreted. They are function-typed parameters, `Block -> string` and `string -> string`. Every result holds for every choice of them. No result assumes the hash is collision-free: `Block` holds a real-valued timestamp, so no function from blocks to strings is injective. `TamperedBlockDetected` instead takes a replacement block whose hash differs from the original's. A digest shorter than four characters needs no axiom: like Python's `guess_hash[:4]`, the slice is then the whole string, which cannot equal `"0000"`.

Where the code disagrees with its own comments and docstrings, or with the behaviour a blockchain node is usually expected to have, the model follows the code:

- **Puzzle binding.** The `valid_proof` docstring (line 198) calls `last_hash` "The Hash from the Previous Block". But `valid_chain` passes the previous block's own `previous_hash` (line 67), not that block's hash. Line 185 of `proof_of_work` computes `last_hash = self.hash(last_block)`, the hash of the tip, for the puzzle. Line 188 then drops it and calls `valid_proof` with only two arguments. A chain mined against the tip's hash, as line 185 and the docstring describe, is therefore not accepted in general. `Validation.MiningBindingMismatch` gives an instance. `Validation.AppendValid` states what an appended block must satisfy under the binding as written.
- **Index is not checked.** `valid_chain` never looks at `index`, so a chain adopted by `resolve_conflicts` need not be well indexed (`Validation.IndexNotValidated`). For that reason "index is position" is not a class invariant. `new_block` keeps it (`WellIndexed(old(chain)) ==> WellIndexed(chain)`), and `new_Transaction` returns `|chain| + 1` only under it.
- **Reported length.** `resolve_conflicts` compares the length a peer reports, not the length of the chain it sends. A one-block chain can therefore replace a longer local chain (`Consensus.ReportedLengthDecides`).
- **Empty peer chain.** If a peer reports a long enough length but sends an empty chain, `valid_chain` fails at `chain[0]` with `IndexError`, and `resolve_conflicts` raises it (`Consensus.ScanFromFailsOnlyOnEmptyChain`).

## Model

| member | source | states |
|---|---|---|
| `Decimal.NatToString` | venv/blockchain.py:205 | the rendering of a natural number is non-empty, all decimal digits, and has no leading zero unless the number is 0 |
| `Decimal.IntToString` | venv/blockchain.py:205 | `str(i)` is non-empty and starts with `-` exactly when `i` is negative |
| `Decimal.NatToStringRoundTrip` | venv/blockchain.py:205 | reading the decimal digits back gives the number rendered |
| `ProofOfWork.ValidProofIffLeadingZeros` | venv/blockchain.py:203-207 | a proof is valid iff the digest of `str(last_proof)+str(proof)+last_hash` has at least four characters and the first four are all `'0'` |
| `ProofOfWork.Search` | venv/blockchain.py:187-191 | counting up from 0, the search returns the least valid proof below the bound; when it returns none, no candidate below the bound is valid |
| `ProofOfWork.ProofOfWorkAsWrittenRaisesNameError` | venv/blockchain.py:182-184 | `last_block` is bound neither by the parameters `self, last_proof` nor at module level (lines 1-12), so reading it at line 184 raises `NameError('last_block')` |
| `ProofOfWork.ProofOfWorkAsWrittenTwoArgumentCall` | venv/blockchain.py:188 | even in a scope that binds `last_block`, the call `valid_proof(last_proof, proof)` raises `TypeError` because `valid_proof` takes three arguments; a three-argument call would start the search |
| `Blocks.AppendKeepsWellIndexed` | venv/blockchain.py:121-132 | appending a block whose index is length + 1 keeps every block's index equal to its position |
| `Validation.ValidChain` | venv/blockchain.py:50-73 | for a non-empty chain, the loop returns true iff every block after the first is linked by `previous_hash == hash(prev)` and carries a proof valid for `(prev.proof, proof, prev.previous_hash)`; a one-block chain is valid |
| `Validation.AppendValid` | venv/blockchain.py:55-71 | appending a block keeps a chain valid exactly when the block is linked to the tip's hash and its proof is valid against the tip's proof and `previous_hash` |
| `Validation.TamperedLinkDetected` | venv/blockchain.py:62-64 | changing the `previous_hash` of any non-genesis block of a valid chain makes it invalid |
| `Validation.TamperedBlockDetected` | venv/blockchain.py:62-64 | replacing any block that has a successor by a block with a different hash makes a valid chain invalid, because the successor's `previous_hash` no longer matches |
| `Validation.IndexNotValidated` | venv/blockchain.py:50-73 | a one-block chain whose block has index 7 is valid though not well indexed: validation ignores `index` |
| `Validation.MiningBindingMismatch` | venv/blockchain.py:63-67 | for some hash and digest, a block whose proof solves the puzzle against `hash(genesis)`, the hash line 185 computes for the puzzle, is rejected by `valid_chain` |
| `Consensus.HeadKept` | venv/blockchain.py:99-102 | a valid reply longer than the running maximum becomes the kept chain, and only a strictly longer later reply displaces it |
| `Consensus.HeadSkipped` | venv/blockchain.py:95-102 | a non-200 reply, a reply not longer than the running maximum, or an invalid chain leaves the scan state unchanged |
| `Consensus.ScanFromPicksFirstLongest` | venv/blockchain.py:92-102 | the peer loop ends on its start state when no reply is a candidate, else on the first candidate of greatest reported length |
| `Consensus.ResolveAdoptsFirstLongest` | venv/blockchain.py:83-109 | a chain is adopted iff some reply is longer by report than the local chain, non-empty and valid; the adopted chain is the first such reply of greatest reported length |
| `Consensus.ScanFromFailsOnlyOnEmptyChain` | venv/blockchain.py:95-100 | the loop raises only `IndexError`, and only when a peer reports a length above the local length with an empty chain |
| `Consensus.ShortPeersNeverReplace` | venv/blockchain.py:89-109 | when no peer reports more blocks than the local chain has, nothing is raised and nothing is adopted |
| `Consensus.ReportedLengthDecides` | venv/blockchain.py:96-102 | a peer reporting length 5 with a one-block chain replaces a local chain of length 3 |
| `Consensus.StepMonotone` | venv/blockchain.py:100-102 | one loop iteration never lowers `max_length` |
| `Nodes.NetlockTypoRejectsEveryAddress` | venv/blockchain.py:33-34 | reading `parsed_url.netlock` raises `AttributeError` for every address, even one with a non-empty network location |
| `Nodes.NodeEntryRule` | venv/blockchain.py:29-41 | reading `netloc`: an entry exists iff the network location or the path is non-empty; it is the location when there is one, else the path; otherwise `ValueError('Invalid URL')` |
| `Ledger.Replies` | venv/blockchain.py:92-93 | one reply per peer, fetched in the order the peers are iterated |
| `Ledger.Blockchain.constructor` | venv/blockchain.py:14-21 | the chain is the single genesis block (index 1, no transactions, proof 100, `previous_hash` the sentinel 1); the pool and the peer set are empty |
| `Ledger.Blockchain.LastBlock` | venv/blockchain.py:154-157 | the tip is a block of the chain, and its index is the chain length when the chain is well indexed |
| `Ledger.Blockchain.NewBlock` | venv/blockchain.py:119-133 | the chain grows by exactly the new block with earlier blocks unchanged; the block has index old length + 1, the old pool as transactions, the given proof and timestamp, and the supplied `previous_hash` if truthy, else the hash of the old tip; the pool is empty afterwards; peers are untouched |
| `Ledger.Blockchain.NewTransaction` | venv/blockchain.py:144-152 | exactly one `{sender, recipient, amount}` record is appended to the pool; chain and peers are untouched; the result is the tip's index + 1, which is length + 1 on a well-indexed chain |
| `Ledger.Blockchain.RegisterNode` | venv/blockchain.py:29-41 | the peer set gains exactly the network location, else the path; when both are empty the call fails and the peer set is unchanged; chain and pool are untouched |
| `Ledger.Blockchain.ProofOfWork` | venv/blockchain.py:182-191 | a returned proof solves the puzzle against the tip's proof and the tip's hash; with no result, no candidate below the bound does |
| `Ledger.Blockchain.ResolveConflicts` | venv/blockchain.py:83-109 | the local chain becomes the chain chosen by the longest-chain scan and the result is true; with no chosen chain the result is false and the chain is unchanged; an `IndexError` from the scan leaves the chain unchanged; pool and peers are untouched |

## Left out

- The Flask adapter (`app`, `node_identifier`, `blockchain`, and the view functions `mine`, `new_transaction`, `full_chain`, `register_nodes`, `consensus`; lines 209-319) is not part of this model. It is indented inside the `class Blockchain` body. So line 216 `blockchain = Blockchain()` runs before the name `Blockchain` is bound, and the class statement raises `NameError`. Inside that body, `blockchain.new_transaction(...)` names the zero-argument view function at line 251, not the three-argument `new_Transaction` at line 144.
- The HTTP fetch (`requests.get`, `response.json()`, lines 93-97) is replaced by the parameter `fetch: string -> PeerReply`. A non-200 status is `NotOk`. Network exceptions, which the loop does not catch, are not modelled.
- Malformed JSON from a peer, such as a missing `length`, `chain` or block key (a `KeyError` in Python), is not modelled: blocks are typed records.
- Iteration order over the peer set is an input: `ResolveConflicts` takes a sequence `order` that lists each peer exactly once.
- SHA-256 and the JSON serialisation with sorted keys (`hash`, lines 168-171) are uninterpreted function parameters. Hex encoding and byte encoding are not modelled.
- `urlparse` is not modelled. Registration takes its result as a `ParsedUrl(netloc, path)` record. Whether `"192.168.0.9:5000"` and `"http://192.168.0.9:5000"` parse to the same entry depends on `urlparse` and is not stated.
- `time()` is the `timestamp` parameter, modelled as `real`. `uuid4()` belongs to the adapter.
- The debug `print` calls in `valid_chain` (lines 58-60) are left out.
- Transaction amounts and proofs are `int`. Other JSON values they could hold are not modelled.
- Tampering with the `proof` of a block is not shown to be detected: with an uninterpreted digest, a changed proof may still solve the puzzle.
- Ledger.Blockchain.ProofOfWork: bounded by `fuel` candidates, while the source searches without bound. Termination of the unbounded search cannot be proved.
- Concurrency is not modelled: the source is single-threaded and each method runs to completion.

## Findings

| source | as written | input that shows it | evidently intended | confidence | as-written member | corrected member |
|---|---|---|---|---|---|---|
| venv/blockchain.py:33-34 | reads `parsed_url.netlock`, an attribute `urlparse` results do not have, so `AttributeError` is raised | any address, e.g. one whose network location is `192.168.0.9:5000` | read `parsed_url.netloc` and record it | high, not executed | `Nodes.NetlockTypoRejectsEveryAddress` | `Ledger.Blockchain.RegisterNode` |
| venv/blockchain.py:184-188 | reads the undefined name `last_block`, raising `NameError`; line 188 also calls `valid_proof` with two of its three arguments | any call: the name lookup fails before the first candidate is tried | search upward from 0 for a proof valid against the tip's proof and hash | high, not executed | `ProofOfWork.ProofOfWorkAsWrittenRaisesNameError` | `ProofOfWork.Search` |

/** The longest-chain rule of `resolve_conflicts`, as a scan over the peers' replies. */
module Consensus {
  import opened Wrappers
  import opened Blocks
  import opened ProofOfWork
  import opened Validation

  /**
   * What fetching `/chain` from one peer gave: a non-200 status, or the reported
   * `length` and `chain` of the JSON body. The reported length is not checked
   * against the chain.
   */
  datatype PeerReply = NotOk | Reply(length: int, chain: Chain)

  /** The loop state of `resolve_conflicts`: `max_length` and `new_chain`. */
  datatype Scan = Scan(maxLength: int, newChain: Option<Chain>)

  /**
   * One loop iteration. A reply is validated only when its reported length beats
   * the running maximum; validating an empty chain raises IndexError.
   */
  function Step(hash: Hasher, digest: Digester, s: Scan, reply: PeerReply): Result<Scan> {
    match reply
    case NotOk => Ok(s)
    case Reply(length, chain) =>
      if length > s.maxLength then
        if |chain| == 0 then Err(IndexError)
        else if IsValidChain(hash, digest, chain) then Ok(Scan(length, Some(chain)))
        else Ok(s)
      else Ok(s)
  }

  /** The loop over the replies in peer iteration order; the first exception ends it. */
  function ScanFrom(hash: Hasher, digest: Digester, s: Scan, replies: seq<PeerReply>): Result<Scan>
    decreases |replies|
  {
    if replies == [] then Ok(s)
    else
      match Step(hash, digest, s, replies[0])
      case Err(e) => Err(e)
      case Ok(s') => ScanFrom(hash, digest, s', replies[1..])
  }

  /** The whole scan, starting from the local chain's length and no candidate. */
  function Resolve(hash: Hasher, digest: Digester, localLength: int, replies: seq<PeerReply>): Result<Scan> {
    ScanFrom(hash, digest, Scan(localLength, None), replies)
  }

  /** A reply that could replace a chain of length `bar`: longer by report, non-empty and valid. */
  predicate Candidate(hash: Hasher, digest: Digester, bar: int, reply: PeerReply) {
    reply.Reply? && reply.length > bar && |reply.chain| > 0 && IsValidChain(hash, digest, reply.chain)
  }

  /** Reply `k` is a candidate of greatest reported length and no earlier candidate ties with it. */
  predicate FirstLongest(hash: Hasher, digest: Digester, bar: int, replies: seq<PeerReply>, k: int) {
    0 <= k < |replies| && Candidate(hash, digest, bar, replies[k]) &&
    (forall j :: 0 <= j < |replies| && Candidate(hash, digest, bar, replies[j]) ==>
      replies[j].length <= replies[k].length) &&
    (forall j :: 0 <= j < k && Candidate(hash, digest, bar, replies[j]) ==>
      replies[j].length < replies[k].length)
  }

  /** The running maximum never decreases and stays the length of the kept candidate. */
  lemma StepMonotone(hash: Hasher, digest: Digester, s: Scan, reply: PeerReply)
    requires Step(hash, digest, s, reply).Ok?
    ensures Step(hash, digest, s, reply).value.maxLength >= s.maxLength
  {
  }

  /**
   * `t` is the right outcome of scanning `replies` from `s`: the start state when no
   * reply is a candidate, else the first candidate of greatest reported length.
   */
  ghost predicate Picks(hash: Hasher, digest: Digester, s: Scan, replies: seq<PeerReply>, t: Scan) {
    (t == s && forall j :: 0 <= j < |replies| ==> !Candidate(hash, digest, s.maxLength, replies[j])) ||
    (exists k :: FirstLongest(hash, digest, s.maxLength, replies, k) &&
       t == Scan(replies[k].length, Some(replies[k].chain)))
  }

  /** A candidate at the head becomes the kept chain; the rest must beat its length. */
  lemma HeadKept(hash: Hasher, digest: Digester, s: Scan, replies: seq<PeerReply>, t: Scan)
    requires |replies| > 0 && Candidate(hash, digest, s.maxLength, replies[0])
    requires Picks(hash, digest, Scan(replies[0].length, Some(replies[0].chain)), replies[1..], t)
    ensures Picks(hash, digest, s, replies, t)
  {
    var r0, rest := replies[0], replies[1..];
    var s1 := Scan(r0.length, Some(r0.chain));
    forall j | 1 <= j < |replies|
      ensures replies[j] == rest[j - 1]
    {
    }
    if exists k :: FirstLongest(hash, digest, s1.maxLength, rest, k) &&
        t == Scan(rest[k].length, Some(rest[k].chain)) {
      // A later reply beats r0; its position shifts by one.
      var k :| FirstLongest(hash, digest, s1.maxLength, rest, k) &&
        t == Scan(rest[k].length, Some(rest[k].chain));
      assert FirstLongest(hash, digest, s.maxLength, replies, k + 1);
    } else {
      // No later reply beats r0, so r0 is the first longest.
      forall j | 1 <= j < |replies| && Candidate(hash, digest, s.maxLength, replies[j])
        ensures replies[j].length <= r0.length
      {
        assert !Candidate(hash, digest, s1.maxLength, rest[j - 1]);
      }
      assert FirstLongest(hash, digest, s.maxLength, replies, 0);
    }
  }

  /** A head that is not a candidate leaves the state as it was and cannot be chosen. */
  lemma HeadSkipped(hash: Hasher, digest: Digester, s: Scan, replies: seq<PeerReply>, t: Scan)
    requires |replies| > 0 && !Candidate(hash, digest, s.maxLength, replies[0])
    requires Picks(hash, digest, s, replies[1..], t)
    ensures Picks(hash, digest, s, replies, t)
  {
    var rest := replies[1..];
    forall j | 1 <= j < |replies|
      ensures replies[j] == rest[j - 1]
    {
    }
    if exists k :: FirstLongest(hash, digest, s.maxLength, rest, k) &&
        t == Scan(rest[k].length, Some(rest[k].chain)) {
      var k :| FirstLongest(hash, digest, s.maxLength, rest, k) &&
        t == Scan(rest[k].length, Some(rest[k].chain));
      assert FirstLongest(hash, digest, s.maxLength, replies, k + 1);
    } else {
      forall j | 0 <= j < |replies|
        ensures !Candidate(hash, digest, s.maxLength, replies[j])
      {
        if j > 0 {
          assert replies[j] == rest[j - 1];
        }
      }
    }
  }

  /**
   * The scan either keeps its start state, when no reply is a candidate, or ends on
   * the first candidate of greatest reported length.
   */
  lemma {:induction false} ScanFromPicksFirstLongest(hash: Hasher, digest: Digester, s: Scan, replies: seq<PeerReply>)
    requires ScanFrom(hash, digest, s, replies).Ok?
    ensures Picks(hash, digest, s, replies, ScanFrom(hash, digest, s, replies).value)
    decreases |replies|
  {
    if replies == [] {
      return;
    }
    var s1 := Step(hash, digest, s, replies[0]).value;
    var t := ScanFrom(hash, digest, s, replies).value;
    ScanFromPicksFirstLongest(hash, digest, s1, replies[1..]);
    assert t == ScanFrom(hash, digest, s1, replies[1..]).value;
    if Candidate(hash, digest, s.maxLength, replies[0]) {
      HeadKept(hash, digest, s, replies, t);
    } else {
      HeadSkipped(hash, digest, s, replies, t);
    }
  }

  /**
   * `resolve_conflicts` adopts a chain exactly when some reply is a candidate against
   * the local length, and then adopts the first reply of greatest reported length.
   */
  lemma ResolveAdoptsFirstLongest(hash: Hasher, digest: Digester, localLength: int, replies: seq<PeerReply>)
    requires Resolve(hash, digest, localLength, replies).Ok?
    ensures var t := Resolve(hash, digest, localLength, replies).value;
      t.newChain.None? <==> forall j :: 0 <= j < |replies| ==> !Candidate(hash, digest, localLength, replies[j])
    ensures var t := Resolve(hash, digest, localLength, replies).value;
      t.newChain.Some? ==>
        exists k :: FirstLongest(hash, digest, localLength, replies, k) &&
          t.newChain.value == replies[k].chain && t.maxLength == replies[k].length
  {
    ScanFromPicksFirstLongest(hash, digest, Scan(localLength, None), replies);
  }

  /**
   * The scan raises only IndexError, and only when some peer reports a length above
   * the start maximum together with an empty chain.
   */
  lemma {:induction false} ScanFromFailsOnlyOnEmptyChain(hash: Hasher, digest: Digester, s: Scan, replies: seq<PeerReply>)
    requires ScanFrom(hash, digest, s, replies).Err?
    ensures ScanFrom(hash, digest, s, replies).error == IndexError
    ensures exists j ::
      0 <= j < |replies| && replies[j].Reply? && replies[j].chain == [] && replies[j].length > s.maxLength
    decreases |replies|
  {
    var step := Step(hash, digest, s, replies[0]);
    if step.Err? {
      assert replies[0].Reply? && replies[0].chain == [] && replies[0].length > s.maxLength;
    } else {
      StepMonotone(hash, digest, s, replies[0]);
      ScanFromFailsOnlyOnEmptyChain(hash, digest, step.value, replies[1..]);
      var j :| 0 <= j < |replies[1..]| && replies[1..][j].Reply? && replies[1..][j].chain == [] &&
        replies[1..][j].length > step.value.maxLength;
      assert replies[j + 1] == replies[1..][j];
    }
  }

  /** When no peer reports more blocks than the local chain has, nothing is adopted and nothing is raised. */
  lemma ShortPeersNeverReplace(hash: Hasher, digest: Digester, localLength: int, replies: seq<PeerReply>)
    requires forall j :: 0 <= j < |replies| && replies[j].Reply? ==> replies[j].length <= localLength
    ensures Resolve(hash, digest, localLength, replies) == Ok(Scan(localLength, None))
  {
    if Resolve(hash, digest, localLength, replies).Err? {
      ScanFromFailsOnlyOnEmptyChain(hash, digest, Scan(localLength, None), replies);
    }
    ScanFromPicksFirstLongest(hash, digest, Scan(localLength, None), replies);
  }

  /**
   * Only the reported length is compared: a peer that reports 5 blocks but sends a
   * one-block chain replaces a local chain of 3 blocks.
   */
  lemma ReportedLengthDecides(hash: Hasher, digest: Digester, b: Block)
    ensures Resolve(hash, digest, 3, [Reply(5, [b])]) == Ok(Scan(5, Some([b])))
  {
    assert IsValidChain(hash, digest, [b]);
    assert Step(hash, digest, Scan(3, None), Reply(5, [b])) == Ok(Scan(5, Some([b])));
    assert [Reply(5, [b])][1..] == [];
    assert ScanFrom(hash, digest, Scan(5, Some([b])), []) == Ok(Scan(5, Some([b])));
  }
}

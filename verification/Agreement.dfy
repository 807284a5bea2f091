/** Safety of the notary group's proofs: two accepted proofs of one height carry the same round. */
module Agreement {
  import opened Prelude
  import opened Signatures
  import opened Rounds
  import opened NotaryGroup
  import opened Proof

  // ----- What an accepted proof contains

  lemma {:induction false} FindRequestFinds(codec: Codec, cids: seq<Bytes>, abrCid: Bytes)
    ensures FindRequest(codec, cids, abrCid) == Ok(true) <==>
            exists k :: 0 <= k < |cids| && cids[k] == abrCid && forall j :: 0 <= j <= k ==> codec.isCid(cids[j])
  {
    if |cids| > 0 {
      FindRequestFinds(codec, cids[1..], abrCid);
      if FindRequest(codec, cids, abrCid) == Ok(true) && cids[0] != abrCid {
        var k :| 0 <= k < |cids[1..]| && cids[1..][k] == abrCid && forall j :: 0 <= j <= k ==> codec.isCid(cids[1..][j]);
        forall j | 0 <= j <= k + 1
          ensures codec.isCid(cids[j])
        {
          assert j > 0 ==> cids[j] == cids[1..][j - 1];
        }
        assert cids[k + 1] == abrCid;
      }
      if k :| 0 <= k < |cids| && cids[k] == abrCid && forall j :: 0 <= j <= k ==> codec.isCid(cids[j]) {
        if cids[0] != abrCid {
          assert cids[1..][k - 1] == abrCid;
        }
      }
    }
  }

  /** The links from a quorum of signers down to the tip, as one condition. */
  ghost predicate Chained(suite: Suite, codec: Codec, p: ProofValue, quorumCount: nat, verKeys: seq<nat>) {
    var sig, cids := p.confirmation.signature, p.checkpoint.addBlockRequests;
    && |Support(sig.signers)| >= quorumCount && |sig.signers| == |verKeys|
    && Valid(suite, Restored(suite, sig, verKeys), p.confirmation.roundCid) == Ok(true)
    && p.confirmation.roundCid == codec.RoundCid(p.round)
    && p.round.checkpointCid == codec.CheckpointCid(p.checkpoint)
    && (exists k :: 0 <= k < |cids| && cids[k] == codec.RequestCid(p.request)
                    && forall j :: 0 <= j <= k ==> codec.isCid(cids[j]))
    && codec.isCid(p.tip) && p.tip == p.request.newTip
    && p.objectId == p.request.objectId
  }

  lemma AcceptedIffChained(suite: Suite, codec: Codec, p: ProofValue, quorumCount: nat, verKeys: seq<nat>)
    requires codec.SoundCids()
    ensures Check(suite, codec, p, quorumCount, verKeys) == Ok(true) <==>
            Chained(suite, codec, p, quorumCount, verKeys)
  {
    FindRequestFinds(codec, p.checkpoint.addBlockRequests, codec.RequestCid(p.request));
  }

  predicate AllCast(codec: Codec, p: ProofValue) {
    && codec.isCid(p.confirmation.roundCid) && codec.isCid(p.round.checkpointCid)
    && (forall c :: c in p.checkpoint.addBlockRequests ==> codec.isCid(c))
    && codec.isCid(p.tip) && codec.isCid(p.request.newTip)
  }

  /** A proof whose confirmation can be checked and whose CIDs all cast is accepted or refused by its links, never
      an error; an error of the confirmation, or a CID on the way that does not cast, is an error. */
  lemma ReadableProofsDecide(suite: Suite, codec: Codec, p: ProofValue, quorumCount: nat, verKeys: seq<nat>)
    requires codec.SoundCids()
    ensures CheckConfirmation(suite, p.confirmation, quorumCount, verKeys).Ok? && AllCast(codec, p) ==>
              Check(suite, codec, p, quorumCount, verKeys) == Ok(Chained(suite, codec, p, quorumCount, verKeys))
    ensures CheckConfirmation(suite, p.confirmation, quorumCount, verKeys).Err? ==>
              Check(suite, codec, p, quorumCount, verKeys).Err?
    ensures CheckConfirmation(suite, p.confirmation, quorumCount, verKeys) == Ok(true) ==>
              var check := Check(suite, codec, p, quorumCount, verKeys);
              var confirms := codec.RoundCid(p.round) == p.confirmation.roundCid;
              var completes := confirms && codec.CheckpointCid(p.checkpoint) == p.round.checkpointCid;
              var search := FindRequest(codec, p.checkpoint.addBlockRequests, codec.RequestCid(p.request));
              && (!codec.isCid(p.confirmation.roundCid) ==> check.Err?)
              && (confirms && !codec.isCid(p.round.checkpointCid) ==> check.Err?)
              && (completes && search.Err? ==> check.Err?)
              && (completes && search == Ok(true) && !(codec.isCid(p.tip) && codec.isCid(p.request.newTip)) ==> check.Err?)
    ensures CheckConfirmation(suite, p.confirmation, quorumCount, verKeys).Err? <==>
            var sig := p.confirmation.signature;
            && |Support(sig.signers)| >= quorumCount
            && (|sig.signers| == |verKeys| ==> Valid(suite, Restored(suite, sig, verKeys), p.confirmation.roundCid).Err?)
  {
    AcceptedIffChained(suite, codec, p, quorumCount, verKeys);
    SearchFails(codec, p.checkpoint.addBlockRequests, codec.RequestCid(p.request));
  }

  function NoCid(codec: Codec): Bytes -> bool {
    (c: Bytes) => !codec.isCid(c)
  }

  function Is(abrCid: Bytes): Bytes -> bool {
    (c: Bytes) => c == abrCid
  }

  /** The search fails exactly when something that does not cast comes before the request. */
  lemma {:induction false} SearchFails(codec: Codec, cids: seq<Bytes>, abrCid: Bytes)
    ensures FindRequest(codec, cids, abrCid).Err? <==> ComesFirst(cids, NoCid(codec), Is(abrCid))
    ensures FindRequest(codec, cids, abrCid).Err? ==> exists c :: c in cids && !codec.isCid(c)
  {
    if |cids| > 0 {
      SearchFails(codec, cids[1..], abrCid);
      if !NoCid(codec)(cids[0]) && !Is(abrCid)(cids[0]) {
        ComesFirstTail(cids, NoCid(codec), Is(abrCid));
      }
    }
  }

  // ----- Quorum intersection

  predicate Between(lo: int, i: int, hi: int) {
    lo <= i < hi
  }

  function Range(lo: int, hi: int): set<int> {
    set i: int | lo <= i < hi && Between(lo, i, hi)
  }

  lemma {:induction false} RangeSize(lo: int, hi: int)
    requires lo <= hi
    ensures |Range(lo, hi)| == hi - lo
    decreases hi - lo
  {
    if lo < hi {
      RangeSize(lo, hi - 1);
      assert Range(lo, hi) == Range(lo, hi - 1) + {hi - 1};
    }
  }

  ghost predicate Quorum(n: nat, q: set<int>) {
    q <= Range(0, n) && |q| >= QuorumCount(n)
  }

  ghost predicate Faulty(n: nat, f: nat, faulty: set<int>) {
    faulty <= Range(0, n) && |faulty| == f
  }

  ghost predicate ShareHonest(q: set<int>, q': set<int>, faulty: set<int>) {
    exists i :: i in q && i in q' && i !in faulty
  }

  /** Whichever `f` signers are faulty, any two quorums share an honest one. */
  ghost predicate QuorumsIntersect(n: nat, f: nat) {
    forall q, q', faulty :: Quorum(n, q) && Quorum(n, q') && Faulty(n, f, faulty) ==> ShareHonest(q, q', faulty)
  }

  lemma {:induction false} Pigeonhole(n: nat, q: set<int>, q': set<int>, faulty: set<int>)
    requires Quorum(n, q) && Quorum(n, q') && |faulty| + n < 2 * QuorumCount(n)
    ensures ShareHonest(q, q', faulty)
  {
    RangeSize(0, n);
    SubsetSize(q + q', Range(0, n));
    assert |q * q'| == |q| + |q'| - |q + q'|;
    if q * q' <= faulty {
      SubsetSize(q * q', faulty);
    }
    var i :| i in q * q' && i !in faulty;
  }

  /** The bound is exact, and fewer than a third of faulty signers always meets it. */
  lemma {:induction false} QuorumsIntersectIff(n: nat, f: nat)
    requires f <= n
    ensures QuorumsIntersect(n, f) <==> f + n < 2 * QuorumCount(n)
    ensures 3 * f < n ==> f + n < 2 * QuorumCount(n)
  {
    if f + n < 2 * QuorumCount(n) {
      forall q, q', faulty | Quorum(n, q) && Quorum(n, q') && Faulty(n, f, faulty)
        ensures ShareHonest(q, q', faulty)
      {
        Pigeonhole(n, q, q', faulty);
      }
    } else {
      TooManyFaulty(n, f);
    }
  }

  lemma {:induction false} TooManyFaulty(n: nat, f: nat)
    requires f <= n && f + n >= 2 * QuorumCount(n)
    ensures !QuorumsIntersect(n, f)
  {
    var c := QuorumCount(n);
    var a := if f <= c then n - c else n - f;
    var q, q', faulty := Range(0, c), Range(n - c, n), Range(a, a + f);
    Interval(n, 0, c);
    Interval(n, n - c, n);
    Interval(n, a, a + f);
    assert forall i :: i in q && i in q' ==> i in faulty;
    assert Quorum(n, q) && Quorum(n, q') && Faulty(n, f, faulty) && !ShareHonest(q, q', faulty);
  }

  lemma {:induction false} Interval(n: nat, lo: int, hi: int)
    requires 0 <= lo <= hi <= n
    ensures Range(lo, hi) <= Range(0, n) && |Range(lo, hi)| == hi - lo
    ensures hi - lo == QuorumCount(n) ==> Quorum(n, Range(lo, hi))
    ensures Faulty(n, hi - lo, Range(lo, hi))
  {
    RangeSize(lo, hi);
  }

  // ----- Agreement

  /** Unforgeability: whoever is not faulty and is counted in the confirmation did sign its round. */
  ghost predicate Attributed(p: ProofValue, faulty: set<int>, signed: iset<(int, Bytes)>) {
    forall i :: i in Support(p.confirmation.signature.signers) && i !in faulty
                ==> (i, p.confirmation.roundCid) in signed
  }

  /** An honest signer signs at most one round of a height. */
  ghost predicate OneRoundPerHeight(codec: Codec, faulty: set<int>, signed: iset<(int, Bytes)>) {
    forall i, r, r' ::
      (i !in faulty && (i, codec.RoundCid(r)) in signed && (i, codec.RoundCid(r')) in signed && r.height == r'.height)
      ==> codec.RoundCid(r) == codec.RoundCid(r')
  }

  /** So few signers are faulty that any two quorums share an honest one, who signs one round of a height. */
  ghost predicate Trustworthy(codec: Codec, n: nat, faulty: set<int>, signed: iset<(int, Bytes)>) {
    |faulty| + n < 2 * QuorumCount(n) && OneRoundPerHeight(codec, faulty, signed)
  }

  /** The checker accepts the proof, and whoever is honest and counted in it did sign. */
  ghost predicate AcceptedProof(
    suite: Suite, codec: Codec, verKeys: seq<nat>, faulty: set<int>, signed: iset<(int, Bytes)>, p: ProofValue)
  {
    Check(suite, codec, p, QuorumCount(|verKeys|), verKeys) == Ok(true) && Attributed(p, faulty, signed)
  }

  /** Two proofs of equal round height that the checker accepts for the same group carry the same round
      and the same checkpoint, as long as so few signers are faulty that any two quorums share an honest
      one (fewer than a third suffices). */
  lemma AcceptedProofsAgree(
    suite: Suite, codec: Codec, verKeys: seq<nat>,
    p: ProofValue, p': ProofValue, faulty: set<int>, signed: iset<(int, Bytes)>)
    requires codec.Sound() && Trustworthy(codec, |verKeys|, faulty, signed)
    requires AcceptedProof(suite, codec, verKeys, faulty, signed, p) && AcceptedProof(suite, codec, verKeys, faulty, signed, p')
    requires p.round.height == p'.round.height
    ensures p.round == p'.round && p.checkpoint == p'.checkpoint
    ensures p.confirmation.roundCid == p'.confirmation.roundCid
  {
    var n := |verKeys|;
    var q, q' := Support(p.confirmation.signature.signers), Support(p'.confirmation.signature.signers);
    Pigeonhole(n, q, q', faulty);
    var i :| i in q && i in q' && i !in faulty;
    assert (i, codec.RoundCid(p.round)) in signed && (i, codec.RoundCid(p'.round)) in signed;
    codec.RoundCidInjective(p.round, p'.round);
    codec.CheckpointCidInjective(p.checkpoint, p'.checkpoint);
  }

  // ----- The height in the confirmation

  /** A proof whose confirmation names another height; the signature covers the round's CID only. */
  function Relabelled(p: ProofValue, h: uint64): ProofValue {
    p.(confirmation := p.confirmation.(height := h))
  }

  /** Two accepted proofs of different rounds stay accepted when one is given the other's confirmation height:
      for confirmation heights alone there is no agreement. */
  lemma RelabelledProofsDisagree(
    suite: Suite, codec: Codec, verKeys: seq<nat>,
    p: ProofValue, p': ProofValue, faulty: set<int>, signed: iset<(int, Bytes)>)
    requires AcceptedProof(suite, codec, verKeys, faulty, signed, p) && AcceptedProof(suite, codec, verKeys, faulty, signed, p')
    requires p.round != p'.round
    ensures var q := Relabelled(p', p.confirmation.height);
            && AcceptedProof(suite, codec, verKeys, faulty, signed, q)
            && q.confirmation.height == p.confirmation.height && q.round != p.round
  {
    var q := Relabelled(p', p.confirmation.height);
    assert CheckConfirmation(suite, q.confirmation, QuorumCount(|verKeys|), verKeys) ==
           CheckConfirmation(suite, p'.confirmation, QuorumCount(|verKeys|), verKeys);
    assert Check(suite, codec, q, QuorumCount(|verKeys|), verKeys) == Check(suite, codec, p', QuorumCount(|verKeys|), verKeys);
  }

  /** Proofs of equal confirmation height carry the same round exactly when the rounds have equal heights; so a
      caller that compares each confirmation's height with its round's gets agreement. */
  lemma ConfirmationHeightsAgreeIff(
    suite: Suite, codec: Codec, verKeys: seq<nat>,
    p: ProofValue, p': ProofValue, faulty: set<int>, signed: iset<(int, Bytes)>)
    requires codec.Sound() && Trustworthy(codec, |verKeys|, faulty, signed)
    requires AcceptedProof(suite, codec, verKeys, faulty, signed, p) && AcceptedProof(suite, codec, verKeys, faulty, signed, p')
    requires p.confirmation.height == p'.confirmation.height
    ensures p.round == p'.round <==> p.round.height == p'.round.height
    ensures p.confirmation.height == p.round.height && p'.confirmation.height == p'.round.height ==>
              p.round == p'.round && p.checkpoint == p'.checkpoint
  {
    if p.round.height == p'.round.height {
      AcceptedProofsAgree(suite, codec, verKeys, p, p', faulty, signed);
    }
  }
}

/** What holds of every run of the round protocol: the multiplicity vectors refine plain sets of signers,
    quorum fires exactly when such a set is large enough, and the order of arrival does not matter. */
module RoundRuns {
  import opened Prelude
  import opened Signatures
  import opened Rounds
  import opened RoundProtocol
  import opened Proof

  // ----- Refinement of sets

  /** Above `current`, an entry's non-zero positions are the signers of all confirmations accepted for its
      round, fewer than a quorum; no entry means that none was accepted. */
  lemma EntriesAreUnions(env: Env, ms: seq<Confirmed>, h: uint64, c: Bytes)
    requires Above(Run(env, ms), h)
    ensures match Entry(Run(env, ms), h, c)
            case None => SignersAt(Accepted(env, ms), h, c) == {} && At(Accepted(env, ms), h, c) == []
            case Some(sig) =>
              && Support(sig.signers) == SignersAt(Accepted(env, ms), h, c)
              && |SignersAt(Accepted(env, ms), h, c)| < env.Quorum()
  {
    RunInvariant(env, ms);
    TrackedUnion(env, Run(env, ms), Accepted(env, ms), h, c);
  }

  lemma TrackedUnion(env: Env, st: State, log: seq<Confirmed>, h: uint64, c: Bytes)
    requires Inv(env, st, log) && Above(st, h)
    ensures match Entry(st, h, c)
            case None => SignersAt(log, h, c) == {} && At(log, h, c) == []
            case Some(sig) => Support(sig.signers) == SignersAt(log, h, c) && |SignersAt(log, h, c)| < env.Quorum()
  {
    assert Tracks(env, Entry(st, h, c), At(log, h, c));
    match Entry(st, h, c)
    case None =>
      AtMembers(log, h, c);
      assert forall m :: m in log && Is(m, h, c) ==> m.signature in At(log, h, c);
    case Some(sig) =>
      SupportIsUnion(log, h, c, sig.signers);
  }

  /** An accepted message makes its round current exactly when the distinct signers seen so far, this one
      included, reach the quorum; before it they did not, however often they were repeated. */
  lemma {:induction false} QuorumFiresOnFirstReach(env: Env, ms: seq<Confirmed>, m: Confirmed)
    requires Step(env, Run(env, ms), m).Ok?
    ensures var before := SignersAt(Accepted(env, ms), m.height, m.roundCid);
            var after := SignersAt(Accepted(env, ms) + [m], m.height, m.roundCid);
            var st' := Step(env, Run(env, ms), m).value;
            && after == before + Support(m.signature.signers)
            && (|before| < env.Quorum() || before == {})
            && (|after| >= env.Quorum() ==>
                  st'.current.Some? && st'.current.value.height == m.height && st'.current.value.roundCid == m.roundCid
                  && Support(st'.current.value.signature.signers) == after)
            && (|after| < env.Quorum() ==> st'.current == Run(env, ms).current)
  {
    RunInvariant(env, ms);
    QuorumFires(env, Run(env, ms), Accepted(env, ms), m);
    NoQuorumBefore(env, Run(env, ms), Accepted(env, ms), m);
    SignersSnoc(Accepted(env, ms), m);
  }

  lemma QuorumFires(env: Env, st: State, log: seq<Confirmed>, m: Confirmed)
    requires Inv(env, st, log) && Step(env, st, m).Ok?
    ensures var after, current := SignersAt(log + [m], m.height, m.roundCid), Step(env, st, m).value.current;
            && (|after| >= env.Quorum() ==>
                  current.Some? && current.value.height == m.height && current.value.roundCid == m.roundCid
                  && Support(current.value.signature.signers) == after)
            && (|after| < env.Quorum() ==> current == st.current)
  {
    UpdatedIsGood(env, st, log, m);
    StepCurrent(env, st, m);
  }

  lemma NoQuorumBefore(env: Env, st: State, log: seq<Confirmed>, m: Confirmed)
    requires Inv(env, st, log) && Step(env, st, m).Ok?
    ensures var before := SignersAt(log, m.height, m.roundCid);
            |before| < env.Quorum() || before == {}
  {
    TrackedUnion(env, st, log, m.height, m.roundCid);
  }

  lemma {:induction false} SignersSnoc(log: seq<Confirmed>, m: Confirmed)
    ensures SignersAt(log + [m], m.height, m.roundCid) ==
            SignersAt(log, m.height, m.roundCid) + Support(m.signature.signers)
  {
    var before, after := SignersAt(log, m.height, m.roundCid), SignersAt(log + [m], m.height, m.roundCid);
    forall i | i in before + Support(m.signature.signers)
      ensures i in after
    {
      if i in before {
        var k :| k in log && i in Support(k.signature.signers) && Is(k, m.height, m.roundCid);
        assert k in log + [m];
      } else {
        assert m in log + [m] && Is(m, m.height, m.roundCid);
      }
    }
  }

  lemma RunSnoc(env: Env, ms: seq<Confirmed>, m: Confirmed)
    ensures Run(env, ms + [m]) == StepOrStay(env, Run(env, ms), m)
  {
    assert (ms + [m])[..|ms|] == ms;
  }

  /** Over every run `current` stays, or moves to a strictly greater height. */
  lemma {:induction false} CurrentOnlyRises(env: Env, ms: seq<Confirmed>, more: seq<Confirmed>)
    ensures var c, c' := Run(env, ms).current, Run(env, ms + more).current;
            c' == c || (c'.Some? && (c.Some? ==> c.value.height < c'.value.height))
  {
    if |more| == 0 {
      assert ms + more == ms;
    } else {
      var front, m := more[..|more| - 1], more[|more| - 1];
      CurrentOnlyRises(env, ms, front);
      assert ms + more == (ms + front) + [m];
      RunSnoc(env, ms + front, m);
    }
  }

  // ----- The height in a confirmation is not signed

  /** A valid quorum sent again under any greater height makes that height current, unless a signature of the
      same round is already in flight there. */
  lemma RelabelledQuorumTakesOver(env: Env, st: State, m: Confirmed, h: uint64)
    requires Admissible(env, m) && IsQuorum(env, m.signature)
    requires Above(st, h) && Entry(st, h, m.roundCid).None?
    ensures var st' := StepOrStay(env, st, m.(height := h));
            && st'.current == Some(Confirmed(h, m.roundCid, Restored(env.suite, m.signature, env.verKeys)))
            && forall k: uint64 :: Above(st', k) <==> k > h
  {
    assert Admissible(env, m.(height := h));
    assert Support(Restored(env.suite, m.signature, env.verKeys).signers) == Support(m.signature.signers);
  }

  /** So the greatest height of all, once current, stays current: no later message is taken in. */
  lemma {:induction false} NothingAfterTheTop(env: Env, ms: seq<Confirmed>, more: seq<Confirmed>)
    requires Run(env, ms).current.Some? && Run(env, ms).current.value.height == TWO_TO_THE_64 - 1
    ensures Run(env, ms + more) == Run(env, ms)
  {
    if |more| == 0 {
      assert ms + more == ms;
    } else {
      var front, m := more[..|more| - 1], more[|more| - 1];
      NothingAfterTheTop(env, ms, front);
      assert ms + more == (ms + front) + [m];
      RunSnoc(env, ms + front, m);
    }
  }

  // ----- Order of arrival

  function AdmissibleOf(env: Env, ms: seq<Confirmed>): seq<Confirmed> {
    if |ms| == 0 then []
    else
      var front, m := AdmissibleOf(env, ms[..|ms| - 1]), ms[|ms| - 1];
      if Admissible(env, m) then front + [m] else front
  }

  function Contribution(env: Env, h: uint64, c: Bytes, i: nat): Confirmed -> nat {
    (m: Confirmed) => if Admissible(env, m) && Is(m, h, c) then Count(m.signature, i) else 0
  }

  /** No signer's multiplicity, summed over all the messages of a round, leaves 32 bits. */
  ghost predicate NoOverflow(env: Env, ms: seq<Confirmed>) {
    forall h, c, i :: 0 <= i < |env.verKeys| ==> SumBy(Contribution(env, h, c, i), ms) <= MAX_UINT32
  }

  lemma {:induction false} ColumnsAreSums(env: Env, ms: seq<Confirmed>, h: uint64, c: Bytes, i: nat)
    requires i < |env.verKeys|
    ensures Columns(At(AdmissibleOf(env, ms), h, c), |env.verKeys|)[i] == SumBy(Contribution(env, h, c, i), ms)
  {
    if |ms| > 0 {
      var front, m := ms[..|ms| - 1], ms[|ms| - 1];
      ColumnsAreSums(env, front, h, c, i);
      var sigs := At(AdmissibleOf(env, front), h, c);
      if Admissible(env, m) {
        AtSnoc(AdmissibleOf(env, front), m, h, c);
        ColumnsSnoc(sigs, m.signature, |env.verKeys|);
      }
    }
  }

  lemma NoOverflowFront(env: Env, ms: seq<Confirmed>)
    requires NoOverflow(env, ms) && |ms| > 0
    ensures NoOverflow(env, ms[..|ms| - 1])
  {
    forall h, c, i | 0 <= i < |env.verKeys|
      ensures SumBy(Contribution(env, h, c, i), ms[..|ms| - 1]) <= MAX_UINT32
    {
      assert SumBy(Contribution(env, h, c, i), ms) <= MAX_UINT32;
    }
  }

  /** A message that is above `current` and admissible is accepted unless it overflows. */
  lemma AcceptedUnlessOverflow(env: Env, ms: seq<Confirmed>)
    requires |ms| > 0 && NoOverflow(env, ms)
    requires var front, m := ms[..|ms| - 1], ms[|ms| - 1];
             && Inv(env, Run(env, front), AdmissibleOf(env, front))
             && Above(Run(env, front), m.height) && Admissible(env, m)
    ensures Step(env, Run(env, ms[..|ms| - 1]), ms[|ms| - 1]).Ok?
  {
    var front, m := ms[..|ms| - 1], ms[|ms| - 1];
    var st, log := Run(env, front), AdmissibleOf(env, front);
    var entry := Entry(st, m.height, m.roundCid);
    var sig := Restored(env.suite, m.signature, env.verKeys);
    CombinedIsGood(env, entry, sig, m.roundCid);
    if entry.Some? {
      var sigs := At(log, m.height, m.roundCid);
      assert Tracks(env, entry, sigs);
      ColumnsSnoc(sigs, m.signature, |env.verKeys|);
      AtSnoc(log, m, m.height, m.roundCid);
      assert AdmissibleOf(env, ms) == log + [m];
      forall i | 0 <= i < |env.verKeys|
        ensures Plus(entry.value.signers, sig.signers)[i] <= MAX_UINT32
      {
        ColumnsAreSums(env, ms, m.height, m.roundCid, i);
        assert SumBy(Contribution(env, m.height, m.roundCid, i), ms) <= MAX_UINT32;
      }
    }
  }

  /** Without overflow the state tracks every admissible message, dropped ones included. */
  lemma {:induction false} NothingIsLost(env: Env, ms: seq<Confirmed>)
    requires NoOverflow(env, ms)
    ensures Inv(env, Run(env, ms), AdmissibleOf(env, ms))
  {
    if |ms| == 0 {
      EmptyInv(env);
    } else {
      var front, m := ms[..|ms| - 1], ms[|ms| - 1];
      NoOverflowFront(env, ms);
      NothingIsLost(env, front);
      var st, log := Run(env, front), AdmissibleOf(env, front);
      if Admissible(env, m) {
        if Above(st, m.height) {
          AcceptedUnlessOverflow(env, ms);
          StepKeepsInv(env, st, log, m);
        } else {
          StaleKeepsInv(env, st, log, m);
        }
      }
    }
  }

  /** The greatest height at which the signers of one round reach the quorum, if there is one. */
  ghost predicate Highest(env: Env, log: seq<Confirmed>, height: Option<uint64>) {
    match height
    case None => forall h: uint64 :: !QuorumAt(env, log, h)
    case Some(top) => QuorumAt(env, log, top) && forall h: uint64 :: h > top ==> !QuorumAt(env, log, h)
  }

  function CurrentHeight(st: State): Option<uint64> {
    if st.current.None? then None else Some(st.current.value.height)
  }

  /** The height reached is the greatest one with a quorum among all admissible messages. */
  lemma {:induction false} CurrentIsHighestQuorum(env: Env, ms: seq<Confirmed>)
    requires NoOverflow(env, ms)
    ensures Highest(env, AdmissibleOf(env, ms), CurrentHeight(Run(env, ms)))
  {
    NothingIsLost(env, ms);
    var st, log := Run(env, ms), AdmissibleOf(env, ms);
    forall h: uint64 | Above(st, h)
      ensures !QuorumAt(env, log, h)
    {
      forall c | |At(log, h, c)| > 0
        ensures |SignersAt(log, h, c)| < env.Quorum()
      {
        TrackedUnion(env, st, log, h, c);
      }
    }
  }

  lemma {:induction false} AdmissibleMembers(env: Env, ms: seq<Confirmed>)
    ensures forall m :: m in AdmissibleOf(env, ms) <==> m in ms && Admissible(env, m)
  {
    if |ms| > 0 {
      var front := ms[..|ms| - 1];
      AdmissibleMembers(env, front);
      assert ms == front + [ms[|ms| - 1]];
    }
  }

  lemma SameQuorums(env: Env, log: seq<Confirmed>, log': seq<Confirmed>, h: uint64)
    requires forall m :: m in log <==> m in log'
    requires QuorumAt(env, log, h)
    ensures QuorumAt(env, log', h)
  {
    var c :| |At(log, h, c)| > 0 && |SignersAt(log, h, c)| >= env.Quorum();
    AtMembers(log, h, c);
    AtMembers(log', h, c);
    var sig := At(log, h, c)[0];
    assert sig in At(log, h, c);
    assert sig in At(log', h, c);
    assert SignersAt(log, h, c) == SignersAt(log', h, c);
  }

  /** Lists with the same messages, in any order and with any repetitions, end at the same height. */
  lemma {:induction false} SameMessagesSameHeight(env: Env, ms: seq<Confirmed>, ms': seq<Confirmed>)
    requires forall m :: m in ms <==> m in ms'
    requires NoOverflow(env, ms) && NoOverflow(env, ms')
    ensures CurrentHeight(Run(env, ms)) == CurrentHeight(Run(env, ms'))
  {
    CurrentIsHighestQuorum(env, ms);
    CurrentIsHighestQuorum(env, ms');
    AdmissibleMembers(env, ms);
    AdmissibleMembers(env, ms');
    var log, log' := AdmissibleOf(env, ms), AdmissibleOf(env, ms');
    forall h: uint64
      ensures QuorumAt(env, log, h) <==> QuorumAt(env, log', h)
    {
      if QuorumAt(env, log, h) {
        SameQuorums(env, log, log', h);
      }
      if QuorumAt(env, log', h) {
        SameQuorums(env, log', log, h);
      }
    }
  }

  /** Every permutation of a list of messages ends at the same height. */
  lemma OrderIndependence(env: Env, ms: seq<Confirmed>, ms': seq<Confirmed>)
    requires multiset(ms) == multiset(ms') && NoOverflow(env, ms)
    ensures CurrentHeight(Run(env, ms)) == CurrentHeight(Run(env, ms'))
  {
    forall m
      ensures m in ms <==> m in ms'
    {
      assert m in multiset(ms) <==> m in multiset(ms');
    }
    forall h, c, i | 0 <= i < |env.verKeys|
      ensures SumBy(Contribution(env, h, c, i), ms') <= MAX_UINT32
    {
      SumByPermutation(Contribution(env, h, c, i), ms, ms');
    }
    SameMessagesSameHeight(env, ms, ms');
  }

  // ----- The checker accepts what the subscriber made current

  lemma CurrentPassesCheck(env: Env, ms: seq<Confirmed>)
    requires Run(env, ms).current.Some?
    ensures CheckConfirmation(env.suite, Run(env, ms).current.value, env.Quorum(), env.verKeys) == Ok(true)
  {
    RunInvariant(env, ms);
  }
}

/** The round subscriber as a state machine over values: one step per confirmation that arrives
    (gossip/client/roundsubscriber.go). `RoundSubscriber` runs it on shared mutable objects. */
module RoundProtocol {
  import opened Prelude
  import opened Signatures
  import opened AggregationLaws
  import opened Rounds
  import opened NotaryGroup

  datatype Env = Env(suite: Suite, codec: Codec, verKeys: seq<nat>) {
    function Quorum(): nat {
      QuorumCount(|verKeys|)
    }
  }

  /** `inflight` collects signatures by height and round CID; `current` is the last round with a quorum. */
  datatype State = State(inflight: map<uint64, map<Bytes, Signature>>, current: Option<Confirmed>)

  const EMPTY_STATE := State(map[], None)

  predicate Above(st: State, h: uint64) {
    st.current.None? || st.current.value.height < h
  }

  function Find<V>(inflight: map<uint64, map<Bytes, V>>, h: uint64, c: Bytes): Option<V> {
    if h in inflight && c in inflight[h] then Some(inflight[h][c]) else None
  }

  function Entry(st: State, h: uint64, c: Bytes): Option<Signature> {
    Find(st.inflight, h, c)
  }

  /** The checks that do not depend on what arrived before. */
  predicate Admissible(env: Env, m: Confirmed) {
    && |m.signature.signers| == |env.verKeys|
    && Valid(env.suite, Restored(env.suite, m.signature, env.verKeys), m.roundCid) == Ok(true)
    && env.codec.isCid(m.roundCid)
  }

  /** What `roundConflictSet.add` stores: the first signature as it is, a later one aggregated. */
  function Combined(env: Env, existing: Option<Signature>, sig: Signature): Result<Signature> {
    match existing
    case None => Ok(sig)
    case Some(e) =>
      if CanAggregate(env.suite, [e, sig]) then Ok(Aggregated(env.suite, [e, sig])) else Err("error aggregating")
  }

  predicate IsQuorum(env: Env, sig: Signature) {
    |Support(sig.signers)| >= env.Quorum()
  }

  function Pruned<V>(inflight: map<uint64, V>, h: uint64): map<uint64, V> {
    map k | k in inflight && k > h :: inflight[k]
  }

  /** Stores a value under its height and CID, starting a new conflict set for a new height. */
  function Put<V>(inflight: map<uint64, map<Bytes, V>>, h: uint64, c: Bytes, v: V): map<uint64, map<Bytes, V>> {
    inflight[h := (if h in inflight then inflight[h] else map[])[c := v]]
  }

  /** A signature is put under its height and CID; a quorum becomes current and clears what is not above it. */
  function Filed(env: Env, st: State, h: uint64, c: Bytes, sig: Signature): State {
    var inflight := Put(st.inflight, h, c, sig);
    if IsQuorum(env, sig) then State(Pruned(inflight, h), Some(Confirmed(h, c, sig))) else State(inflight, st.current)
  }

  /** One message; an error leaves the state as it was. */
  function Step(env: Env, st: State, m: Confirmed): Result<State> {
    if !Above(st, m.height) then Err("confirmation is not above current")
    else if !Admissible(env, m) then Err("signature invalid")
    else
      var updated :- Combined(env, Entry(st, m.height, m.roundCid), Restored(env.suite, m.signature, env.verKeys));
      Ok(Filed(env, st, m.height, m.roundCid, updated))
  }

  function StepOrStay(env: Env, st: State, m: Confirmed): State {
    match Step(env, st, m)
    case Ok(st') => st'
    case Err(_) => st
  }

  /** The state after a list of messages, from an empty subscriber. */
  function Run(env: Env, ms: seq<Confirmed>): State {
    if |ms| == 0 then EMPTY_STATE else StepOrStay(env, Run(env, ms[..|ms| - 1]), ms[|ms| - 1])
  }

  /** The messages of a run that were taken in. */
  function Accepted(env: Env, ms: seq<Confirmed>): seq<Confirmed> {
    if |ms| == 0 then []
    else
      var front, m := ms[..|ms| - 1], ms[|ms| - 1];
      if Step(env, Run(env, front), m).Ok? then Accepted(env, front) + [m] else Accepted(env, front)
  }

  // ----- The plain view: who signed what

  predicate Is(m: Confirmed, h: uint64, c: Bytes) {
    m.height == h && m.roundCid == c
  }

  /** The signatures of one round in a log. */
  function At(log: seq<Confirmed>, h: uint64, c: Bytes): seq<Signature> {
    if |log| == 0 then []
    else
      var last := log[|log| - 1];
      var before := At(log[..|log| - 1], h, c);
      if Is(last, h, c) then before + [last.signature] else before
  }

  /** The set of signers of one round in a log. */
  function SignersAt(log: seq<Confirmed>, h: uint64, c: Bytes): set<nat> {
    set m, i | m in log && i in Support(m.signature.signers) && Is(m, h, c) :: i
  }

  lemma {:induction false} AtSnoc(log: seq<Confirmed>, m: Confirmed, h: uint64, c: Bytes)
    ensures At(log + [m], h, c) == if Is(m, h, c) then At(log, h, c) + [m.signature] else At(log, h, c)
  {
    assert (log + [m])[..|log|] == log;
  }

  lemma {:induction false} AtMembers(log: seq<Confirmed>, h: uint64, c: Bytes)
    ensures forall sig :: sig in At(log, h, c) <==> exists m :: m in log && Is(m, h, c) && m.signature == sig
  {
    if |log| > 0 {
      var front, last := log[..|log| - 1], log[|log| - 1];
      AtMembers(front, h, c);
      assert log == front + [last];
    }
  }

  /** Counting with multiplicities refines collecting a set: a position is non-zero exactly when its
      signer signed the round. */
  lemma SupportIsUnion(log: seq<Confirmed>, h: uint64, c: Bytes, signers: seq<uint32>)
    requires signers == Columns(At(log, h, c), |signers|)
    requires forall m :: m in log ==> |m.signature.signers| == |signers|
    ensures Support(signers) == SignersAt(log, h, c)
  {
    var sigs := At(log, h, c);
    AtMembers(log, h, c);
    forall i: nat
      ensures i in Support(signers) <==> i in SignersAt(log, h, c)
    {
      SumByPositive(CountAt(i), sigs);
      if i in Support(signers) {
        var j :| 0 <= j < |sigs| && CountAt(i)(sigs[j]) > 0;
        assert sigs[j] in sigs;
        var m :| m in log && Is(m, h, c) && m.signature == sigs[j];
        assert i in Support(m.signature.signers);
      }
      if i in SignersAt(log, h, c) {
        var m :| m in log && i in Support(m.signature.signers) && Is(m, h, c);
        assert m.signature in sigs;
        var j :| 0 <= j < |sigs| && sigs[j] == m.signature;
        assert CountAt(i)(sigs[j]) > 0;
      }
    }
  }

  // ----- The invariant of every run

  /** A stored signature carries the key of its vector and is valid for its round. */
  predicate Good(env: Env, sig: Signature, c: Bytes) {
    && |sig.signers| == |env.verKeys|
    && sig == Restored(env.suite, sig, env.verKeys)
    && Valid(env.suite, sig, c) == Ok(true)
    && env.codec.isCid(c)
  }

  /** The entry counts every logged signature of its round, and is there when there is one. */
  predicate Tracks(env: Env, entry: Option<Signature>, sigs: seq<Signature>) {
    match entry
    case None => |sigs| == 0
    case Some(sig) => |sigs| > 0 && sig.signers == Columns(sigs, |env.verKeys|)
  }

  ghost predicate QuorumAt(env: Env, log: seq<Confirmed>, h: uint64) {
    exists c :: |At(log, h, c)| > 0 && |SignersAt(log, h, c)| >= env.Quorum()
  }

  predicate LogShaped(env: Env, log: seq<Confirmed>) {
    forall m :: m in log ==> |m.signature.signers| == |env.verKeys|
  }

  predicate InflightAbove(st: State) {
    forall h :: h in st.inflight ==> Above(st, h)
  }

  ghost predicate EntriesGood(env: Env, st: State) {
    forall h, c :: Entry(st, h, c).Some? ==>
                     Good(env, Entry(st, h, c).value, c) && !IsQuorum(env, Entry(st, h, c).value)
  }

  ghost predicate EntriesTrack(env: Env, st: State, log: seq<Confirmed>) {
    forall h, c :: Above(st, h) ==> Tracks(env, Entry(st, h, c), At(log, h, c))
  }

  ghost predicate CurrentGood(env: Env, st: State, log: seq<Confirmed>) {
    st.current.Some? ==>
      && Good(env, st.current.value.signature, st.current.value.roundCid)
      && IsQuorum(env, st.current.value.signature)
      && QuorumAt(env, log, st.current.value.height)
  }

  ghost predicate Inv(env: Env, st: State, log: seq<Confirmed>) {
    && LogShaped(env, log)
    && InflightAbove(st)
    && EntriesGood(env, st)
    && EntriesTrack(env, st, log)
    && CurrentGood(env, st, log)
  }

  lemma GoodMatches(env: Env, sig: Signature, c: Bytes)
    requires Good(env, sig, c)
    ensures Matches(env.suite, sig, env.verKeys, c) && Aggregatable(env.suite, sig, |env.verKeys|)
  {
  }

  /** Adding a signature keeps an entry good and adds its vector. */
  lemma CombinedIsGood(env: Env, existing: Option<Signature>, sig: Signature, c: Bytes)
    requires Good(env, sig, c) && (existing.Some? ==> Good(env, existing.value, c))
    ensures existing.Some? ==>
              (Combined(env, existing, sig).Ok? <==>
                 forall i :: 0 <= i < |env.verKeys| ==> Plus(existing.value.signers, sig.signers)[i] <= MAX_UINT32)
    ensures Combined(env, existing, sig).Ok? ==>
              var updated := Combined(env, existing, sig).value;
              && Good(env, updated, c)
              && updated.signers == if existing.None? then sig.signers
                                    else Plus(existing.value.signers, sig.signers)
  {
    if existing.Some? {
      var e := existing.value;
      GoodMatches(env, e, c);
      GoodMatches(env, sig, c);
      AggregateMatches(env.suite, [e, sig], env.verKeys, c);
      PairSums(e, sig, |env.verKeys|);
    }
  }

  /** The updated entry counts the new message as well. */
  lemma CombinedTracks(env: Env, entry: Option<Signature>, sigs: seq<Signature>, sig: Signature, updated: Signature)
    requires Tracks(env, entry, sigs) && |sig.signers| == |env.verKeys|
    requires entry.Some? ==> |entry.value.signers| == |env.verKeys|
    requires updated.signers == if entry.None? then sig.signers else Plus(entry.value.signers, sig.signers)
    ensures Tracks(env, Some(updated), sigs + [sig])
  {
    ColumnsSnoc(sigs, sig, |env.verKeys|);
    assert updated.signers == Columns(sigs + [sig], |env.verKeys|);
  }

  /** A logged message only adds signers, so a quorum once reached stays reached. */
  lemma QuorumGrows(env: Env, log: seq<Confirmed>, m: Confirmed, h: uint64)
    requires QuorumAt(env, log, h)
    ensures QuorumAt(env, log + [m], h)
  {
    var c :| |At(log, h, c)| > 0 && |SignersAt(log, h, c)| >= env.Quorum();
    AtSnoc(log, m, h, c);
    assert SignersAt(log, h, c) <= SignersAt(log + [m], h, c);
    SubsetSize(SignersAt(log, h, c), SignersAt(log + [m], h, c));
    assert |At(log + [m], h, c)| > 0;
  }

  lemma EmptyInv(env: Env)
    ensures Inv(env, EMPTY_STATE, [])
  {
  }

  /** A message that came too late changes nothing that the invariant speaks of. */
  lemma StaleKeepsInv(env: Env, st: State, log: seq<Confirmed>, m: Confirmed)
    requires Inv(env, st, log) && !Above(st, m.height) && |m.signature.signers| == |env.verKeys|
    ensures Inv(env, st, log + [m])
  {
    forall h, c | Above(st, h)
      ensures Tracks(env, Entry(st, h, c), At(log + [m], h, c))
    {
      AtSnoc(log, m, h, c);
    }
    QuorumGrows(env, log, m, st.current.value.height);
  }

  /** The signature an accepted message leaves under its own height and CID. */
  function Updated(env: Env, st: State, m: Confirmed): Signature
    requires Step(env, st, m).Ok?
  {
    Combined(env, Entry(st, m.height, m.roundCid), Restored(env.suite, m.signature, env.verKeys)).value
  }

  lemma StepCurrent(env: Env, st: State, m: Confirmed)
    requires Step(env, st, m).Ok?
    ensures var updated := Updated(env, st, m);
            Step(env, st, m).value.current ==
            if IsQuorum(env, updated) then Some(Confirmed(m.height, m.roundCid, updated)) else st.current
  {
  }

  lemma StepEntry(env: Env, st: State, m: Confirmed, h: uint64, c: Bytes)
    requires Step(env, st, m).Ok?
    ensures var st' := Step(env, st, m).value;
            Above(st', h) ==>
              && Above(st, h)
              && Entry(st', h, c) == if Is(m, h, c) then Some(Updated(env, st, m)) else Entry(st, h, c)
    ensures !Above(Step(env, st, m).value, h) && InflightAbove(st) ==> Entry(Step(env, st, m).value, h, c) == None
  {
  }

  lemma UpdatedIsGood(env: Env, st: State, log: seq<Confirmed>, m: Confirmed)
    requires Inv(env, st, log) && Step(env, st, m).Ok?
    ensures Good(env, Updated(env, st, m), m.roundCid)
    ensures Tracks(env, Some(Updated(env, st, m)), At(log + [m], m.height, m.roundCid))
    ensures Support(Updated(env, st, m).signers) == SignersAt(log + [m], m.height, m.roundCid)
  {
    var entry := Entry(st, m.height, m.roundCid);
    CombinedIsGood(env, entry, Restored(env.suite, m.signature, env.verKeys), m.roundCid);
    CombinedTracks(env, entry, At(log, m.height, m.roundCid), m.signature, Updated(env, st, m));
    AtSnoc(log, m, m.height, m.roundCid);
    SupportIsUnion(log + [m], m.height, m.roundCid, Updated(env, st, m).signers);
  }

  lemma StepKeepsTracks(env: Env, st: State, log: seq<Confirmed>, m: Confirmed)
    requires Inv(env, st, log) && Step(env, st, m).Ok?
    ensures EntriesTrack(env, Step(env, st, m).value, log + [m])
  {
    UpdatedIsGood(env, st, log, m);
    forall h, c | Above(Step(env, st, m).value, h)
      ensures Tracks(env, Entry(Step(env, st, m).value, h, c), At(log + [m], h, c))
    {
      StepEntry(env, st, m, h, c);
      AtSnoc(log, m, h, c);
    }
  }

  lemma StepKeepsEntries(env: Env, st: State, log: seq<Confirmed>, m: Confirmed)
    requires Inv(env, st, log) && Step(env, st, m).Ok?
    ensures EntriesGood(env, Step(env, st, m).value)
  {
    var st' := Step(env, st, m).value;
    UpdatedIsGood(env, st, log, m);
    forall h, c | Entry(st', h, c).Some?
      ensures Good(env, Entry(st', h, c).value, c) && !IsQuorum(env, Entry(st', h, c).value)
    {
      EntryStaysGood(env, st, m, h, c);
    }
  }

  lemma EntryStaysGood(env: Env, st: State, m: Confirmed, h: uint64, c: Bytes)
    requires InflightAbove(st) && EntriesGood(env, st) && Step(env, st, m).Ok?
    requires Good(env, Updated(env, st, m), m.roundCid) && Entry(Step(env, st, m).value, h, c).Some?
    ensures var sig := Entry(Step(env, st, m).value, h, c).value;
            Good(env, sig, c) && !IsQuorum(env, sig)
  {
    StepEntry(env, st, m, h, c);
    if IsQuorum(env, Updated(env, st, m)) {
      assert !Above(Step(env, st, m).value, m.height);
    }
  }

  lemma StepKeepsAbove(env: Env, st: State, m: Confirmed)
    requires InflightAbove(st) && Step(env, st, m).Ok?
    ensures InflightAbove(Step(env, st, m).value)
  {
  }

  lemma StepKeepsCurrent(env: Env, st: State, log: seq<Confirmed>, m: Confirmed)
    requires Inv(env, st, log) && Step(env, st, m).Ok?
    ensures CurrentGood(env, Step(env, st, m).value, log + [m])
  {
    UpdatedIsGood(env, st, log, m);
    if IsQuorum(env, Updated(env, st, m)) {
      assert |At(log + [m], m.height, m.roundCid)| > 0;
    } else if st.current.Some? {
      QuorumGrows(env, log, m, st.current.value.height);
    }
  }

  lemma StepKeepsInv(env: Env, st: State, log: seq<Confirmed>, m: Confirmed)
    requires Inv(env, st, log) && Step(env, st, m).Ok?
    ensures Inv(env, Step(env, st, m).value, log + [m])
  {
    StepKeepsTracks(env, st, log, m);
    StepKeepsEntries(env, st, log, m);
    StepKeepsAbove(env, st, m);
    StepKeepsCurrent(env, st, log, m);
  }

  lemma {:induction false} RunInvariant(env: Env, ms: seq<Confirmed>)
    ensures Inv(env, Run(env, ms), Accepted(env, ms))
  {
    if |ms| == 0 {
      EmptyInv(env);
    } else {
      var front, m := ms[..|ms| - 1], ms[|ms| - 1];
      RunInvariant(env, front);
      if Step(env, Run(env, front), m).Ok? {
        StepKeepsInv(env, Run(env, front), Accepted(env, front), m);
      }
    }
  }
}

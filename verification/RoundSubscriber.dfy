/** The round subscriber on shared mutable confirmations (gossip/client/roundsubscriber.go). Messages are
    handled one at a time, by one goroutine. */
module RoundSubscriber {
  import opened Prelude
  import opened Signatures
  import opened Rounds
  import opened RoundProtocol
  import opened Proof
  import opened Agreement

  type ConflictSet = map<Bytes, Confirmation>

  /** What is published for a round that reached its quorum. */
  datatype Notification = Notification(
    accepted: seq<Bytes>,
    checkpoint: Checkpoint,
    confirmation: ConfirmationWrapper,
    completedRound: RoundWrapper)

  method Includes(noti: Notification, id: Bytes) returns (found: bool)
    ensures found <==> id in noti.accepted
  {
    for i := 0 to |noti.accepted|
      invariant id !in noti.accepted[..i]
    {
      if noti.accepted[i] == id {
        return true;
      }
    }
    return false;
  }

  /** What handling a quorum must find in the store before it can publish. */
  function Fetched(codec: Codec, store: Store, roundCid: Bytes): Result<(Round, Checkpoint)> {
    var round :- LookupRound(codec, Some(store), roundCid);
    var checkpoint :- LookupCheckpoint(codec, Some(store), round.checkpointCid);
    if forall i :: 0 <= i < |checkpoint.addBlockRequests| ==> codec.isCid(checkpoint.addBlockRequests[i])
    then Ok((round, checkpoint)) else Err("error casting cid")
  }

  /** That is the round and the checkpoint with the CIDs asked for, when both blocks are there and everything
      listed in the checkpoint casts. */
  lemma FetchedIff(codec: Codec, store: Store, roundCid: Bytes, round: Round, checkpoint: Checkpoint)
    requires codec.Sound() && ContentAddressed(codec.cidOf, store)
    ensures Fetched(codec, store, roundCid) == Ok((round, checkpoint)) <==>
            && roundCid == codec.RoundCid(round) && roundCid in store
            && round.checkpointCid == codec.CheckpointCid(checkpoint) && round.checkpointCid in store
            && forall c :: c in checkpoint.addBlockRequests ==> codec.isCid(c)
  {
    var cids := checkpoint.addBlockRequests;
    LookupIff(codec, store, roundCid, round, checkpoint);
    LookupIff(codec, store, round.checkpointCid, round, checkpoint);
    assert (forall c :: c in cids ==> codec.isCid(c)) <==> forall i :: 0 <= i < |cids| ==> codec.isCid(cids[i]);
  }

  /** A notification whose parts hash to each other and whose confirmation is a valid quorum. */
  ghost predicate Complete(env: Env, noti: Notification)
    reads noti.confirmation.value
  {
    var conf, cids := noti.confirmation.value, noti.checkpoint.addBlockRequests;
    && Good(env, conf.signature, conf.roundCid)
    && IsQuorum(env, conf.signature)
    && env.codec.RoundCid(noti.completedRound.round) == conf.roundCid
    && env.codec.CheckpointCid(noti.checkpoint) == noti.completedRound.round.checkpointCid
    && noti.accepted == cids
    && forall i :: 0 <= i < |cids| ==> env.codec.isCid(cids[i])
  }

  ghost function ObjectsOf(inflight: map<uint64, ConflictSet>): set<Confirmation> {
    set h, c | h in inflight && c in inflight[h] :: inflight[h][c]
  }

  ghost function SignaturesOf(inflight: map<uint64, ConflictSet>): map<uint64, map<Bytes, Signature>>
    reads ObjectsOf(inflight)
  {
    map h | h in inflight :: map c | c in inflight[h] :: inflight[h][c].signature
  }

  /** Every confirmation sits under its own height and CID. */
  predicate Keyed(inflight: map<uint64, ConflictSet>) {
    forall h, c :: h in inflight && c in inflight[h] ==> inflight[h][c].height == h && inflight[h][c].roundCid == c
  }

  lemma SignaturesAre(inflight: map<uint64, ConflictSet>, expected: map<uint64, map<Bytes, Signature>>)
    requires inflight.Keys == expected.Keys
    requires forall h :: h in inflight ==> inflight[h].Keys == expected[h].Keys
    requires forall h, c :: h in inflight && c in inflight[h] ==> inflight[h][c].signature == expected[h][c]
    ensures SignaturesOf(inflight) == expected
  {
    forall h | h in inflight
      ensures SignaturesOf(inflight)[h] == expected[h]
    {
      assert SignaturesOf(inflight)[h].Keys == expected[h].Keys;
    }
  }

  /** Storing an object stores its signature, when all other objects still have the signatures they had. */
  lemma SignaturesPut(
    inflight: map<uint64, ConflictSet>, was: map<uint64, map<Bytes, Signature>>, h: uint64, c: Bytes, stored: Confirmation)
    requires inflight.Keys == was.Keys && forall k :: k in inflight ==> inflight[k].Keys == was[k].Keys
    requires forall k, d :: k in inflight && d in inflight[k] && !(k == h && d == c) ==>
                              inflight[k][d].signature == was[k][d]
    ensures SignaturesOf(Put(inflight, h, c, stored)) == Put(was, h, c, stored.signature)
  {
    SignaturesAre(Put(inflight, h, c, stored), Put(was, h, c, stored.signature));
  }

  lemma KeyedPut(inflight: map<uint64, ConflictSet>, h: uint64, c: Bytes, stored: Confirmation)
    requires Keyed(inflight) && stored.height == h && stored.roundCid == c
    ensures Keyed(Put(inflight, h, c, stored))
  {
  }

  lemma SignaturesPruned(inflight: map<uint64, ConflictSet>, was: map<uint64, map<Bytes, Signature>>, h: uint64)
    requires inflight.Keys == was.Keys && forall k :: k in inflight ==> inflight[k].Keys == was[k].Keys
    requires forall k, d :: k in inflight && d in inflight[k] ==> inflight[k][d].signature == was[k][d]
    ensures SignaturesOf(Pruned(inflight, h)) == Pruned(was, h)
  {
    SignaturesAre(Pruned(inflight, h), Pruned(was, h));
  }

  class Subscriber {
    const env: Env
    var inflight: map<uint64, ConflictSet>
    var current: ConfirmationWrapper?
    var published: seq<Notification>

    /** The confirmations that a later message may still change. */
    ghost function Pending(): set<Confirmation>
      reads this`inflight
    {
      ObjectsOf(inflight)
    }

    ghost function PublishedConfirmations(): set<Confirmation>
      reads this`published
    {
      set i | 0 <= i < |published| :: published[i].confirmation.value
    }

    ghost function CurrentConfirmation(): set<Confirmation>
      reads this`current
    {
      if current == null then {} else {current.value}
    }

    /** The state with every object replaced by its value. */
    ghost function Values(): State
      reads this`inflight, this`current, Pending(), CurrentConfirmation()
    {
      State(SignaturesOf(inflight), if current == null then None else Some(current.value.Value()))
    }

    predicate Newer(h: uint64)
      reads this`current
    {
      current == null || current.value.height < h
    }

    /** Every entry sits under its own height and CID, above `current`. */
    ghost predicate PendingPlaced()
      reads this`inflight, this`current
    {
      Keyed(inflight) && forall h :: h in inflight ==> Newer(h)
    }

    /** Nothing published is above `current`. */
    ghost predicate PublishedPlaced()
      reads this`current, this`published
    {
      forall i :: 0 <= i < |published| ==>
                    current != null && published[i].confirmation.value.height <= current.value.height
    }

    ghost predicate Placed()
      reads this`inflight, this`current, this`published
    {
      PendingPlaced() && PublishedPlaced()
    }

    /** The subscriber after it has handled these messages, from the start. */
    ghost predicate Valid(handled: seq<Confirmed>)
      reads this, Pending(), CurrentConfirmation(), PublishedConfirmations()
    {
      && Placed()
      && AllComplete()
      && Values() == Run(env, handled)
    }

    ghost predicate AllComplete()
      reads this`published, PublishedConfirmations()
    {
      forall i :: 0 <= i < |published| ==> Complete(env, published[i])
    }

    constructor (env: Env)
      ensures Valid([]) && this.env == env && published == [] && current == null
    {
      this.env, inflight, current, published := env, map[], null, [];
    }

    /** Whatever is not above `current` is out of reach of later messages: what is current now, what was
        published, and what was current once and could not be published. */
    lemma DecidedIsNotPending()
      requires Placed()
      ensures forall c: Confirmation :: !Newer(c.height) ==> c !in Pending()
      ensures CurrentConfirmation() !! Pending() && PublishedConfirmations() !! Pending()
    {
    }

    lemma PublishedIsNotPending()
      requires Placed()
      ensures CurrentConfirmation() !! Pending() && PublishedConfirmations() !! Pending()
    {
    }

    /** Deletes every height up to `h`. */
    method Prune(h: uint64)
      modifies this`inflight
      ensures inflight == Pruned(old(inflight), h)
    {
      var keys := inflight.Keys;
      while keys != {}
        invariant keys <= old(inflight).Keys
        invariant inflight == map k | k in old(inflight) && (k > h || k in keys) :: old(inflight)[k]
      {
        var key :| key in keys;
        keys := keys - {key};
        if key <= h {
          inflight := inflight - {key};
        }
      }
    }

    /** Fetches the round and checkpoint of a confirmation, wrapped for publishing. */
    method Fetch(wrapped: ConfirmationWrapper, store: Store) returns (r: Result<Notification>)
      requires env.codec.Sound() && ContentAddressed(env.codec.cidOf, store)
      requires wrapped.completedRound == null
      modifies wrapped
      ensures r.Ok? <==> Fetched(env.codec, store, wrapped.value.roundCid).Ok?
      ensures r.Ok? ==>
                var (round, checkpoint) := Fetched(env.codec, store, wrapped.value.roundCid).value;
                && r.value.confirmation == wrapped && r.value.completedRound.round == round
                && r.value.checkpoint == checkpoint && r.value.accepted == checkpoint.addBlockRequests
    {
      wrapped.SetStore(store);
      var completed := wrapped.FetchCompletedRound(env.codec);
      if completed.Err? {
        return Err("error fetching completed round");
      }
      var checkpoint := completed.value.FetchCheckpoint(env.codec);
      if checkpoint.Err? {
        return Err("error fetching checkpoint");
      }
      var cids := checkpoint.value.addBlockRequests;
      var accepted: seq<Bytes> := [];
      for i := 0 to |cids|
        invariant accepted == cids[..i]
        invariant forall k :: 0 <= k < i ==> env.codec.isCid(cids[k])
      {
        if !env.codec.isCid(cids[i]) {
          return Err("error casting cid");
        }
        accepted := accepted + [cids[i]];
      }
      r := Ok(Notification(accepted, checkpoint.value, wrapped, completed.value));
    }

    /** Publishes the round of a wrapped quorum if it can be fetched. */
    method Publish(wrapped: ConfirmationWrapper, store: Store) returns (r: Result<()>, ghost news: seq<Notification>)
      requires env.codec.Sound() && ContentAddressed(env.codec.cidOf, store)
      requires AllComplete() && wrapped.completedRound == null
      requires Good(env, wrapped.value.signature, wrapped.value.roundCid) && IsQuorum(env, wrapped.value.signature)
      modifies this`published, wrapped
      ensures AllComplete()
      ensures r.Ok? <==> Fetched(env.codec, store, wrapped.value.roundCid).Ok?
      ensures published == old(published) + news && |news| == (if r.Ok? then 1 else 0)
      ensures r.Ok? ==> news[0].confirmation == wrapped
    {
      var fetched := Fetch(wrapped, store);
      if fetched.Err? {
        return Err(fetched.error), [];
      }
      FetchedIsComplete(fetched.value, store);
      news := [fetched.value];
      published := published + [fetched.value];
      r := Ok(());
    }

    /** Makes a confirmation current, forgets everything not above it, and publishes it. */
    method HandleQuorum(confirmation: Confirmation, store: Store)
      returns (r: Result<()>, ghost news: seq<Notification>)
      requires env.codec.Sound() && ContentAddressed(env.codec.cidOf, store)
      requires Keyed(inflight) && PublishedPlaced() && AllComplete() && Newer(confirmation.height)
      requires Good(env, confirmation.signature, confirmation.roundCid) && IsQuorum(env, confirmation.signature)
      modifies this`inflight, this`current, this`published
      ensures PendingPlaced() && PublishedPlaced() && AllComplete()
      ensures Values() == State(Pruned(old(Values()).inflight, confirmation.height), Some(confirmation.Value()))
      ensures fresh(current) && current.value == confirmation
      ensures r.Ok? <==> Fetched(env.codec, store, confirmation.roundCid).Ok?
      ensures published == old(published) + news && |news| == (if r.Ok? then 1 else 0)
      ensures r.Ok? ==> news[0].confirmation == current
    {
      var wrapped := MakeCurrent(confirmation);
      r, news := Publish(wrapped, store);
      NewsPlaced(old(published), news);
      SignaturesPruned(old(inflight), old(SignaturesOf(inflight)), confirmation.height);
    }

    method MakeCurrent(confirmation: Confirmation) returns (wrapped: ConfirmationWrapper)
      requires Keyed(inflight) && Newer(confirmation.height)
      modifies this`inflight, this`current
      ensures fresh(wrapped) && current == wrapped && wrapped.value == confirmation && wrapped.completedRound == null
      ensures PendingPlaced() && inflight == Pruned(old(inflight), confirmation.height)
      ensures old(PublishedPlaced()) ==> PublishedPlaced()
    {
      wrapped := new ConfirmationWrapper(confirmation);
      current := wrapped;
      Prune(confirmation.height);
    }

    lemma NewsPlaced(was: seq<Notification>, news: seq<Notification>)
      requires current != null && published == was + news
      requires forall i :: 0 <= i < |was| ==> was[i].confirmation.value.height <= current.value.height
      requires forall i :: 0 <= i < |news| ==> news[i].confirmation == current
      ensures PublishedPlaced()
    {
    }

    lemma FetchedIsComplete(noti: Notification, store: Store)
      requires env.codec.Sound() && ContentAddressed(env.codec.cidOf, store)
      requires var conf := noti.confirmation.value;
               && Good(env, conf.signature, conf.roundCid) && IsQuorum(env, conf.signature)
               && Fetched(env.codec, store, conf.roundCid).Ok?
               && var (round, checkpoint) := Fetched(env.codec, store, conf.roundCid).value;
                  && noti.completedRound.round == round && noti.checkpoint == checkpoint
                  && noti.accepted == checkpoint.addBlockRequests
      ensures Complete(env, noti)
    {
      LookupsAreAuthentic(env.codec, Some(store), noti.confirmation.value.roundCid);
      LookupsAreAuthentic(env.codec, Some(store), noti.completedRound.round.checkpointCid);
    }

    /** Files a verified confirmation under its height and CID. The first one of a round is stored itself,
        later ones are aggregated into it; on an error nothing changes. */
    method Add(confirmation: Confirmation) returns (r: Result<(bool, Confirmation)>, ghost updated: Signature)
      requires Keyed(inflight) && confirmation !in Pending()
      modifies this`inflight, Pending()
      ensures Keyed(inflight)
      ensures var (h, c, was) := (confirmation.height, confirmation.roundCid, old(SignaturesOf(inflight)));
              var combined := Combined(env, Find(was, h, c), confirmation.signature);
              && (r.Ok? <==> env.codec.isCid(c) && combined.Ok?)
              && (r.Err? ==> inflight == old(inflight) && SignaturesOf(inflight) == was)
              && (r.Ok? ==>
                    && updated == combined.value
                    && SignaturesOf(inflight) == Put(was, h, c, updated)
                    && inflight.Keys == old(inflight).Keys + {h}
                    && r.value.0 == IsQuorum(env, updated)
                    && r.value.1.height == h && r.value.1.roundCid == c && r.value.1.signature == updated)
    {
      var (h, c) := (confirmation.height, confirmation.roundCid);
      updated := confirmation.signature;
      if !env.codec.isCid(c) {
        return Err("error casting round cid"), updated;
      }
      var existing := confirmation;
      if h in inflight && c in inflight[h] {
        existing := inflight[h][c];
        var newSig := AggregateBLSSignatures(env.suite, [existing.signature, confirmation.signature]);
        if newSig.Err? {
          return Err(newSig.error), updated;
        }
        updated := newSig.value;
        existing.signature := newSig.value;
      }
      KeyedPut(inflight, h, c, existing);
      inflight := Put(inflight, h, c, existing);
      var count := SignerCount(existing.signature);
      r := Ok((count >= env.Quorum(), existing));
      SignaturesPut(old(inflight), old(SignaturesOf(inflight)), h, c, existing);
    }

    /** The checks before the lock is taken, on a fresh object with its key restored. */
    method Authenticate(m: Confirmed) returns (r: Result<Confirmation>)
      ensures r.Ok? <==>
              && Newer(m.height) && |m.signature.signers| == |env.verKeys|
              && Signatures.Valid(env.suite, Restored(env.suite, m.signature, env.verKeys), m.roundCid) == Ok(true)
      ensures r.Ok? ==>
                && fresh(r.value) && r.value.height == m.height && r.value.roundCid == m.roundCid
                && r.value.signature == Restored(env.suite, m.signature, env.verKeys)
    {
      var confirmation := new Confirmation(m);
      if !Newer(m.height) {
        return Err("confirmation is not above current");
      }
      var restored := RestoreBLSPublicKey(env.suite, confirmation.signature, env.verKeys);
      if restored.Err? {
        return Err("error restoring BLS key");
      }
      confirmation.signature := restored.value;
      var verified := Signatures.Valid(env.suite, confirmation.signature, confirmation.roundCid);
      if verified != Ok(true) {
        return Err("signature invalid");
      }
      r := Ok(confirmation);
    }

    /** The message is accepted and completes a quorum. */
    predicate Completes(st: State, m: Confirmed) {
      Step(env, st, m).Ok? && IsQuorum(env, Updated(env, st, m))
    }

    /** Handles a confirmation that decoded. */
    method Handle(m: Confirmed, store: Store) returns (r: Result<()>, ghost news: seq<Notification>)
      requires Placed() && AllComplete()
      requires Step(env, Values(), m).Ok? ==> Good(env, Updated(env, Values(), m), m.roundCid)
      requires env.codec.Sound() && ContentAddressed(env.codec.cidOf, store)
      modifies this`inflight, this`current, this`published, Pending()
      ensures Placed() && AllComplete()
      ensures Values() == StepOrStay(env, old(Values()), m)
      ensures news != [] <==> Completes(old(Values()), m) && Fetched(env.codec, store, m.roundCid).Ok?
      ensures r.Ok? <==>
              && Step(env, old(Values()), m).Ok?
              && (Completes(old(Values()), m) ==> Fetched(env.codec, store, m.roundCid).Ok?)
      ensures current == old(current)
              || (fresh(current) && current.value.height == m.height && old(Newer(m.height)))
      ensures published == old(published) + news && |news| <= 1
      ensures news != [] ==> current != old(current) && news[0].confirmation == current
    {
      news := [];
      var authentic := Authenticate(m);
      if authentic.Err? {
        return Err(authentic.error), news;
      }
      r, news := Accept(authentic.value, store);
    }

    /** Files a verified confirmation, and handles the quorum if it completes one. */
    method Accept(confirmation: Confirmation, store: Store) returns (r: Result<()>, ghost news: seq<Notification>)
      requires Placed() && AllComplete() && Newer(confirmation.height) && confirmation !in Pending()
      requires env.codec.Sound() && ContentAddressed(env.codec.cidOf, store)
      requires var combined := Combined(env, Entry(Values(), confirmation.height, confirmation.roundCid),
                                        confirmation.signature);
               env.codec.isCid(confirmation.roundCid) && combined.Ok? ==>
                 Good(env, combined.value, confirmation.roundCid)
      modifies this`inflight, this`current, this`published, Pending()
      ensures Placed() && AllComplete()
      ensures var (h, c, was) := (confirmation.height, confirmation.roundCid, old(Values()));
              var combined := Combined(env, Entry(was, h, c), old(confirmation.signature));
              && Values() == (if env.codec.isCid(c) && combined.Ok? then Filed(env, was, h, c, combined.value) else was)
              && (news != [] <==>
                    && env.codec.isCid(c) && combined.Ok? && IsQuorum(env, combined.value)
                    && Fetched(env.codec, store, c).Ok?)
              && (r.Ok? <==>
                    && env.codec.isCid(c) && combined.Ok?
                    && (IsQuorum(env, combined.value) ==> Fetched(env.codec, store, c).Ok?))
      ensures current == old(current) || (fresh(current) && current.value.height == confirmation.height)
      ensures published == old(published) + news && |news| <= 1
      ensures news != [] ==> current != old(current) && news[0].confirmation == current
    {
      news := [];
      var added := File(confirmation);
      if added.Err? {
        return Err("error adding to conflictset"), news;
      }
      if added.value.0 {
        r, news := HandleQuorum(added.value.1, store);
      } else {
        r := Ok(());
      }
    }

    /** Files a confirmation above `current`, which leaves everything decided alone. */
    method File(confirmation: Confirmation) returns (r: Result<(bool, Confirmation)>)
      requires Placed() && AllComplete() && Newer(confirmation.height) && confirmation !in Pending()
      modifies this`inflight, Pending()
      ensures Placed() && AllComplete()
      ensures var (h, c, was) := (confirmation.height, confirmation.roundCid, old(Values()));
              var combined := Combined(env, Entry(was, h, c), old(confirmation.signature));
              && (r.Ok? <==> env.codec.isCid(c) && combined.Ok?)
              && (r.Err? ==> Values() == was)
              && (r.Ok? ==>
                    && Values() == State(Put(was.inflight, h, c, combined.value), was.current)
                    && r.value.0 == IsQuorum(env, combined.value)
                    && r.value.1.height == h && r.value.1.roundCid == c && r.value.1.signature == combined.value)
    {
      PublishedIsNotPending();
      ghost var updated;
      r, updated := Add(confirmation);
    }

    /** Handles one message: the values follow the protocol's step, and only pending confirmations and the
        subscriber itself may change. `None` is a message that does not decode. */
    method HandleMessage(msg: Option<Confirmed>, store: Store, ghost handled: seq<Confirmed>)
      returns (r: Result<()>, ghost news: seq<Notification>)
      requires Valid(handled) && env.codec.Sound() && ContentAddressed(env.codec.cidOf, store)
      modifies this, Pending()
      ensures Valid(if msg.None? then handled else handled + [msg.value])
      ensures msg.None? ==> r.Err? && Values() == old(Values()) && news == []
      ensures msg.Some? ==>
                && Values() == StepOrStay(env, old(Values()), msg.value)
                && (news != [] <==>
                      Completes(old(Values()), msg.value) && Fetched(env.codec, store, msg.value.roundCid).Ok?)
                && (r.Ok? <==>
                      && Step(env, old(Values()), msg.value).Ok?
                      && (Completes(old(Values()), msg.value) ==> Fetched(env.codec, store, msg.value.roundCid).Ok?))
      ensures current == old(current)
              || (msg.Some? && fresh(current) && current.value.height == msg.value.height && old(Newer(msg.value.height)))
      ensures published == old(published) + news && |news| <= 1
      ensures news != [] ==> current != old(current) && news[0].confirmation == current
      ensures forall c: Confirmation :: old(allocated(c)) && old(!Newer(c.height)) ==>
                                          c.signature == old(c.signature) && !Newer(c.height)
    {
      DecidedIsNotPending();
      if msg.None? {
        return Err("error unmarshaling"), [];
      }
      RunInvariant(env, handled);
      if Step(env, Values(), msg.value).Ok? {
        UpdatedIsGood(env, Values(), Accepted(env, handled), msg.value);
      }
      r, news := Handle(msg.value, store);
      assert (handled + [msg.value])[..|handled|] == handled;
    }

    /** The checker accepts the proof of every request in every published notification, at any later time,
        exactly when the request's tip is a CID at all. */
    lemma PublishedProofsAreAccepted(handled: seq<Confirmed>, i: nat, abr: AddBlockRequest)
      requires Valid(handled) && env.codec.SoundCids()
      requires i < |published| && env.codec.RequestCid(abr) in published[i].accepted
      ensures Check(env.suite, env.codec, ProofOf(abr, published[i]).Value(), env.Quorum(), env.verKeys) == Ok(true)
              <==> env.codec.isCid(abr.newTip)
    {
      var noti := published[i];
      assert Complete(env, noti);
      AcceptedIffChained(env.suite, env.codec, ProofOf(abr, noti).Value(), env.Quorum(), env.verKeys);
      var k :| 0 <= k < |noti.accepted| && noti.accepted[k] == env.codec.RequestCid(abr);
      assert forall j :: 0 <= j <= k ==> env.codec.isCid(noti.checkpoint.addBlockRequests[j]);
    }

    /** Checking such a proof writes the restored key into the shared confirmation, which already has it:
        no confirmation changes, so the subscriber goes on as if nothing had happened. */
    method CheckPublishedProof(i: nat, abr: AddBlockRequest, ghost handled: seq<Confirmed>) returns (r: Result<bool>)
      requires Valid(handled) && env.codec.SoundCids()
      requires i < |published| && env.codec.RequestCid(abr) in published[i].accepted
      modifies published[i].confirmation.value
      ensures published[i].confirmation.value.signature == old(published[i].confirmation.value.signature)
      ensures r == Ok(true) <==> env.codec.isCid(abr.newTip)
    {
      PublishedProofsAreAccepted(handled, i, abr);
      assert Complete(env, published[i]);
      r := Verify(env.suite, env.codec, ProofOf(abr, published[i]), env.Quorum(), env.verKeys);
    }
  }

  /** The proof that is handed to a waiting caller. */
  function ProofOf(abr: AddBlockRequest, noti: Notification): SharedProof {
    SharedProof(abr.objectId, abr.newTip, abr, noti.checkpoint, noti.completedRound.round, noti.confirmation.value)
  }

  /** One caller waiting for its request; it is served once. */
  class Subscription {
    const codec: Codec
    const abr: AddBlockRequest
    var isDone: bool

    constructor (codec: Codec, abr: AddBlockRequest)
      ensures this.codec == codec && this.abr == abr && !isDone
    {
      this.codec, this.abr, isDone := codec, abr, false;
    }

    /** `cancelled` says whether the caller's context is over. */
    method OnEvent(noti: Notification, cancelled: bool) returns (sent: Option<SharedProof>)
      modifies this
      ensures sent.Some? <==> !old(isDone) && !cancelled && codec.RequestCid(abr) in noti.accepted
      ensures sent.Some? ==> sent.value == ProofOf(abr, noti)
      ensures isDone == (old(isDone) || cancelled || sent.Some?)
    {
      if isDone {
        return None;
      }
      if cancelled {
        isDone := true;
        return None;
      }
      var included := Includes(noti, codec.RequestCid(abr));
      if included {
        isDone := true;
        return Some(ProofOf(abr, noti));
      }
      return None;
    }
  }
}

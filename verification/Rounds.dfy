/** Rounds, checkpoints and their confirmations, fetched by content address (gossip/types/rounds.go). */
module Rounds {
  import opened Prelude
  import opened Signatures

  /** A store of blocks under their CIDs. */
  type Store = map<Bytes, Bytes>

  /** Different blocks have different CIDs. */
  ghost predicate CollisionFree(cidOf: Bytes -> Bytes) {
    forall b, b' :: cidOf(b) == cidOf(b') ==> b == b'
  }

  ghost predicate ContentAddressed(cidOf: Bytes -> Bytes, store: Store) {
    forall id :: id in store ==> cidOf(store[id]) == id
  }

  datatype Round = Round(height: uint64, stateCid: Bytes, checkpointCid: Bytes)
  datatype Checkpoint = Checkpoint(height: uint64, addBlockRequests: seq<Bytes>)
  datatype AddBlockRequest = AddBlockRequest(
    previousTip: Bytes, height: uint64, payload: Bytes, newTip: Bytes, objectId: Bytes, state: seq<Bytes>)

  /** A round confirmation as it travels: the signature covers the round's CID. */
  datatype Confirmed = Confirmed(height: uint64, roundCid: Bytes, signature: Signature)

  /** The encoding and hashing libraries. A CID is its bytes; `isCid` says which bytes `cid.Cast` takes. */
  datatype Codec = Codec(
    isCid: Bytes -> bool,
    cidOf: Bytes -> Bytes,
    encodeRound: Round -> Bytes,
    decodeRound: Bytes -> Option<Round>,
    encodeCheckpoint: Checkpoint -> Bytes,
    decodeCheckpoint: Bytes -> Option<Checkpoint>,
    encodeRequest: AddBlockRequest -> Bytes)
  {
    function RoundCid(round: Round): Bytes {
      cidOf(encodeRound(round))
    }

    function CheckpointCid(checkpoint: Checkpoint): Bytes {
      cidOf(encodeCheckpoint(checkpoint))
    }

    function RequestCid(abr: AddBlockRequest): Bytes {
      cidOf(encodeRequest(abr))
    }

    /** Different blocks have different CIDs, and every CID casts. */
    ghost predicate SoundCids() {
      (forall b :: isCid(cidOf(b))) && CollisionFree(cidOf)
    }

    /** One value, one encoding. */
    ghost predicate Canonical() {
      && (forall b, round :: decodeRound(b) == Some(round) <==> b == encodeRound(round))
      && (forall b, cp :: decodeCheckpoint(b) == Some(cp) <==> b == encodeCheckpoint(cp))
    }

    ghost predicate Sound() {
      SoundCids() && Canonical()
    }

    lemma RoundCidInjective(r: Round, r': Round)
      requires Sound() && RoundCid(r) == RoundCid(r')
      ensures r == r'
    {
      assert decodeRound(encodeRound(r)) == Some(r) && decodeRound(encodeRound(r')) == Some(r');
    }

    lemma CheckpointCidInjective(c: Checkpoint, c': Checkpoint)
      requires Sound() && CheckpointCid(c) == CheckpointCid(c')
      ensures c == c'
    {
      assert decodeCheckpoint(encodeCheckpoint(c)) == Some(c);
      assert decodeCheckpoint(encodeCheckpoint(c')) == Some(c');
    }
  }

  function GetBlock(codec: Codec, store: Option<Store>, id: Bytes): Result<Bytes> {
    if store.None? then Err("missing a store, use SetStore")
    else if !codec.isCid(id) then Err("error casting cid")
    else if id !in store.value then Err("error getting node")
    else Ok(store.value[id])
  }

  function LookupRound(codec: Codec, store: Option<Store>, roundCid: Bytes): Result<Round> {
    var block :- GetBlock(codec, store, roundCid);
    match codec.decodeRound(block)
    case None => Err("error decoding")
    case Some(round) => Ok(round)
  }

  function LookupCheckpoint(codec: Codec, store: Option<Store>, checkpointCid: Bytes): Result<Checkpoint> {
    var block :- GetBlock(codec, store, checkpointCid);
    match codec.decodeCheckpoint(block)
    case None => Err("error decoding")
    case Some(checkpoint) => Ok(checkpoint)
  }

  /** What a fetch returns hashes back to the CID it was fetched by. */
  lemma LookupsAreAuthentic(codec: Codec, store: Option<Store>, id: Bytes)
    requires codec.Sound() && (store.Some? ==> ContentAddressed(codec.cidOf, store.value))
    ensures LookupRound(codec, store, id).Ok? ==> codec.RoundCid(LookupRound(codec, store, id).value) == id
    ensures LookupCheckpoint(codec, store, id).Ok? ==>
              codec.CheckpointCid(LookupCheckpoint(codec, store, id).value) == id
  {
    if LookupRound(codec, store, id).Ok? {
      assert store.value[id] == codec.encodeRound(LookupRound(codec, store, id).value);
    }
    if LookupCheckpoint(codec, store, id).Ok? {
      assert store.value[id] == codec.encodeCheckpoint(LookupCheckpoint(codec, store, id).value);
    }
  }

  /** A lookup finds a round or checkpoint exactly when it has the CID asked for and its block is stored. */
  lemma LookupIff(codec: Codec, store: Store, id: Bytes, round: Round, checkpoint: Checkpoint)
    requires codec.Sound() && ContentAddressed(codec.cidOf, store)
    ensures LookupRound(codec, Some(store), id) == Ok(round) <==> id == codec.RoundCid(round) && id in store
    ensures LookupCheckpoint(codec, Some(store), id) == Ok(checkpoint) <==>
            id == codec.CheckpointCid(checkpoint) && id in store
  {
    LookupsAreAuthentic(codec, Some(store), id);
    if id in store {
      assert codec.cidOf(store[id]) == id && codec.isCid(codec.cidOf(store[id]));
    }
  }

  /** The mutable confirmation object that the conflict sets, the wrapper and the proofs share. */
  class Confirmation {
    const height: uint64
    const roundCid: Bytes
    var signature: Signature

    constructor (c: Confirmed)
      ensures height == c.height && roundCid == c.roundCid && signature == c.signature
    {
      height, roundCid, signature := c.height, c.roundCid, c.signature;
    }

    function Value(): Confirmed
      reads this
    {
      Confirmed(height, roundCid, signature)
    }
  }

  class RoundWrapper {
    const round: Round
    var checkpoint: Option<Checkpoint>
    var store: Option<Store>

    constructor (round: Round)
      ensures this.round == round && checkpoint == None && store == None
    {
      this.round, checkpoint, store := round, None, None;
    }

    /** The cache holds only what the round's own CID names. */
    ghost predicate Valid(codec: Codec)
      reads this
    {
      && (store.Some? ==> ContentAddressed(codec.cidOf, store.value))
      && (checkpoint.Some? ==> codec.CheckpointCid(checkpoint.value) == round.checkpointCid)
    }

    /** The first success is remembered and answers every later call. */
    method FetchCheckpoint(codec: Codec) returns (r: Result<Checkpoint>)
      requires codec.Sound() && Valid(codec)
      modifies this`checkpoint
      ensures Valid(codec)
      ensures r == if old(checkpoint).Some? then Ok(old(checkpoint).value)
                   else LookupCheckpoint(codec, store, round.checkpointCid)
      ensures checkpoint == if r.Ok? then Some(r.value) else old(checkpoint)
      ensures r.Ok? ==> codec.CheckpointCid(r.value) == round.checkpointCid
    {
      if checkpoint.Some? {
        return Ok(checkpoint.value);
      }
      r := LookupCheckpoint(codec, store, round.checkpointCid);
      if r.Ok? {
        LookupsAreAuthentic(codec, store, round.checkpointCid);
        checkpoint := Some(r.value);
      }
    }
  }

  class ConfirmationWrapper {
    const value: Confirmation
    var completedRound: RoundWrapper?
    var store: Option<Store>

    constructor (value: Confirmation)
      ensures this.value == value && completedRound == null && store == None
    {
      this.value, completedRound, store := value, null, None;
    }

    ghost predicate Valid(codec: Codec)
      reads this, completedRound
    {
      && (store.Some? ==> ContentAddressed(codec.cidOf, store.value))
      && (completedRound != null ==>
            completedRound.Valid(codec) && codec.RoundCid(completedRound.round) == value.roundCid)
    }

    method SetStore(store: Store)
      modifies this`store
      ensures this.store == Some(store)
    {
      this.store := Some(store);
    }

    method FetchCompletedRound(codec: Codec) returns (r: Result<RoundWrapper>)
      requires codec.Sound() && Valid(codec)
      modifies this`completedRound
      ensures Valid(codec)
      ensures old(completedRound) != null ==> r == Ok(old(completedRound))
      ensures old(completedRound) == null ==>
                var lookup := LookupRound(codec, store, value.roundCid);
                && (r.Ok? <==> lookup.Ok?)
                && (r.Ok? ==> fresh(r.value) && r.value.round == lookup.value
                              && r.value.checkpoint == None && r.value.store == store)
      ensures r.Ok? ==> completedRound == r.value && codec.RoundCid(r.value.round) == value.roundCid
      ensures r.Err? ==> completedRound == old(completedRound)
    {
      if completedRound != null {
        return Ok(completedRound);
      }
      var lookup := LookupRound(codec, store, value.roundCid);
      if lookup.Err? {
        return Err(lookup.error);
      }
      LookupsAreAuthentic(codec, store, value.roundCid);
      var wrapped := new RoundWrapper(lookup.value);
      wrapped.store := store;
      completedRound := wrapped;
      r := Ok(wrapped);
    }
  }
}

/** The independent checker of proofs (proof/proof.go). */
module Proof {
  import opened Prelude
  import opened Signatures
  import opened Rounds

  datatype ProofValue = ProofValue(
    objectId: Bytes,
    tip: Bytes,
    request: AddBlockRequest,
    checkpoint: Checkpoint,
    round: Round,
    confirmation: Confirmed)

  /** Enough distinct signers, as many positions as known keys, and a valid signature on the round's CID. */
  function CheckConfirmation(suite: Suite, conf: Confirmed, quorumCount: nat, verKeys: seq<nat>): Result<bool> {
    if |Support(conf.signature.signers)| < quorumCount then Ok(false)
    else if |verKeys| != |conf.signature.signers| then Err("error restoring public key")
    else Valid(suite, Restored(suite, conf.signature, verKeys), conf.roundCid)
  }

  /** Searches the checkpoint for the request; a CID that does not cast ends the search with an error. */
  function FindRequest(codec: Codec, cids: seq<Bytes>, abrCid: Bytes): Result<bool> {
    if |cids| == 0 then Ok(false)
    else if !codec.isCid(cids[0]) then Err("error casting checkpoint add block request cid")
    else if cids[0] == abrCid then Ok(true)
    else FindRequest(codec, cids[1..], abrCid)
  }

  function Check(suite: Suite, codec: Codec, p: ProofValue, quorumCount: nat, verKeys: seq<nat>): Result<bool> {
    var confirmed :- CheckConfirmation(suite, p.confirmation, quorumCount, verKeys);
    if !confirmed then Ok(false)
    else if !codec.isCid(p.confirmation.roundCid) then Err("error casting round confirmation roundcid")
    else if codec.RoundCid(p.round) != p.confirmation.roundCid then Ok(false)
    else if !codec.isCid(p.round.checkpointCid) then Err("error casting round checkpoint cid")
    else if codec.CheckpointCid(p.checkpoint) != p.round.checkpointCid then Ok(false)
    else
      var found :- FindRequest(codec, p.checkpoint.addBlockRequests, codec.RequestCid(p.request));
      if !found then Ok(false)
      else if !codec.isCid(p.tip) then Err("error casting tip cid")
      else if !codec.isCid(p.request.newTip) then Err("error casting add block request new tip cid")
      else Ok(p.tip == p.request.newTip && p.objectId == p.request.objectId)
  }

  /** A proof as it is handed out: the confirmation is the subscriber's own object. */
  datatype SharedProof = SharedProof(
    objectId: Bytes,
    tip: Bytes,
    request: AddBlockRequest,
    checkpoint: Checkpoint,
    round: Round,
    confirmation: Confirmation)
  {
    ghost function Value(): ProofValue
      reads confirmation
    {
      ProofValue(objectId, tip, request, checkpoint, round, confirmation.Value())
    }
  }

  /** The signature a check leaves behind: the restored key replaces whatever key it carried. */
  function SignatureLeft(suite: Suite, sig: Signature, quorumCount: nat, verKeys: seq<nat>): Signature {
    if |Support(sig.signers)| >= quorumCount && |verKeys| == |sig.signers| then Restored(suite, sig, verKeys) else sig
  }

  /** Restoring the key writes it into the shared signature. */
  method VerifyRoundConfirmation(suite: Suite, conf: Confirmation, quorumCount: nat, verKeys: seq<nat>)
    returns (r: Result<bool>)
    modifies conf
    ensures r == CheckConfirmation(suite, old(conf.Value()), quorumCount, verKeys)
    ensures conf.signature == SignatureLeft(suite, old(conf.signature), quorumCount, verKeys)
    ensures r == Ok(true) ==>
              && conf.signature.keyType == KeyTypeBLSGroupSig && |conf.signature.signers| == |verKeys|
              && conf.signature.key == Weighted(conf.signature.signers, verKeys) % suite.order
    ensures old(|Support(conf.signature.signers)|) < quorumCount || |verKeys| != old(|conf.signature.signers|) ==>
              conf.signature == old(conf.signature)
  {
    var count := SignerCount(conf.signature);
    if count < quorumCount {
      return Ok(false);
    }
    var restored := RestoreBLSPublicKey(suite, conf.signature, verKeys);
    if restored.Err? {
      return Err("error restoring public key");
    }
    conf.signature := restored.value;
    r := Valid(suite, conf.signature, conf.roundCid);
  }

  method Verify(suite: Suite, codec: Codec, proof: SharedProof, quorumCount: nat, verKeys: seq<nat>)
    returns (r: Result<bool>)
    modifies proof.confirmation
    ensures r == Check(suite, codec, old(proof.Value()), quorumCount, verKeys)
    ensures proof.confirmation.signature ==
            SignatureLeft(suite, old(proof.confirmation.signature), quorumCount, verKeys)
  {
    var confirmed := VerifyRoundConfirmation(suite, proof.confirmation, quorumCount, verKeys);
    if confirmed.Err? || !confirmed.value {
      return confirmed;
    }
    if !codec.isCid(proof.confirmation.roundCid) {
      return Err("error casting round confirmation roundcid");
    }
    if codec.RoundCid(proof.round) != proof.confirmation.roundCid {
      return Ok(false);
    }
    if !codec.isCid(proof.round.checkpointCid) {
      return Err("error casting round checkpoint cid");
    }
    if codec.CheckpointCid(proof.checkpoint) != proof.round.checkpointCid {
      return Ok(false);
    }
    var abrCid := codec.RequestCid(proof.request);
    var cids := proof.checkpoint.addBlockRequests;
    var abrFound := false;
    var i := 0;
    while i < |cids|
      invariant 0 <= i <= |cids| && !abrFound
      invariant FindRequest(codec, cids, abrCid) == FindRequest(codec, cids[i..], abrCid)
    {
      if !codec.isCid(cids[i]) {
        return Err("error casting checkpoint add block request cid");
      }
      if cids[i] == abrCid {
        abrFound := true;
        break;
      }
      i := i + 1;
    }
    if !abrFound {
      return Ok(false);
    }
    if !codec.isCid(proof.tip) {
      return Err("error casting tip cid");
    }
    if !codec.isCid(proof.request.newTip) {
      return Err("error casting add block request new tip cid");
    }
    if proof.tip != proof.request.newTip {
      return Ok(false);
    }
    r := Ok(proof.objectId == proof.request.objectId);
  }
}

/** Aggregated BLS signatures (signatures/signature.go).

    The two BLS groups are cyclic of one prime order, so an element is modelled by its discrete
    logarithm: a key `k` stands for `k*G2`, a signature point `p` for `p*G1`, and `hash(m)` for the
    logarithm of the message's point. The pairing equation of the verifier is then
    `p == k * hash(m)` modulo the order. A point that is not below the order encodes no group element. */
module Signatures {
  import opened Prelude

  /** The foreign code the signatures rest on: the curve, and the interpreter of condition scripts
      (`None` is an error while the script runs). */
  datatype Suite = Suite(order: pos, hash: Bytes -> nat, script: (string, string) -> Option<bool>)

  datatype KeyType = KeyTypeSecp256k1 | KeyTypeBLSGroupSig

  datatype Signature = Signature(
    keyType: KeyType,
    key: nat,
    signers: seq<uint32>,
    point: nat,
    conditions: string,
    preImage: string)

  // ----- Group operations

  function SumVerKeys(suite: Suite, keys: seq<nat>): nat {
    SumBy(Identity(), keys) % suite.order
  }

  predicate VerifyPoint(suite: Suite, key: nat, point: nat, msg: Bytes) {
    point == (key * suite.hash(msg)) % suite.order
  }

  /** `Valid` on a BLS signature: first the conditions, then the pairing equation. */
  function Valid(suite: Suite, sig: Signature, msg: Bytes): Result<bool> {
    var conditions := if sig.conditions == "" then Some(true) else suite.script(sig.conditions, sig.preImage);
    match conditions
    case None => Err("error validating conditions")
    case Some(false) => Ok(false)
    case Some(true) =>
      if sig.keyType == KeyTypeBLSGroupSig then Ok(VerifyPoint(suite, sig.key, sig.point, msg))
      else Err("unknown key type")
  }

  /** For a key and a message one point is valid and every other is refused; conditions that do not hold, or that
      fail to run, are a refusal and an error, whatever the point. */
  lemma OnePointIsValid(suite: Suite, sig: Signature, point: nat, msg: Bytes)
    ensures Valid(suite, sig, msg) == Ok(true) && point != sig.point ==>
              Valid(suite, sig.(point := point), msg) == Ok(false)
    ensures sig.conditions != "" && suite.script(sig.conditions, sig.preImage) == Some(false) ==>
              Valid(suite, sig, msg) == Ok(false)
    ensures sig.conditions != "" && suite.script(sig.conditions, sig.preImage) == None ==> Valid(suite, sig, msg).Err?
  {
  }

  // ----- Multiplicity vectors

  /** The distinct signers of a vector: its non-zero positions. */
  function Support(signers: seq<uint32>): set<nat> {
    set i: nat | i < |signers| && signers[i] > 0
  }

  method SignerCount(sig: Signature) returns (count: nat)
    ensures count == |Support(sig.signers)|
  {
    count := 0;
    for i := 0 to |sig.signers|
      invariant count == |Support(sig.signers[..i])|
    {
      assert Support(sig.signers[..i + 1]) ==
             if sig.signers[i] > 0 then Support(sig.signers[..i]) + {i} else Support(sig.signers[..i]);
      if sig.signers[i] > 0 {
        count := count + 1;
      }
    }
    assert sig.signers[..|sig.signers|] == sig.signers;
  }

  /** The sum of all keys, each taken as often as the vector says (not reduced). */
  function Weighted(signers: seq<nat>, keys: seq<nat>): nat
    requires |signers| == |keys|
  {
    if |signers| == 0 then 0
    else
      var n := |signers| - 1;
      Weighted(signers[..n], keys[..n]) + signers[n] * keys[n]
  }

  function RestoredKey(suite: Suite, signers: seq<nat>, keys: seq<nat>): nat
    requires |signers| == |keys|
  {
    Weighted(signers, keys) % suite.order
  }

  function Restored(suite: Suite, sig: Signature, keys: seq<nat>): Signature
    requires |sig.signers| == |keys|
  {
    sig.(keyType := KeyTypeBLSGroupSig, key := RestoredKey(suite, sig.signers, keys))
  }

  function Identity(): nat -> nat {
    (k: nat) => k
  }

  method Copies(key: nat, cnt: nat) returns (keys: seq<nat>)
    ensures SumBy(Identity(), keys) == cnt * key
  {
    keys := [];
    for j := 0 to cnt
      invariant SumBy(Identity(), keys) == j * key
    {
      SumBySnoc(Identity(), keys, key);
      keys := keys + [key];
    }
  }

  lemma WeightedSnoc(signers: seq<nat>, keys: seq<nat>, i: nat)
    requires |signers| == |keys| && i < |signers|
    ensures Weighted(signers[..i + 1], keys[..i + 1]) == Weighted(signers[..i], keys[..i]) + signers[i] * keys[i]
  {
    assert signers[..i + 1][..i] == signers[..i];
    assert keys[..i + 1][..i] == keys[..i];
  }

  /** Sums a list that holds every known key as often as the vector says. */
  method RestoreBLSPublicKey(suite: Suite, sig: Signature, knownVerKeys: seq<nat>) returns (r: Result<Signature>)
    ensures r.Ok? <==> |knownVerKeys| == |sig.signers|
    ensures r.Ok? ==> r.value == Restored(suite, sig, knownVerKeys)
    ensures r.Ok? ==>
              r.value == Signature(KeyTypeBLSGroupSig, Weighted(sig.signers, knownVerKeys) % suite.order, sig.signers,
                                   sig.point, sig.conditions, sig.preImage)
  {
    if |knownVerKeys| != |sig.signers| {
      return Err("known verkeys length did not match signers length");
    }
    var verKeys: seq<nat> := [];
    for i := 0 to |sig.signers|
      invariant SumBy(Identity(), verKeys) == Weighted(sig.signers[..i], knownVerKeys[..i])
    {
      WeightedSnoc(sig.signers, knownVerKeys, i);
      if sig.signers[i] > 0 {
        var newKeys := Copies(knownVerKeys[i], sig.signers[i]);
        SumByConcat(Identity(), verKeys, newKeys);
        verKeys := verKeys + newKeys;
      }
    }
    assert sig.signers[..|sig.signers|] == sig.signers && knownVerKeys[..|sig.signers|] == knownVerKeys;
    var key := SumVerKeys(suite, verKeys);
    r := Ok(sig.(keyType := KeyTypeBLSGroupSig, key := key));
  }

  /** One signer's own signature: a vector with a single one. The signing key is its logarithm. */
  function BLSSign(suite: Suite, key: nat, msg: Bytes, signerLen: nat, signerIndex: nat): Result<Signature> {
    if signerIndex >= signerLen then Err("signer index must be less than signer length")
    else Ok(Signature(KeyTypeBLSGroupSig, key % suite.order,
                      seq(signerLen, i => if i == signerIndex then 1 else 0),
                      (key * suite.hash(msg)) % suite.order, "", ""))
  }

  // ----- Aggregation

  function Count(sig: Signature, i: nat): nat {
    if i < |sig.signers| then sig.signers[i] else 0
  }

  function CountAt(i: nat): Signature -> nat {
    (sig: Signature) => Count(sig, i)
  }

  function KeyOf(): Signature -> nat {
    (sig: Signature) => sig.key
  }

  function PointOf(): Signature -> nat {
    (sig: Signature) => sig.point
  }

  /** How often each of `n` signers occurs in all the signatures together. */
  function Columns(sigs: seq<Signature>, n: nat): (c: seq<nat>)
    ensures |c| == n
  {
    seq(n, (i: nat) => SumBy(CountAt(i), sigs))
  }

  predicate Aggregatable(suite: Suite, sig: Signature, n: nat) {
    sig.keyType == KeyTypeBLSGroupSig && |sig.signers| == n && sig.point < suite.order
  }

  /** Aggregation fails on a foreign key type, on vectors of different lengths, on bytes that are no
      point, and when the multiplicity of some signer would leave 32 bits. */
  predicate CanAggregate(suite: Suite, sigs: seq<Signature>)
    requires |sigs| > 0
  {
    && (forall j :: 0 <= j < |sigs| ==> Aggregatable(suite, sigs[j], |sigs[0].signers|))
    && (forall i :: 0 <= i < |sigs[0].signers| ==> Columns(sigs, |sigs[0].signers|)[i] <= MAX_UINT32)
  }

  function Aggregated(suite: Suite, sigs: seq<Signature>): Signature
    requires |sigs| > 0 && CanAggregate(suite, sigs)
  {
    Signature(KeyTypeBLSGroupSig,
              SumBy(KeyOf(), sigs) % suite.order,
              Columns(sigs, |sigs[0].signers|),
              SumBy(PointOf(), sigs) % suite.order,
              "", "")
  }

  /** Signatures aggregate exactly when all are BLS signatures over as many signers, with points of the group, and no
      signer's multiplicities leave 32 bits; the aggregate has the sums, and no conditions. */
  lemma AggregationMeans(suite: Suite, sigs: seq<Signature>)
    requires |sigs| > 0
    ensures CanAggregate(suite, sigs) <==>
            && (forall sig :: sig in sigs ==>
                  sig.keyType == KeyTypeBLSGroupSig && |sig.signers| == |sigs[0].signers| && sig.point < suite.order)
            && (forall i :: 0 <= i < |sigs[0].signers| ==> SumBy(CountAt(i), sigs) <= MAX_UINT32)
    ensures CanAggregate(suite, sigs) ==>
              var sum := Aggregated(suite, sigs);
              && sum.keyType == KeyTypeBLSGroupSig && sum.conditions == "" && sum.preImage == ""
              && sum.key == SumBy(KeyOf(), sigs) % suite.order && sum.point == SumBy(PointOf(), sigs) % suite.order
              && |sum.signers| == |sigs[0].signers|
              && forall i :: 0 <= i < |sum.signers| ==> sum.signers[i] == SumBy(CountAt(i), sigs)
  {
    var n := |sigs[0].signers|;
    assert forall i :: 0 <= i < n ==> Columns(sigs, n)[i] == SumBy(CountAt(i), sigs);
    assert forall j :: 0 <= j < |sigs| ==> sigs[j] in sigs;
  }

  lemma ColumnsSnoc(sigs: seq<Signature>, sig: Signature, n: nat)
    ensures forall i :: 0 <= i < n ==> Columns(sigs + [sig], n)[i] == Columns(sigs, n)[i] + Count(sig, i)
  {
    forall i | 0 <= i < n
      ensures Columns(sigs + [sig], n)[i] == Columns(sigs, n)[i] + Count(sig, i)
    {
      SumBySnoc(CountAt(i), sigs, sig);
    }
  }

  lemma ColumnsGrow(sigs: seq<Signature>, k: nat, n: nat)
    requires k <= |sigs|
    ensures forall i :: 0 <= i < n ==> Columns(sigs[..k], n)[i] <= Columns(sigs, n)[i]
  {
    forall i | 0 <= i < n
      ensures Columns(sigs[..k], n)[i] <= Columns(sigs, n)[i]
    {
      SumByConcat(CountAt(i), sigs[..k], sigs[k..]);
      assert sigs[..k] + sigs[k..] == sigs;
    }
  }

  function Plus(u: seq<nat>, v: seq<nat>): (w: seq<nat>)
    requires |u| == |v|
    ensures |w| == |u|
  {
    seq(|u|, (i: nat) requires i < |u| && i < |v| => u[i] + v[i])
  }

  /** Adds one vector into the accumulated one, checking every position for overflow first. */
  method AddSigners(acc: seq<uint32>, cnts: seq<uint32>) returns (r: Result<seq<uint32>>)
    requires |acc| == |cnts|
    ensures r.Ok? <==> forall i :: 0 <= i < |acc| ==> Plus(acc, cnts)[i] <= MAX_UINT32
    ensures r.Ok? ==> r.value == Plus(acc, cnts)
  {
    var out: seq<uint32> := acc;
    for i := 0 to |cnts|
      invariant |out| == |acc|
      invariant forall k :: 0 <= k < i ==> out[k] == Plus(acc, cnts)[k]
      invariant forall k :: i <= k < |acc| ==> out[k] == acc[k]
    {
      var existing: nat := out[i];
      if cnts[i] > MAX_UINT32 - existing || existing > MAX_UINT32 - cnts[i] {
        assert Plus(acc, cnts)[i] > MAX_UINT32;
        return Err("error would overflow");
      }
      out := out[i := existing + cnts[i]];
    }
    r := Ok(out);
  }

  /** Combines signatures of one message; reading the length of the first one demands a first one. */
  method AggregateBLSSignatures(suite: Suite, sigs: seq<Signature>) returns (r: Result<Signature>)
    requires |sigs| > 0
    ensures r.Ok? <==> CanAggregate(suite, sigs)
    ensures r.Ok? ==> r.value == Aggregated(suite, sigs)
  {
    var n := |sigs[0].signers|;
    var signers: seq<uint32> := seq(n, _ => 0);
    var keys, points := 0, 0;
    for j := 0 to |sigs|
      invariant |signers| == n && signers == Columns(sigs[..j], n)
      invariant forall k :: 0 <= k < j ==> sigs[k].keyType == KeyTypeBLSGroupSig && |sigs[k].signers| == n
      invariant keys == SumBy(KeyOf(), sigs[..j])
      invariant points == SumBy(PointOf(), sigs[..j])
    {
      var sig := sigs[j];
      if sig.keyType != KeyTypeBLSGroupSig {
        return Err("wrong signature type, can only aggregate BLS signatures");
      }
      if |sig.signers| != n {
        return Err("all signatures to aggregate must have the same signer length");
      }
      assert sigs[..j + 1] == sigs[..j] + [sig];
      ColumnsSnoc(sigs[..j], sig, n);
      var sum := AddSigners(signers, sig.signers);
      if sum.Err? {
        ColumnsGrow(sigs, j + 1, n);
        var i :| 0 <= i < n && Plus(signers, sig.signers)[i] > MAX_UINT32;
        assert Columns(sigs, n)[i] > MAX_UINT32;
        return Err(sum.error);
      }
      signers := sum.value;
      assert signers == Columns(sigs[..j + 1], n);
      SumBySnoc(KeyOf(), sigs[..j], sig);
      SumBySnoc(PointOf(), sigs[..j], sig);
      keys, points := keys + sig.key, points + sig.point;
    }
    assert sigs[..|sigs|] == sigs;
    if exists j :: 0 <= j < |sigs| && sigs[j].point >= suite.order {
      return Err("error summing signatures");
    }
    r := Ok(Signature(KeyTypeBLSGroupSig, keys % suite.order, signers, points % suite.order, "", ""));
  }
}

/** What aggregation promises: an aggregate of good signatures is a good signature of the same message,
    its stored key is the one restored from its signers, and neither order nor grouping matters. */
module AggregationLaws {
  import opened Prelude
  import opened Signatures

  /** The key is the one its vector stands for, and the point verifies under that key. */
  predicate Matches(suite: Suite, sig: Signature, keys: seq<nat>, msg: Bytes) {
    && |sig.signers| == |keys|
    && sig == Restored(suite, sig, keys)
    && VerifyPoint(suite, sig.key, sig.point, msg)
  }

  // ----- Linearity

  lemma {:induction false} WeightedPlus(u: seq<nat>, v: seq<nat>, keys: seq<nat>)
    requires |u| == |v| == |keys|
    ensures Weighted(Plus(u, v), keys) == Weighted(u, keys) + Weighted(v, keys)
  {
    if |u| > 0 {
      var n := |u| - 1;
      WeightedPlus(u[..n], v[..n], keys[..n]);
      assert Plus(u, v)[..n] == Plus(u[..n], v[..n]);
      assert Plus(u, v)[n] * keys[n] == u[n] * keys[n] + v[n] * keys[n];
    }
  }

  lemma {:induction false} WeightedZero(u: seq<nat>, keys: seq<nat>)
    requires |u| == |keys| && forall i :: 0 <= i < |u| ==> u[i] == 0
    ensures Weighted(u, keys) == 0
  {
    if |u| > 0 {
      WeightedZero(u[..|u| - 1], keys[..|u| - 1]);
    }
  }

  lemma {:induction false} WeightedUnit(u: seq<nat>, keys: seq<nat>, i: nat)
    requires |u| == |keys| && i < |u| && u[i] == 1 && forall j :: 0 <= j < |u| && j != i ==> u[j] == 0
    ensures Weighted(u, keys) == keys[i]
  {
    var n := |u| - 1;
    if i == n {
      WeightedZero(u[..n], keys[..n]);
    } else {
      WeightedUnit(u[..n], keys[..n], i);
    }
  }

  /** What a signer of the group signs matches the group's keys, so it is accepted and can be aggregated. */
  lemma SignedMatches(suite: Suite, keys: seq<nat>, i: nat, msg: Bytes)
    ensures forall key :: BLSSign(suite, key, msg, |keys|, i).Ok? <==> i < |keys|
    ensures i < |keys| ==> Matches(suite, BLSSign(suite, keys[i], msg, |keys|, i).value, keys, msg)
  {
    if i >= |keys| {
      return;
    }
    var sig := BLSSign(suite, keys[i], msg, |keys|, i).value;
    WeightedUnit(sig.signers, keys, i);
    ModTimes(keys[i], suite.hash(msg), suite.order);
  }

  /** The key sums of signatures that match their vectors add up to the key of the summed vector. */
  lemma {:induction false} KeysAddUp(suite: Suite, sigs: seq<Signature>, keys: seq<nat>, msg: Bytes)
    requires forall j :: 0 <= j < |sigs| ==> Matches(suite, sigs[j], keys, msg)
    ensures SumBy(KeyOf(), sigs) % suite.order == RestoredKey(suite, Columns(sigs, |keys|), keys)
  {
    var n := |keys|;
    if |sigs| == 0 {
      WeightedZero(Columns(sigs, n), keys);
    } else {
      var front, last := sigs[..|sigs| - 1], sigs[|sigs| - 1];
      KeysAddUp(suite, front, keys, msg);
      assert sigs == front + [last];
      ColumnsSnoc(front, last, n);
      assert Columns(sigs, n) == Plus(Columns(front, n), last.signers);
      WeightedPlus(Columns(front, n), last.signers, keys);
      var (s, w) := (SumBy(KeyOf(), front), Weighted(Columns(front, n), keys));
      var (wl, m) := (Weighted(last.signers, keys), suite.order);
      ModPlus(s, last.key, m);
      ModPlus(w, last.key, m);
      ModPlus(wl, w, m);
    }
  }

  /** The points of valid signatures add up to the point of the summed key. */
  lemma {:induction false} PointsAddUp(suite: Suite, sigs: seq<Signature>, keys: seq<nat>, msg: Bytes)
    requires forall j :: 0 <= j < |sigs| ==> Matches(suite, sigs[j], keys, msg)
    ensures SumBy(PointOf(), sigs) % suite.order == (SumBy(KeyOf(), sigs) * suite.hash(msg)) % suite.order
  {
    if |sigs| > 0 {
      var front, last := sigs[..|sigs| - 1], sigs[|sigs| - 1];
      PointsAddUp(suite, front, keys, msg);
      PointStep(SumBy(PointOf(), front), last.point, SumBy(KeyOf(), front), last.key, suite.hash(msg), suite.order);
    }
  }

  lemma PointStep(p: nat, p': nat, k: nat, k': nat, h: nat, m: pos)
    requires p % m == (k * h) % m && p' == (k' * h) % m
    ensures (p + p') % m == ((k + k') * h) % m
  {
    var a, b := k * h, k' * h;
    assert (k + k') * h == a + b;
    ModPlus(p, p', m);
    ModPlus(a, p', m);
    ModPlus(b, a, m);
  }

  /** Aggregation and key restoration agree, and the aggregate is valid for the same message. */
  lemma AggregateMatches(suite: Suite, sigs: seq<Signature>, keys: seq<nat>, msg: Bytes)
    requires |sigs| > 0 && forall j :: 0 <= j < |sigs| ==> Matches(suite, sigs[j], keys, msg)
    ensures CanAggregate(suite, sigs) <==>
            forall i :: 0 <= i < |keys| ==> Columns(sigs, |keys|)[i] <= MAX_UINT32
    ensures CanAggregate(suite, sigs) ==>
              var sum := Aggregated(suite, sigs);
              && sum.signers == Columns(sigs, |keys|)
              && Matches(suite, sum, keys, msg)
              && Valid(suite, sum, msg) == Ok(true)
  {
    if CanAggregate(suite, sigs) {
      KeysAddUp(suite, sigs, keys, msg);
      PointsAddUp(suite, sigs, keys, msg);
      ModTimes(SumBy(KeyOf(), sigs), suite.hash(msg), suite.order);
    }
  }

  /** Aggregation does not depend on the order of the signatures. */
  lemma AggregateAnyOrder(suite: Suite, sigs: seq<Signature>, sigs': seq<Signature>)
    requires |sigs| > 0 && multiset(sigs) == multiset(sigs')
    ensures |sigs'| > 0 && (CanAggregate(suite, sigs) <==> CanAggregate(suite, sigs'))
    ensures CanAggregate(suite, sigs) ==> Aggregated(suite, sigs) == Aggregated(suite, sigs')
  {
    assert sigs[0] in multiset(sigs');
    if CanAggregate(suite, sigs) {
      AggregatePermuted(suite, sigs, sigs');
    }
    if CanAggregate(suite, sigs') {
      AggregatePermuted(suite, sigs', sigs);
    }
  }

  lemma AggregatePermuted(suite: Suite, sigs: seq<Signature>, sigs': seq<Signature>)
    requires |sigs| > 0 && |sigs'| > 0 && multiset(sigs) == multiset(sigs')
    requires CanAggregate(suite, sigs)
    ensures CanAggregate(suite, sigs') && Aggregated(suite, sigs) == Aggregated(suite, sigs')
  {
    var n := |sigs[0].signers|;
    forall j | 0 <= j < |sigs'|
      ensures Aggregatable(suite, sigs'[j], n)
    {
      assert sigs'[j] in multiset(sigs);
    }
    assert Columns(sigs, n) == Columns(sigs', n) by {
      forall i | 0 <= i < n
        ensures Columns(sigs, n)[i] == Columns(sigs', n)[i]
      {
        SumByPermutation(CountAt(i), sigs, sigs');
      }
    }
    SumByPermutation(KeyOf(), sigs, sigs');
    SumByPermutation(PointOf(), sigs, sigs');
  }

  // ----- Grouping

  /** Groups of signatures that can each be aggregated. */
  predicate Grouped(suite: Suite, groups: seq<seq<Signature>>) {
    forall g :: 0 <= g < |groups| ==> |groups[g]| > 0 && CanAggregate(suite, groups[g])
  }

  function Aggregates(suite: Suite, groups: seq<seq<Signature>>): (sigs: seq<Signature>)
    requires Grouped(suite, groups)
    ensures |sigs| == |groups|
  {
    seq(|groups|, (g: nat) requires g < |groups| => Aggregated(suite, groups[g]))
  }

  /** Summed group by group or all at once, the multiplicities are the same, and so are the keys and the
      points up to the order of the group. */
  lemma {:induction false} GroupSums(suite: Suite, groups: seq<seq<Signature>>, n: nat)
    requires Grouped(suite, groups) && forall g :: 0 <= g < |groups| ==> |groups[g][0].signers| == n
    ensures Columns(Aggregates(suite, groups), n) == Columns(Flatten(groups), n)
    ensures SumBy(KeyOf(), Aggregates(suite, groups)) % suite.order == SumBy(KeyOf(), Flatten(groups)) % suite.order
    ensures SumBy(PointOf(), Aggregates(suite, groups)) % suite.order == SumBy(PointOf(), Flatten(groups)) % suite.order
  {
    if |groups| > 0 {
      var front, last := groups[..|groups| - 1], groups[|groups| - 1];
      var sigs, sig := Aggregates(suite, front), Aggregated(suite, last);
      GroupSums(suite, front, n);
      assert Aggregates(suite, groups) == sigs + [sig];
      ColumnsSnoc(sigs, sig, n);
      forall i | 0 <= i < n
        ensures Columns(sigs + [sig], n)[i] == Columns(Flatten(groups), n)[i]
      {
        SumByConcat(CountAt(i), Flatten(front), last);
      }
      SumOfGroup(KeyOf(), sigs, sig, Flatten(front), last, suite.order);
      SumOfGroup(PointOf(), sigs, sig, Flatten(front), last, suite.order);
    }
  }

  lemma SumOfGroup(
    f: Signature -> nat, sigs: seq<Signature>, sig: Signature, all: seq<Signature>, last: seq<Signature>, m: pos)
    requires SumBy(f, sigs) % m == SumBy(f, all) % m && f(sig) == SumBy(f, last) % m
    ensures SumBy(f, sigs + [sig]) % m == SumBy(f, all + last) % m
  {
    SumBySnoc(f, sigs, sig);
    SumByConcat(f, all, last);
    ModSum(SumBy(f, sigs), SumBy(f, all), f(sig), SumBy(f, last), m);
  }

  /** Aggregating the aggregates of any groups is aggregating all the signatures at once: the one succeeds
      exactly when the other does, with the same result. */
  lemma AggregateAnyGrouping(suite: Suite, groups: seq<seq<Signature>>)
    requires |groups| > 0 && Grouped(suite, groups)
    ensures |Flatten(groups)| > 0
    ensures CanAggregate(suite, Aggregates(suite, groups)) <==> CanAggregate(suite, Flatten(groups))
    ensures CanAggregate(suite, Flatten(groups)) ==>
              Aggregated(suite, Aggregates(suite, groups)) == Aggregated(suite, Flatten(groups))
  {
    FlattenStarts(groups);
    if forall g :: 0 <= g < |groups| ==> |groups[g][0].signers| == |groups[0][0].signers| {
      EqualLengths(suite, groups);
    } else {
      DifferentLengths(suite, groups);
    }
  }

  lemma EqualLengths(suite: Suite, groups: seq<seq<Signature>>)
    requires |groups| > 0 && Grouped(suite, groups)
    requires |Flatten(groups)| > 0 && Flatten(groups)[0] == groups[0][0]
    requires forall g :: 0 <= g < |groups| ==> |groups[g][0].signers| == |groups[0][0].signers|
    ensures CanAggregate(suite, Aggregates(suite, groups)) <==> CanAggregate(suite, Flatten(groups))
    ensures CanAggregate(suite, Flatten(groups)) ==>
              Aggregated(suite, Aggregates(suite, groups)) == Aggregated(suite, Flatten(groups))
  {
    var sigs, all, n := Aggregates(suite, groups), Flatten(groups), |groups[0][0].signers|;
    GroupSums(suite, groups, n);
    FlattenMembers(groups);
    forall j | 0 <= j < |all|
      ensures Aggregatable(suite, all[j], n)
    {
      assert all[j] in all;
    }
    forall j | 0 <= j < |sigs|
      ensures Aggregatable(suite, sigs[j], n)
    {
      assert sigs[j] == Aggregated(suite, groups[j]);
    }
  }

  lemma DifferentLengths(suite: Suite, groups: seq<seq<Signature>>)
    requires |groups| > 0 && Grouped(suite, groups)
    requires |Flatten(groups)| > 0 && Flatten(groups)[0] == groups[0][0]
    requires exists g :: 0 <= g < |groups| && |groups[g][0].signers| != |groups[0][0].signers|
    ensures !CanAggregate(suite, Aggregates(suite, groups)) && !CanAggregate(suite, Flatten(groups))
  {
    var sigs, all, n := Aggregates(suite, groups), Flatten(groups), |groups[0][0].signers|;
    var g :| 0 <= g < |groups| && |groups[g][0].signers| != n;
    FlattenMembers(groups);
    assert sigs[0] == Aggregated(suite, groups[0]) && sigs[g] == Aggregated(suite, groups[g]);
    assert !Aggregatable(suite, sigs[g], n);
    assert groups[g][0] in all;
    var j :| 0 <= j < |all| && all[j] == groups[g][0];
    assert !Aggregatable(suite, all[j], n);
  }

  lemma {:induction false} FlattenStarts(groups: seq<seq<Signature>>)
    requires |groups| > 0 && |groups[0]| > 0
    ensures |Flatten(groups)| > 0 && Flatten(groups)[0] == groups[0][0]
  {
    if |groups| > 1 {
      FlattenStarts(groups[..|groups| - 1]);
    } else {
      assert Flatten(groups[..0]) == [];
    }
  }

  lemma PairSums(x: Signature, y: Signature, n: nat)
    requires |x.signers| == |y.signers| == n
    ensures Columns([x, y], n) == Plus(x.signers, y.signers)
    ensures SumBy(KeyOf(), [x, y]) == x.key + y.key
    ensures SumBy(PointOf(), [x, y]) == x.point + y.point
  {
    PairSum(KeyOf(), x, y);
    PairSum(PointOf(), x, y);
    forall i | 0 <= i < n
      ensures Columns([x, y], n)[i] == Plus(x.signers, y.signers)[i]
    {
      PairSum(CountAt(i), x, y);
    }
  }

  lemma PairSum(f: Signature -> nat, x: Signature, y: Signature)
    ensures SumBy(f, [x, y]) == f(x) + f(y)
  {
    var none: seq<Signature> := [];
    assert [x, y] == (none + [x]) + [y];
    SumBySnoc(f, none, x);
    SumBySnoc(f, none + [x], y);
  }
}

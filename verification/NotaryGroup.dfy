/** The notary group (gossip/types/notarygroup.go): signers are indexed by the position of their id in
    the sorted list of ids, and that index is the position in every multiplicity vector. */
module NotaryGroup {
  import opened Prelude

  datatype Signer = Signer(id: string, verKey: nat)

  /** `ceil(2n/3)`, which the source computes in floating point. */
  function QuorumCount(n: nat): (q: nat)
    ensures 2 * n <= 3 * q < 2 * n + 3
  {
    (2 * n + 2) / 3
  }

  function GetMajorityCount(n: nat): (q: nat)
    ensures q >= 1 && q >= QuorumCount(n) && (n > 0 ==> q == QuorumCount(n))
  {
    if QuorumCount(n) == 0 then 1 else QuorumCount(n)
  }

  // ----- The order of strings

  predicate StringLe(a: string, b: string) {
    |a| == 0 || (|b| > 0 && (a[0] < b[0] || (a[0] == b[0] && StringLe(a[1..], b[1..]))))
  }

  lemma {:induction false} StringLeTotal(a: string, b: string)
    ensures StringLe(a, b) || StringLe(b, a)
  {
    if |a| > 0 && |b| > 0 {
      StringLeTotal(a[1..], b[1..]);
    }
  }

  lemma {:induction false} StringLeAntisymmetric(a: string, b: string)
    requires StringLe(a, b) && StringLe(b, a)
    ensures a == b
  {
    if |a| > 0 {
      StringLeAntisymmetric(a[1..], b[1..]);
      assert a == [a[0]] + a[1..] && b == [b[0]] + b[1..];
    }
  }

  lemma {:induction false} StringLeTransitive(a: string, b: string, c: string)
    requires StringLe(a, b) && StringLe(b, c)
    ensures StringLe(a, c)
  {
    if |a| > 0 && a[0] == b[0] == c[0] {
      StringLeTransitive(a[1..], b[1..], c[1..]);
    }
  }

  // ----- Sorted lists of ids

  predicate Sorted(ids: seq<string>) {
    forall i, j :: 0 <= i < j < |ids| ==> StringLe(ids[i], ids[j])
  }

  ghost predicate Distinct(ids: seq<string>) {
    forall id :: multiset(ids)[id] <= 1
  }

  lemma DistinctAt(ids: seq<string>, i: nat, j: nat)
    requires i < j < |ids| && ids[i] == ids[j]
    ensures !Distinct(ids)
  {
    assert ids == ids[..j] + ids[j..];
    assert ids[i] in ids[..j] && ids[j] in ids[j..];
    assert multiset(ids)[ids[i]] >= 2;
  }

  lemma DistinctPrefix(xs: seq<string>, ys: seq<string>)
    requires Distinct(xs + ys)
    ensures Distinct(xs)
  {
    forall id
      ensures multiset(xs)[id] <= 1
    {
      assert multiset(xs + ys)[id] == multiset(xs)[id] + multiset(ys)[id];
    }
  }

  lemma {:induction false} HeadIsLeast(xs: seq<string>, x: string)
    requires Sorted(xs) && x in xs
    ensures StringLe(xs[0], x)
  {
    StringLeTotal(x, x);
    var i :| 0 <= i < |xs| && xs[i] == x;
    assert i == 0 || StringLe(xs[0], xs[i]);
  }

  lemma {:induction false} SameHead(xs: seq<string>, ys: seq<string>)
    requires Sorted(xs) && Sorted(ys) && multiset(xs) == multiset(ys) && |xs| > 0
    ensures |ys| > 0 && xs[0] == ys[0]
    ensures multiset(Without(xs, 0)) == multiset(Without(ys, 0))
  {
    assert xs[0] in multiset(ys) && ys[0] in multiset(xs);
    HeadIsLeast(xs, ys[0]);
    HeadIsLeast(ys, xs[0]);
    StringLeAntisymmetric(xs[0], ys[0]);
    WithoutMultiset(xs, 0);
    WithoutMultiset(ys, 0);
  }

  lemma {:induction false} SortedUnique(xs: seq<string>, ys: seq<string>)
    requires Sorted(xs) && Sorted(ys) && multiset(xs) == multiset(ys)
    ensures xs == ys
  {
    if |xs| == 0 {
      assert |multiset(ys)| == 0;
    } else {
      SameHead(xs, ys);
      SortedWithoutHead(xs);
      SortedWithoutHead(ys);
      SortedUnique(xs[1..], ys[1..]);
      assert xs == [xs[0]] + xs[1..] && ys == [ys[0]] + ys[1..];
    }
  }

  lemma {:induction false} SortedWithoutHead(xs: seq<string>)
    requires Sorted(xs) && |xs| > 0
    ensures Sorted(Without(xs, 0)) && Without(xs, 0) == xs[1..]
  {
    assert Without(xs, 0) == xs[1..];
  }

  lemma {:induction false} InsertSorted(ids: seq<string>, k: nat, id: string)
    requires Sorted(ids) && k <= |ids|
    requires k > 0 ==> StringLe(ids[k - 1], id)
    requires forall j :: k <= j < |ids| ==> StringLe(id, ids[j])
    ensures Sorted(ids[..k] + [id] + ids[k..])
  {
    forall i | 0 <= i < k
      ensures StringLe(ids[i], id)
    {
      if i < k - 1 {
        StringLeTransitive(ids[i], ids[k - 1], id);
      }
    }
  }

  lemma {:induction false} InsertMultiset(ids: seq<string>, k: nat, id: string)
    requires k <= |ids|
    ensures multiset(ids[..k] + [id] + ids[k..]) == multiset(ids) + multiset{id}
  {
    assert ids == ids[..k] + ids[k..];
  }

  /** Moves the last id left until the list is sorted again. */
  method SortAppended(ids: seq<string>, id: string) returns (r: seq<string>)
    requires Sorted(ids)
    ensures Sorted(r) && multiset(r) == multiset(ids) + multiset{id}
  {
    var k := |ids|;
    while k > 0 && !StringLe(ids[k - 1], id)
      invariant 0 <= k <= |ids|
      invariant forall j :: k <= j < |ids| ==> StringLe(id, ids[j])
    {
      StringLeTotal(ids[k - 1], id);
      k := k - 1;
    }
    InsertSorted(ids, k, id);
    InsertMultiset(ids, k, id);
    r := ids[..k] + [id] + ids[k..];
  }

  // ----- The group

  /** `IndexOfSigner` as a function of the sorted list: the first position of the id. */
  function FirstIndex(ids: seq<string>, id: string): (i: nat)
    requires id in ids
    ensures i < |ids| && ids[i] == id && id !in ids[..i]
  {
    if ids[0] == id then 0 else 1 + FirstIndex(ids[1..], id)
  }

  /** The ids in the order in which the signers were added. */
  function Ids(added: seq<Signer>): seq<string> {
    seq(|added|, (i: nat) requires i < |added| => added[i].id)
  }

  /** A later signer replaces an earlier one of the same id. */
  function SignerMap(added: seq<Signer>): (m: map<string, Signer>)
    ensures forall i :: 0 <= i < |added| ==> added[i].id in m
    ensures forall id :: id in m ==> m[id].id == id && m[id] in added
  {
    if |added| == 0 then map[]
    else
      var last := added[|added| - 1];
      SignerMap(added[..|added| - 1])[last.id := last]
  }

  /** Under an id the map holds the signer that was added last with it. */
  lemma {:induction false} LatestSignerWins(added: seq<Signer>, i: nat)
    requires i < |added| && forall j :: i < j < |added| ==> added[j].id != added[i].id
    ensures SignerMap(added)[added[i].id] == added[i]
  {
    if i < |added| - 1 {
      LatestSignerWins(added[..|added| - 1], i);
    }
  }

  class Group {
    var signers: map<string, Signer>
    var sortedIds: seq<string>
    ghost var added: seq<Signer>

    /** The fields are the ones that adding `added`, one by one, must leave behind. */
    ghost predicate Valid()
      reads this
    {
      && signers == SignerMap(added)
      && Sorted(sortedIds)
      && multiset(sortedIds) == multiset(Ids(added))
      && forall id :: id in sortedIds ==> id in signers
    }

    constructor ()
      ensures Valid() && added == []
    {
      signers, sortedIds, added := map[], [], [];
    }

    method AddSigner(signer: Signer)
      requires Valid()
      modifies this
      ensures Valid() && added == old(added) + [signer]
    {
      signers := signers[signer.id := signer];
      sortedIds := SortAppended(sortedIds, signer.id);
      added := added + [signer];
      assert added[..|added| - 1] == old(added);
      assert Ids(added) == Ids(old(added)) + [signer.id];
      forall id | id in sortedIds
        ensures id in signers
      {
        assert id in multiset(sortedIds);
      }
    }

    method AllSigners() returns (all: seq<Signer>)
      requires Valid()
      ensures |all| == |sortedIds| == |added|
      ensures forall i :: 0 <= i < |all| ==> all[i].id == sortedIds[i] && all[i] == signers[sortedIds[i]]
    {
      all := [];
      for i := 0 to |sortedIds|
        invariant |all| == i
        invariant forall k :: 0 <= k < i ==> all[k].id == sortedIds[k] && all[k] == signers[sortedIds[k]]
      {
        all := all + [signers[sortedIds[i]]];
      }
      assert |sortedIds| == |multiset(Ids(added))|;
    }

    function SignerAtIndex(idx: nat): (s: Signer)
      requires Valid() && idx < |sortedIds|
      reads this
      ensures s.id == sortedIds[idx] && s in added
    {
      signers[sortedIds[idx]]
    }

    /** The first position of the signer's id; the source panics for a signer that was never added. */
    method IndexOfSigner(signer: Signer) returns (index: nat)
      requires Valid() && signer.id in signers
      ensures index < |sortedIds| && sortedIds[index] == signer.id
      ensures forall k :: 0 <= k < index ==> sortedIds[k] != signer.id
      ensures index == FirstIndex(sortedIds, signer.id)
    {
      ghost var k :| 0 <= k < |added| && added[k].id == signer.id;
      assert signer.id in multiset(Ids(added)) by { assert Ids(added)[k] == signer.id; }
      assert signer.id in multiset(sortedIds);
      index := 0;
      while sortedIds[index] != signer.id
        invariant index < |sortedIds|
        invariant forall k :: 0 <= k < index ==> sortedIds[k] != signer.id
        decreases |sortedIds| - index
      {
        index := index + 1;
      }
    }
  }

  /** Looking an index up and searching its signer gives the index back, at every index, exactly when
      no id was added twice. */
  lemma IndexInverseIffDistinct(ids: seq<string>)
    ensures (forall i :: 0 <= i < |ids| ==> FirstIndex(ids, ids[i]) == i) <==> Distinct(ids)
  {
    if Distinct(ids) {
      forall i | 0 <= i < |ids|
        ensures FirstIndex(ids, ids[i]) == i
      {
        if FirstIndex(ids, ids[i]) < i {
          DistinctAt(ids, FirstIndex(ids, ids[i]), i);
        }
      }
    } else {
      var id :| multiset(ids)[id] > 1;
      var i, j := Repeated(ids, id);
      assert FirstIndex(ids, ids[j]) != j || FirstIndex(ids, ids[i]) != i;
    }
  }

  lemma {:induction false} Repeated(ids: seq<string>, id: string) returns (i: nat, j: nat)
    requires multiset(ids)[id] > 1
    ensures i < j < |ids| && ids[i] == ids[j] == id
  {
    var n := |ids| - 1;
    assert ids == ids[..n] + [ids[n]];
    if ids[n] == id {
      assert id in multiset(ids[..n]);
      i :| 0 <= i < n && ids[i] == id;
      j := n;
    } else {
      i, j := Repeated(ids[..n], id);
    }
  }

  lemma {:induction false} SignerMapOf(added: seq<Signer>, k: nat)
    requires k < |added| && Distinct(Ids(added))
    ensures SignerMap(added)[added[k].id] == added[k]
  {
    var n := |added| - 1;
    assert Ids(added) == Ids(added[..n]) + [added[n].id];
    if k < n {
      if added[k].id == added[n].id {
        DistinctAt(Ids(added), k, n);
      }
      DistinctPrefix(Ids(added[..n]), [added[n].id]);
      SignerMapOf(added[..n], k);
    }
  }

  /** Two groups built from the same signers with distinct ids, added in any order, index them alike:
      equal sorted ids, equal key vectors and equal quorum counts. */
  lemma IndexingIgnoresInsertionOrder(g: Group, h: Group)
    requires g.Valid() && h.Valid()
    requires forall s :: s in g.added <==> s in h.added
    requires Distinct(Ids(g.added)) && Distinct(Ids(h.added))
    ensures g.sortedIds == h.sortedIds && g.signers == h.signers
    ensures forall i :: 0 <= i < |g.sortedIds| ==> g.SignerAtIndex(i).verKey == h.SignerAtIndex(i).verKey
    ensures QuorumCount(|g.sortedIds|) == QuorumCount(|h.sortedIds|)
  {
    SameIds(g.added, h.added);
    SortedUnique(g.sortedIds, h.sortedIds);
    MapWithin(g.added, h.added);
    MapWithin(h.added, g.added);
    assert g.signers == h.signers;
  }

  lemma SameIds(xs: seq<Signer>, ys: seq<Signer>)
    requires forall s :: s in xs <==> s in ys
    requires Distinct(Ids(xs)) && Distinct(Ids(ys))
    ensures multiset(Ids(xs)) == multiset(Ids(ys))
  {
    forall id
      ensures id in Ids(xs) <==> id in Ids(ys)
    {
      if id in Ids(xs) {
        var i :| 0 <= i < |xs| && Ids(xs)[i] == id;
        assert xs[i] in ys;
        var j :| 0 <= j < |ys| && ys[j] == xs[i];
        assert Ids(ys)[j] == id;
      }
      if id in Ids(ys) {
        var i :| 0 <= i < |ys| && Ids(ys)[i] == id;
        assert ys[i] in xs;
        var j :| 0 <= j < |xs| && xs[j] == ys[i];
        assert Ids(xs)[j] == id;
      }
    }
    forall id
      ensures multiset(Ids(xs))[id] == multiset(Ids(ys))[id]
    {
      assert id in Ids(xs) <==> id in multiset(Ids(xs));
      assert id in Ids(ys) <==> id in multiset(Ids(ys));
    }
  }

  lemma MapWithin(xs: seq<Signer>, ys: seq<Signer>)
    requires forall s :: s in xs ==> s in ys
    requires Distinct(Ids(ys))
    ensures forall id :: id in SignerMap(xs) ==> id in SignerMap(ys) && SignerMap(ys)[id] == SignerMap(xs)[id]
  {
    forall id | id in SignerMap(xs)
      ensures id in SignerMap(ys) && SignerMap(ys)[id] == SignerMap(xs)[id]
    {
      var s := SignerMap(xs)[id];
      var k :| 0 <= k < |ys| && ys[k] == s;
      SignerMapOf(ys, k);
    }
  }
}

/** A chain with so many sends that a payload for one of them cannot be read back, because the receiver turns
    indices into runes (consensus/transactions.go). */
module LongChains {
  import opened Prelude
  import opened Dag
  import opened TokenNames
  import opened TreeLedger
  import opened TokenNetwork
  import B = Books
  import C = SenderChains
  import P = TokenPayload
  import T = LedgerTrees
  import X = Transactions

  function Mark(i: nat): string {
    seq(i, _ => 'x')
  }

  /** Receives a large amount and sends it on one by one, under different ids. */
  function ManySends(a: TokenName, n: nat): seq<X.Transaction> {
    if n == 0 then [X.ReceiveToken(a, "r", MAX_UINT32)]
    else ManySends(a, n - 1) + [X.SendToken(Mark(n - 1), a.ToString(), 1, "d")]
  }

  function MarkedSends(n: nat): seq<B.Send> {
    seq(n, (i: nat) => B.Send(Mark(i), 1, "d"))
  }

  function MarkedBook(n: nat): B.Book
    requires n <= MAX_UINT32
  {
    B.Book(None, [], MarkedSends(n), [B.Receive("r", MAX_UINT32)], MAX_UINT32 - n)
  }

  lemma MarkedBookStarts()
    ensures Credited(None, B.ReceiveOp("r", MAX_UINT32)) == Some(MarkedBook(0))
  {
    assert B.EMPTY_BOOK.receives + [B.Receive("r", MAX_UINT32)] == [B.Receive("r", MAX_UINT32)];
    assert MarkedSends(0) == [];
  }

  lemma MarkedBookGrows(n: nat)
    requires 0 < n <= MAX_UINT32
    ensures Credited(Some(MarkedBook(n - 1)), B.SendOp(Mark(n - 1), "d", 1)) == Some(MarkedBook(n))
  {
    assert MarkedSends(n - 1) + [B.Send(Mark(n - 1), 1, "d")] == MarkedSends(n);
  }

  ghost predicate HasMarkedBook(did: string, txs: seq<X.Transaction>, a: TokenName, n: nat) {
    n <= MAX_UINT32 && B.Run(X.OpsOf(did, txs, a.ToString())) == Some(MarkedBook(n))
  }

  lemma MarkedBookFirst(did: string, a: TokenName)
    ensures HasMarkedBook(did, [X.ReceiveToken(a, "r", MAX_UINT32)], a, 0)
  {
    var none: seq<X.Transaction> := [];
    assert none + [X.ReceiveToken(a, "r", MAX_UINT32)] == [X.ReceiveToken(a, "r", MAX_UINT32)];
    ReceiveCredits(did, none, a, "r", MAX_UINT32, a.ToString());
    MarkedBookStarts();
  }

  lemma MarkedBookNext(did: string, txs: seq<X.Transaction>, a: TokenName, n: nat)
    requires ':' !in a.local && X.HasPrefix(a.did, X.DID_PREFIX) && 0 < n <= MAX_UINT32
    requires HasMarkedBook(did, txs, a, n - 1)
    ensures HasMarkedBook(did, txs + [X.SendToken(Mark(n - 1), a.ToString(), 1, "d")], a, n)
  {
    SendCredits(did, txs, a, Mark(n - 1), 1, "d");
    MarkedBookGrows(n);
  }

  lemma {:induction false} ManySendsBook(did: string, a: TokenName, n: nat)
    requires ':' !in a.local && X.HasPrefix(a.did, X.DID_PREFIX) && n <= MAX_UINT32
    ensures HasMarkedBook(did, ManySends(a, n), a, n)
  {
    if n == 0 {
      MarkedBookFirst(did, a);
    } else {
      ManySendsBook(did, a, n - 1);
      MarkedBookNext(did, ManySends(a, n - 1), a, n);
    }
  }

  lemma SendCredits(did: string, txs: seq<X.Transaction>, a: TokenName, id: string, amount: uint64, destination: string)
    requires ':' !in a.local && X.HasPrefix(a.did, X.DID_PREFIX)
    ensures B.Run(X.OpsOf(did, txs + [X.SendToken(id, a.ToString(), amount, destination)], a.ToString())) ==
            Credited(B.Run(X.OpsOf(did, txs, a.ToString())), B.SendOp(id, destination, amount))
  {
    C.FullSend(did, X.Run(did, txs), a, id, amount, destination);
    BookAfter(did, txs, X.SendToken(id, a.ToString(), amount, destination), a.ToString());
  }

  lemma MarkedCids(cids: seq<Cid>, n: nat)
    requires (forall c :: c in cids ==> c.node.SendRecord?) && T.SendsOf(cids) == MarkedSends(n)
    ensures |cids| == n && P.DistinctCids(cids)
  {
    forall i, j | 0 <= i < j < |cids|
      ensures cids[i] != cids[j]
    {
      assert T.SendsOf(cids)[i].id == Mark(i) && T.SendsOf(cids)[j].id == Mark(j);
      assert |Mark(i)| == i && |Mark(j)| == j;
    }
  }

  /** On a chain with more than 0xD801 such sends, a payload is built for the one at 0xD800, and no order of the
      maps lets the receiver read it. */
  lemma LongChainsLoseASend(
    did: string, blocks: Node, height: uint64, a: TokenName, n: nat, lost: nat, key: string, s: B.Send)
    requires a.IsCanonical() && ':' !in a.local && X.HasPrefix(a.did, X.DID_PREFIX)
    requires lost == 0xD800 && 0xD801 < n <= MAX_UINT32
    ensures var payload := P.Built(TipOf(did, ManySends(a, n), blocks, height), a, Mark(lost));
            payload.Some? && !ReadsAs(payload.value, key, s) && P.MayNotDecode(payload.value)
  {
    var txs, token := ManySends(a, n), a.ToString();
    ManySendsBook(did, a, n);
    X.TokenSeesOnlyItsOwnOperations(did, txs, token);
    var tree := X.Run(did, txs);
    var cids := T.ListOf(Get(tree, TokenPath(token)), T.SENDS);
    MarkedCids(cids, n);
    var sends := MarkedSends(n);
    forall j | 0 <= j < lost
      ensures sends[j].id != Mark(lost)
    {
      assert |Mark(j)| == j && |Mark(lost)| == lost;
    }
    FirstWithIs(sends, Mark(lost), lost);
    FirstSendOfBook(cids, Mark(lost), lost);
    C.BuiltFromChain(did, blocks, height, txs, a, Mark(lost));
    C.ChainsSend(did, blocks, height, txs, token);
    var root, tokens := TipOf(did, txs, blocks, height), C.TokenEntries(tree);
    BuiltUnderTip(root, token, Mark(lost), Mark(lost), cids[lost].node);
    P.LostSendIsNotRead(root, tokens, token, key, s);
    assert P.DagOf(P.PayloadOf(root, token, Mark(lost), cids[lost].node), P.BuiltDag(root, token, cids[lost].node));
  }
}

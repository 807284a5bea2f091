/** Any number of chains that play transactions and receive tokens from each other: the receive transaction of
    consensus/transactions.go as a whole, and the supply of every token over all chains' trees. */
module TokenNetwork {
  import opened Prelude
  import opened Dag
  import opened TokenNames
  import opened TreeLedger
  import B = Books
  import C = SenderChains
  import P = TokenPayload
  import S = Supply
  import T = LedgerTrees
  import X = Transactions

  // ----- The receive transaction

  function DagUnderTip(payload: P.Payload): P.SenderDag {
    P.SenderDag(payload.tip, set b | b in payload.leaves)
  }

  /** The leaves hold the tip, and read under it as this token and send. */
  ghost predicate ReadsAs(payload: P.Payload, key: string, s: B.Send) {
    payload.tip.node in payload.leaves && P.Reads(DagUnderTip(payload), key, s)
  }

  /** The leaves do not hold the tip, or reading them under it may fail. */
  ghost predicate MayBeRefused(payload: P.Payload) {
    payload.tip.node in payload.leaves ==> P.Fails(DagUnderTip(payload))
  }

  function ReceiveOf(payload: P.Payload, key: string, s: B.Send): X.Transaction {
    X.ReceiveToken(FromString(key), payload.transactionId, s.amount)
  }

  /** Decodes the payload, compares the tip, and receives what it reads under the id that the payload claims. */
  method ReceiveTokenTransaction(did: string, tree: Node, payload: P.Payload)
    returns (r: Result<Node>, ghost key: string, ghost send: Option<B.Send>)
    ensures if send.Some?
            then ReadsAs(payload, key, send.value) && r == X.Apply(did, tree, ReceiveOf(payload, key, send.value))
            else r.Err? && MayBeRefused(payload)
  {
    key, send := "", None;
    var dag := P.GetSenderDagFromReceive(payload);
    if dag.Err? {
      return Err(dag.error), key, send;
    }
    if dag.value.tip != payload.tip {
      return Err("invalid tip and/or leaves"), key, send;
    }
    assert dag.value == DagUnderTip(payload);
    var token;
    token, key := P.GetTokenNameFromReceive(dag.value);
    if token.Err? {
      return Err(token.error), key, send;
    }
    var tokenSend := P.GetSendTokenFromReceive(dag.value, token.value);
    if tokenSend.Err? {
      return Err(tokenSend.error), key, send;
    }
    send := Some(tokenSend.value);
    var ledger := new TreeLedger(tree, token.value);
    r := ledger.ReceiveToken(payload.transactionId, tokenSend.value.amount);
    X.ReceiveApplies(did, tree, token.value, payload.transactionId, tokenSend.value.amount);
  }

  // ----- Runs of many chains

  /** `Play` plays a transaction of a chain's own. `Take` receives: the payload is built from the tip that chain
      `from` had after its first `seen` transactions, for the send `id` of token `name`, and claims `claimedId`;
      `key` and `send` are what the receiver reads in it. */
  datatype Event =
    | Play(chain: nat, tx: X.Transaction)
    | Take(chain: nat, from: nat, seen: nat, blocks: Node, height: uint64, name: TokenName, id: string,
           claimedId: string, key: string, send: B.Send)

  /** The transactions that each chain has played. */
  type Net = seq<seq<X.Transaction>>

  ghost function TipOf(did: string, txs: seq<X.Transaction>, blocks: Node, height: uint64): Node {
    C.Root(did, blocks, height, X.Run(did, txs))
  }

  /** The payload built at a tip for a send, with the id it claims. */
  ghost function Claiming(root: Node, name: TokenName, id: string, claimedId: string): Option<P.Payload> {
    match P.Built(root, name, id)
    case None => None
    case Some(payload) => Some(payload.(transactionId := claimedId))
  }

  ghost function PayloadIn(dids: seq<string>, net: Net, ev: Event): Option<P.Payload>
    requires ev.Take? && |net| == |dids|
  {
    if ev.from >= |dids| || ev.seen > |net[ev.from]| then None
    else
      var root := TipOf(dids[ev.from], net[ev.from][..ev.seen], ev.blocks, ev.height);
      Claiming(root, ev.name, ev.id, ev.claimedId)
  }

  /** The payload passes the recipient check, and reads as the event says. */
  ghost predicate Admitted(dids: seq<string>, net: Net, ev: Event)
    requires |net| == |dids|
  {
    && ev.Take? && ev.chain < |dids| && PayloadIn(dids, net, ev).Some?
    && P.MaySendTo(PayloadIn(dids, net, ev).value, dids[ev.chain])
    && ReadsAs(PayloadIn(dids, net, ev).value, ev.key, ev.send)
  }

  /** The transaction that an event puts to its chain. A receive needs a payload that is admitted. */
  ghost function Played(dids: seq<string>, net: Net, ev: Event): (tx: Option<X.Transaction>)
    requires |net| == |dids|
    ensures tx.Some? ==> ev.chain < |dids|
  {
    match ev
    case Play(c, tx) => if c < |dids| && !tx.ReceiveToken? then Some(tx) else None
    case Take(_, _, _, _, _, _, _, _, key, send) =>
      if Admitted(dids, net, ev) then Some(ReceiveOf(PayloadIn(dids, net, ev).value, key, send)) else None
  }

  ghost function Step(dids: seq<string>, net: Net, ev: Event): Net
    requires |net| == |dids|
  {
    var tx := Played(dids, net, ev);
    if tx.None? then net else net[ev.chain := net[ev.chain] + [tx.value]]
  }

  ghost function Run(dids: seq<string>, evs: seq<Event>): (net: Net)
    ensures |net| == |dids|
  {
    if |evs| == 0 then seq(|dids|, _ => []) else Step(dids, Run(dids, evs[..|evs| - 1]), evs[|evs| - 1])
  }

  /** A chain plays every transaction of its own but a receive, and receives what it takes as it reads it, under
      the id that is claimed; other chains are left alone. */
  lemma EventsAreTransactions(dids: seq<string>, evs: seq<Event>, ev: Event)
    ensures Run(dids, evs + [ev]) == Step(dids, Run(dids, evs), ev)
    ensures forall c :: 0 <= c < |dids| && c != ev.chain ==> Run(dids, evs + [ev])[c] == Run(dids, evs)[c]
    ensures ev.Play? && ev.chain < |dids| && !ev.tx.ReceiveToken? ==>
              Run(dids, evs + [ev])[ev.chain] == Run(dids, evs)[ev.chain] + [ev.tx]
    ensures Admitted(dids, Run(dids, evs), ev) ==>
              Run(dids, evs + [ev])[ev.chain] ==
              Run(dids, evs)[ev.chain] + [X.ReceiveToken(FromString(ev.key), ev.claimedId, ev.send.amount)]
  {
    assert (evs + [ev])[..|evs|] == evs;
  }

  // ----- One token of the network

  /** The book that a chain has of a token, by its own operations. */
  ghost function BookIn(dids: seq<string>, net: Net, c: nat, token: string): Option<B.Book>
    requires c < |net| == |dids|
  {
    B.Run(X.OpsOf(dids[c], net[c], token))
  }

  ghost function SendsIn(dids: seq<string>, net: Net, c: nat, token: string): seq<B.Send>
    requires c < |net| == |dids|
  {
    var book := BookIn(dids, net, c, token);
    if book.None? then [] else book.value.sends
  }

  /** The index of the first send with an id. */
  function FirstWith(sends: seq<B.Send>, id: string): nat {
    if |sends| == 0 || sends[0].id == id then 0 else 1 + FirstWith(sends[1..], id)
  }

  lemma {:induction false} FirstWithIs(sends: seq<B.Send>, id: string, i: nat)
    requires i < |sends| && sends[i].id == id && forall j :: 0 <= j < i ==> sends[j].id != id
    ensures FirstWith(sends, id) == i
  {
    if i > 0 {
      assert forall j :: 0 <= j < i - 1 ==> sends[1..][j] == sends[j + 1];
      FirstWithIs(sends[1..], id, i - 1);
    }
  }

  /** What an event is to one token: an operation on a chain's book, a receive of the first send with the id in
      the book of the token that was read, or nothing. */
  ghost function Seen(dids: seq<string>, net: Net, ev: Event, token: string): Option<S.Event>
    requires |net| == |dids|
  {
    if Played(dids, net, ev).None? then None
    else
      match ev
      case Play(c, tx) =>
        var op := X.TokenOp(dids[c], X.Run(dids[c], net[c]), tx);
        if op.Some? && op.value.0 == token then Some(S.Ledger(c, op.value.1)) else None
      case Take(c, from, _, _, _, _, id, claimedId, key, _) =>
        if key == token then Some(S.Receiving(c, from, FirstWith(SendsIn(dids, net, from, token), id), claimedId)) else None
  }

  ghost function EventsOf(dids: seq<string>, evs: seq<Event>, token: string): seq<S.Event> {
    if |evs| == 0 then []
    else
      var front := evs[..|evs| - 1];
      var seen := Seen(dids, Run(dids, front), evs[|evs| - 1], token);
      if seen.None? then EventsOf(dids, front, token) else EventsOf(dids, front, token) + [seen.value]
  }

  // ----- What a receive carries

  /** The payload holds the first send with the id of a token that the chain has. */
  lemma PayloadAtTip(
    did: string, txs: seq<X.Transaction>, blocks: Node, height: uint64, name: TokenName, id: string, claimedId: string)
    requires Claiming(TipOf(did, txs, blocks, height), name, id, claimedId).Some?
    ensures var root, n := TipOf(did, txs, blocks, height), name.ToString();
            var tree := X.Run(did, txs);
            var tokens := C.TokenEntries(tree);
            && P.SenderChain(root, tokens) && n in tokens && tokens[n].cid.node == Get(tree, TokenPath(n))
            && P.FirstSend(P.ListedSends(tokens, n), id).Some?
            && var first := P.FirstSend(P.ListedSends(tokens, n), id).value;
               && first in P.ListedSends(tokens, n) && P.IsSend(first, id)
               && Claiming(root, name, id, claimedId) == Some(P.PayloadOf(root, n, claimedId, first.node))
  {
    C.BuiltFromChain(did, blocks, height, txs, name, id);
    C.ChainsSend(did, blocks, height, txs, name.ToString());
  }

  /** It reads as that send only, under tokens with the same block. */
  lemma ReadAtTip(
    did: string, txs: seq<X.Transaction>, blocks: Node, height: uint64, name: TokenName, id: string, claimedId: string,
    key: string, send: B.Send)
    requires var payload := Claiming(TipOf(did, txs, blocks, height), name, id, claimedId);
             payload.Some? && ReadsAs(payload.value, key, send)
    ensures FromString(key).ToString() == key && send.id == id
    ensures Get(X.Run(did, txs), TokenPath(key)) != Nil
    ensures var first := P.FirstSend(T.ListOf(Get(X.Run(did, txs), TokenPath(key)), T.SENDS), id);
            first.Some? && first.value.node == SendRecord(id, send.amount, send.destination)
    ensures forall s :: P.MayDecode(Claiming(TipOf(did, txs, blocks, height), name, id, claimedId).value, s) ==> s == send
  {
    var tree, n := X.Run(did, txs), name.ToString();
    var root, tokens := TipOf(did, txs, blocks, height), C.TokenEntries(tree);
    PayloadAtTip(did, txs, blocks, height, name, id, claimedId);
    var first := P.FirstSend(P.ListedSends(tokens, n), id).value.node;
    BuiltUnderTip(root, n, id, claimedId, first);
    P.BuiltReads(root, tokens, n, first, key, send);
    ParseThenPrint(key);
    forall s | P.MayDecode(P.PayloadOf(root, n, claimedId, first), s)
      ensures s == send
    {
      P.BuiltPayloadReadsOneWay(root, tokens, n, claimedId, first, s);
    }
    C.RunIsLinked(did, txs);
    C.TokenBlockOf(tree, key);
  }

  /** So it is the first send with the id in the book of the token that is read, at the tip and ever after. */
  lemma ReadSendIsInBook(
    did: string, txs: seq<X.Transaction>, more: seq<X.Transaction>, blocks: Node, height: uint64, name: TokenName,
    id: string, claimedId: string, key: string, send: B.Send)
    requires var payload := Claiming(TipOf(did, txs, blocks, height), name, id, claimedId);
             payload.Some? && ReadsAs(payload.value, key, send)
    ensures var book := B.Run(X.OpsOf(did, txs + more, key));
            && book.Some? && FirstWith(book.value.sends, id) < |book.value.sends|
            && book.value.sends[FirstWith(book.value.sends, id)] == send
  {
    ReadAtTip(did, txs, blocks, height, name, id, claimedId, key, send);
    var i := C.PayloadsCarryBookSends(did, txs, key, id);
    BookSendStays(did, txs, more, key, id, i);
  }

  lemma BuiltUnderTip(root: Node, name: string, id: string, claimedId: string, send: Node)
    ensures P.PayloadOf(root, name, id, send).(transactionId := claimedId) == P.PayloadOf(root, name, claimedId, send)
    ensures root in P.PayloadOf(root, name, claimedId, send).leaves
    ensures DagUnderTip(P.PayloadOf(root, name, claimedId, send)) == P.BuiltDag(root, name, send)
  {
    assert P.PayloadOf(root, name, claimedId, send).leaves[0] == root;
  }

  lemma BookSendStays(did: string, txs: seq<X.Transaction>, more: seq<X.Transaction>, token: string, id: string, i: nat)
    requires var book := B.Run(X.OpsOf(did, txs, token));
             && book.Some? && i < |book.value.sends| && book.value.sends[i].id == id
             && forall j :: 0 <= j < i ==> book.value.sends[j].id != id
    ensures var book, book' := B.Run(X.OpsOf(did, txs, token)), B.Run(X.OpsOf(did, txs + more, token));
            && book'.Some? && i < |book'.value.sends| && book'.value.sends[i] == book.value.sends[i]
            && FirstWith(book'.value.sends, id) == i
  {
    X.OpsExtend(did, txs, more, token);
    var ops, ops' := X.OpsOf(did, txs, token), X.OpsOf(did, txs + more, token);
    assert ops' == ops + ops'[|ops|..];
    B.HistoryOnlyGrows(ops, ops'[|ops|..]);
    var sends, sends' := B.Run(ops).value.sends, B.Run(ops').value.sends;
    assert forall j :: 0 <= j <= i ==> sends'[j] == sends[j];
    FirstWithIs(sends', id, i);
  }

  /** An admitted receive carries the first send with its id, which is sent to the receiving chain. */
  lemma AdmittedCarries(dids: seq<string>, net: Net, ev: Event)
    requires |net| == |dids| && Admitted(dids, net, ev)
    ensures FromString(ev.key).ToString() == ev.key
    ensures var sends := SendsIn(dids, net, ev.from, ev.key);
            && FirstWith(sends, ev.id) < |sends| && sends[FirstWith(sends, ev.id)] == ev.send
            && ev.send.id == ev.id && ev.send.destination == dids[ev.chain]
  {
    var txs := net[ev.from];
    ReadAtTip(dids[ev.from], txs[..ev.seen], ev.blocks, ev.height, ev.name, ev.id, ev.claimedId, ev.key, ev.send);
    ReadSendIsInBook(dids[ev.from], txs[..ev.seen], txs[ev.seen..], ev.blocks, ev.height, ev.name, ev.id, ev.claimedId,
                     ev.key, ev.send);
    assert txs[..ev.seen] + txs[ev.seen..] == txs;
    var s :| P.MayDecode(PayloadIn(dids, net, ev).value, s) && s.destination == dids[ev.chain];
    assert s == ev.send;
  }

  // ----- The accounts of a token are the books of the chains

  ghost predicate Mirrors(dids: seq<string>, net: Net, token: string, sys: S.System)
    requires |net| == |dids|
  {
    |sys.accounts| == |dids| && forall c :: 0 <= c < |dids| ==> AccountMirrors(dids, net, token, sys, c)
  }

  ghost predicate AccountMirrors(dids: seq<string>, net: Net, token: string, sys: S.System, c: nat)
    requires c < |net| == |dids| == |sys.accounts|
  {
    sys.accounts[c].did == dids[c] && sys.accounts[c].book == BookIn(dids, net, c, token)
  }

  ghost function After(sys: S.System, ev: Option<S.Event>): (after: S.System)
    ensures |after.accounts| == |sys.accounts|
  {
    if ev.Some? && S.Step(sys, ev.value).Ok? then S.Step(sys, ev.value).value else sys
  }

  function Credited(book: Option<B.Book>, op: B.Op): Option<B.Book> {
    if B.Apply(book, op).Ok? then Some(B.Apply(book, op).value) else book
  }

  lemma AfterLedger(sys: S.System, d: nat, op: B.Op, c: nat)
    requires d < |sys.accounts| && c < |sys.accounts| && !op.ReceiveOp?
    ensures var after := After(sys, Some(S.Ledger(d, op)));
            && |after.accounts| == |sys.accounts| && after.accounts[c].did == sys.accounts[c].did
            && after.accounts[c].book == if c == d then Credited(sys.accounts[c].book, op) else sys.accounts[c].book
  {
  }

  lemma AfterReceiving(sys: S.System, d: nat, from: nat, index: nat, id: string, c: nat)
    requires d < |sys.accounts| && c < |sys.accounts|
    requires S.Carries(sys, from, index) && S.Carried(sys, from, index).destination == sys.accounts[d].did
    ensures var after := After(sys, Some(S.Receiving(d, from, index, id)));
            && |after.accounts| == |sys.accounts| && after.accounts[c].did == sys.accounts[c].did
            && after.accounts[c].book ==
               if c == d then Credited(sys.accounts[c].book, B.ReceiveOp(id, S.Carried(sys, from, index).amount))
               else sys.accounts[c].book
  {
  }

  /** The book after one more transaction: its own operation applied, or nothing. */
  lemma BookAfter(did: string, txs: seq<X.Transaction>, tx: X.Transaction, token: string)
    ensures var op := X.TokenOp(did, X.Run(did, txs), tx);
            var book := B.Run(X.OpsOf(did, txs, token));
            B.Run(X.OpsOf(did, txs + [tx], token)) ==
            if op.Some? && op.value.0 == token then Credited(book, op.value.1) else book
  {
    X.OpsSnoc(did, txs, tx, token);
    var op, ops := X.TokenOp(did, X.Run(did, txs), tx), X.OpsOf(did, txs, token);
    if op.Some? && op.value.0 == token {
      assert (ops + [op.value.1])[..|ops|] == ops;
    }
  }

  /** The account of one chain still mirrors its book after an event. */
  ghost predicate StillMirrors(dids: seq<string>, net: Net, token: string, sys: S.System, ev: Event, c: nat)
    requires c < |net| == |dids| == |sys.accounts|
  {
    AccountMirrors(dids, Step(dids, net, ev), token, After(sys, Seen(dids, net, ev, token)), c)
  }

  lemma PlayMirrors(dids: seq<string>, net: Net, token: string, sys: S.System, ev: Event, c: nat)
    requires c < |net| == |dids| == |sys.accounts| && AccountMirrors(dids, net, token, sys, c)
    requires ev.Play? && Played(dids, net, ev).Some?
    ensures StillMirrors(dids, net, token, sys, ev, c)
  {
    var seen := Seen(dids, net, ev, token);
    if c == ev.chain {
      BookAfter(dids[c], net[c], ev.tx, token);
    }
    if seen.Some? {
      AfterLedger(sys, ev.chain, seen.value.op, c);
    }
  }

  lemma ReceiveCredits(
    did: string, txs: seq<X.Transaction>, name: TokenName, id: string, amount: uint64, token: string)
    ensures var book := B.Run(X.OpsOf(did, txs, token));
            B.Run(X.OpsOf(did, txs + [X.ReceiveToken(name, id, amount)], token)) ==
            if name.ToString() == token then Credited(book, B.ReceiveOp(id, amount)) else book
  {
    BookAfter(did, txs, X.ReceiveToken(name, id, amount), token);
  }

  /** In the books, an admitted receive credits the token that was read on the receiving chain. */
  lemma TakeBooks(dids: seq<string>, net: Net, token: string, ev: Event, c: nat)
    requires |net| == |dids| && Admitted(dids, net, ev) && c < |dids|
    ensures var book := BookIn(dids, net, c, token);
            BookIn(dids, Step(dids, net, ev), c, token) ==
            if c == ev.chain && ev.key == token then Credited(book, B.ReceiveOp(ev.claimedId, ev.send.amount)) else book
  {
    AdmittedCarries(dids, net, ev);
    ReceiveCredits(dids[ev.chain], net[ev.chain], FromString(ev.key), ev.claimedId, ev.send.amount, token);
    assert Step(dids, net, ev)[ev.chain] ==
           net[ev.chain] + [X.ReceiveToken(FromString(ev.key), ev.claimedId, ev.send.amount)];
  }

  /** On the accounts, it is a receive of the send that it carries. */
  lemma TakeSeen(dids: seq<string>, net: Net, token: string, sys: S.System, ev: Event)
    requires |net| == |dids| && Mirrors(dids, net, token, sys) && Admitted(dids, net, ev) && ev.key == token
    ensures var index := FirstWith(SendsIn(dids, net, ev.from, token), ev.id);
            && Seen(dids, net, ev, token) == Some(S.Receiving(ev.chain, ev.from, index, ev.claimedId))
            && S.Carries(sys, ev.from, index) && S.Carried(sys, ev.from, index) == ev.send
            && ev.send.id == ev.id && ev.send.destination == sys.accounts[ev.chain].did
  {
    AdmittedCarries(dids, net, ev);
    assert AccountMirrors(dids, net, token, sys, ev.from) && AccountMirrors(dids, net, token, sys, ev.chain);
  }

  lemma TakeMirrors(dids: seq<string>, net: Net, token: string, sys: S.System, ev: Event, c: nat)
    requires |net| == |dids| && Mirrors(dids, net, token, sys) && Admitted(dids, net, ev) && c < |dids|
    ensures StillMirrors(dids, net, token, sys, ev, c)
  {
    assert AccountMirrors(dids, net, token, sys, c);
    TakeBooks(dids, net, token, ev, c);
    if ev.key == token {
      TakeSeen(dids, net, token, sys, ev);
      AfterReceiving(sys, ev.chain, ev.from, FirstWith(SendsIn(dids, net, ev.from, token), ev.id), ev.claimedId, c);
    }
  }

  lemma StillMirrorsAt(dids: seq<string>, net: Net, token: string, sys: S.System, ev: Event, c: nat)
    requires |net| == |dids| && Mirrors(dids, net, token, sys) && c < |dids|
    ensures StillMirrors(dids, net, token, sys, ev, c)
  {
    assert AccountMirrors(dids, net, token, sys, c);
    if Played(dids, net, ev).Some? {
      if ev.Play? {
        PlayMirrors(dids, net, token, sys, ev, c);
      } else {
        TakeMirrors(dids, net, token, sys, ev, c);
      }
    }
  }

  predicate AllClaimTheirIds(evs: seq<Event>) {
    forall i :: 0 <= i < |evs| && evs[i].Take? ==> evs[i].claimedId == evs[i].id
  }

  lemma StepMirrors(dids: seq<string>, net: Net, token: string, sys: S.System, ev: Event)
    requires |net| == |dids| && Mirrors(dids, net, token, sys)
    ensures Mirrors(dids, Step(dids, net, ev), token, After(sys, Seen(dids, net, ev, token)))
  {
    var net', sys' := Step(dids, net, ev), After(sys, Seen(dids, net, ev, token));
    forall c | 0 <= c < |dids|
      ensures AccountMirrors(dids, net', token, sys', c)
    {
      StillMirrorsAt(dids, net, token, sys, ev, c);
    }
  }

  lemma StepClaims(dids: seq<string>, net: Net, token: string, sys: S.System, ev: Event)
    requires |net| == |dids| && Mirrors(dids, net, token, sys)
    requires Seen(dids, net, ev, token).Some? && (ev.Take? ==> ev.claimedId == ev.id)
    ensures S.ClaimsItsId(sys, Seen(dids, net, ev, token).value)
  {
    if ev.Take? {
      TakeSeen(dids, net, token, sys, ev);
    }
  }

  ghost predicate RunMirrored(dids: seq<string>, evs: seq<Event>, token: string) {
    Mirrors(dids, Run(dids, evs), token, S.Run(dids, EventsOf(dids, evs, token)))
  }

  /** Every run of the network, seen at one token, is a run of that token's accounts, whose books are those of
      the chains. */
  lemma {:induction false} RunMirrors(dids: seq<string>, evs: seq<Event>, token: string)
    ensures RunMirrored(dids, evs, token)
  {
    if |evs| == 0 {
      StartMirrored(dids, evs, token);
    } else {
      RunMirrors(dids, evs[..|evs| - 1], token);
      NextMirrored(dids, evs, token);
    }
  }

  lemma StartMirrored(dids: seq<string>, evs: seq<Event>, token: string)
    requires |evs| == 0
    ensures RunMirrored(dids, evs, token)
  {
    var net, sys := Run(dids, evs), S.Run(dids, []);
    forall c | 0 <= c < |dids|
      ensures |sys.accounts| == |dids| && AccountMirrors(dids, net, token, sys, c)
    {
      assert net[c] == [];
    }
  }

  lemma NextMirrored(dids: seq<string>, evs: seq<Event>, token: string)
    requires |evs| > 0 && RunMirrored(dids, evs[..|evs| - 1], token)
    ensures RunMirrored(dids, evs, token)
  {
    var front, ev := evs[..|evs| - 1], evs[|evs| - 1];
    var seen, before := Seen(dids, Run(dids, front), ev, token), EventsOf(dids, front, token);
    StepMirrors(dids, Run(dids, front), token, S.Run(dids, before), ev);
    if seen.Some? {
      AccountsAfter(dids, before, seen.value);
    }
  }

  lemma AccountsAfter(dids: seq<string>, evs: seq<S.Event>, ev: S.Event)
    ensures S.Run(dids, evs + [ev]) == After(S.Run(dids, evs), Some(ev))
  {
    assert (evs + [ev])[..|evs|] == evs;
  }

  /** Where payloads claim the ids they were built for, so do the receives. */
  lemma {:induction false} RunClaims(dids: seq<string>, evs: seq<Event>, token: string)
    requires AllClaimTheirIds(evs)
    ensures S.AllClaimTheirIds(dids, EventsOf(dids, evs, token))
  {
    if |evs| > 0 {
      var front, ev := evs[..|evs| - 1], evs[|evs| - 1];
      RunClaims(dids, front, token);
      RunMirrors(dids, front, token);
      var seen, before := Seen(dids, Run(dids, front), ev, token), EventsOf(dids, front, token);
      if seen.Some? {
        StepClaims(dids, Run(dids, front), token, S.Run(dids, before), ev);
        ClaimsSnoc(dids, before, seen.value);
      }
    }
  }

  lemma ClaimsSnoc(dids: seq<string>, evs: seq<S.Event>, ev: S.Event)
    requires S.AllClaimTheirIds(dids, evs) && S.ClaimsItsId(S.Run(dids, evs), ev)
    ensures S.AllClaimTheirIds(dids, evs + [ev])
  {
    assert (evs + [ev])[..|evs|] == evs;
  }

  // ----- Conservation over the trees

  /** The book of a token in a chain's tree; an empty one where there is none. */
  ghost function BookInTree(tree: Node, token: string): B.Book {
    if T.TokenPlace(tree, TokenPath(token)) && T.BookAt(tree, TokenPath(token)).Some?
    then T.BookAt(tree, TokenPath(token)).value else B.EMPTY_BOOK
  }

  ghost function BooksOf(dids: seq<string>, net: Net, token: string): (books: seq<B.Book>)
    requires |net| == |dids|
  {
    seq(|dids|, (c: nat) requires c < |dids| && |net| == |dids| => BookInTree(X.Run(dids[c], net[c]), token))
  }

  function BalanceOf(): B.Book -> nat {
    (b: B.Book) => b.balance
  }

  function MintedOf(): B.Book -> nat {
    (b: B.Book) => B.Minted(b)
  }

  ghost function TotalBalance(dids: seq<string>, evs: seq<Event>, token: string): nat {
    SumBy(BalanceOf(), BooksOf(dids, Run(dids, evs), token))
  }

  ghost function TotalMinted(dids: seq<string>, evs: seq<Event>, token: string): nat {
    SumBy(MintedOf(), BooksOf(dids, Run(dids, evs), token))
  }

  /** The amount of the token's sends that no receive of the run has carried. */
  ghost function NotYetReceived(dids: seq<string>, evs: seq<Event>, token: string): nat {
    S.NotYetReceived(S.Run(dids, EventsOf(dids, evs, token)))
  }

  lemma TotalsAreAccounts(dids: seq<string>, evs: seq<Event>, token: string)
    ensures var sys := S.Run(dids, EventsOf(dids, evs, token));
            TotalBalance(dids, evs, token) == S.TotalBalance(sys) && TotalMinted(dids, evs, token) == S.TotalMinted(sys)
  {
    var net, sys := Run(dids, evs), S.Run(dids, EventsOf(dids, evs, token));
    RunMirrors(dids, evs, token);
    var books := BooksOf(dids, net, token);
    forall c | 0 <= c < |dids|
      ensures books[c] == S.BookIn(sys.accounts[c])
    {
      assert AccountMirrors(dids, net, token, sys, c);
      X.TokenSeesOnlyItsOwnOperations(dids[c], net[c], token);
    }
    SumByPointwise(BalanceOf(), books, S.BalanceOf(), sys.accounts);
    SumByPointwise(MintedOf(), books, S.MintedOf(), sys.accounts);
  }

  /** In every run of any chains whose receives carry payloads that were built for the ids they claim, the
      balances of a token in all trees are its mints less its sends not yet received, whatever other
      transactions and tokens there are, as long as its mints add up to a 64-bit word. */
  lemma NetworkConserves(dids: seq<string>, evs: seq<Event>, token: string)
    requires S.DistinctDids(dids) && AllClaimTheirIds(evs) && TotalMinted(dids, evs, token) < TWO_TO_THE_64
    ensures TotalBalance(dids, evs, token) == TotalMinted(dids, evs, token) - NotYetReceived(dids, evs, token)
    ensures TotalBalance(dids, evs, token) <= TotalMinted(dids, evs, token)
  {
    RunClaims(dids, evs, token);
    TotalsAreAccounts(dids, evs, token);
    S.SupplyConserved(dids, EventsOf(dids, evs, token));
  }

  /** With payloads that claim any ids, exactly the runs in which no send is received twice conserve the token,
      as long as no balance overflows. */
  lemma NetworkConservesIff(dids: seq<string>, evs: seq<Event>, token: string)
    requires !S.Run(dids, EventsOf(dids, evs, token)).wrapped
    ensures TotalBalance(dids, evs, token) + NotYetReceived(dids, evs, token) == TotalMinted(dids, evs, token)
            <==> S.NoSendTwice(dids, EventsOf(dids, evs, token))
    ensures TotalBalance(dids, evs, token) + NotYetReceived(dids, evs, token) >= TotalMinted(dids, evs, token)
  {
    TotalsAreAccounts(dids, evs, token);
    S.SupplyConservedIff(dids, EventsOf(dids, evs, token));
  }

  /** Every send of a list of at most 0xD801 can be taken by its destination: if it is the first with its id, a
      payload is built for it, passes the recipient check and reads as that send of that token. */
  lemma SendsCanBeTaken(
    dids: seq<string>, net: Net, c: nat, from: nat, blocks: Node, height: uint64, name: TokenName, i: nat)
    requires c < |dids| && from < |dids| == |net| && name.IsCanonical()
    requires var sends := SendsIn(dids, net, from, name.ToString());
             i < |sends| <= 0xD801 && sends[i].destination == dids[c] && FirstWith(sends, sends[i].id) == i
    ensures var send := SendsIn(dids, net, from, name.ToString())[i];
            Admitted(dids, net, Take(c, from, |net[from]|, blocks, height, name, send.id, send.id, name.ToString(), send))
  {
    var txs := net[from];
    SendCanBeRead(dids[from], txs, blocks, height, name, i);
    assert txs[..|txs|] == txs;
  }

  lemma SendCanBeRead(did: string, txs: seq<X.Transaction>, blocks: Node, height: uint64, name: TokenName, i: nat)
    requires name.IsCanonical() && B.Run(X.OpsOf(did, txs, name.ToString())).Some?
    requires var sends := B.Run(X.OpsOf(did, txs, name.ToString())).value.sends;
             i < |sends| <= 0xD801 && FirstWith(sends, sends[i].id) == i
    ensures var send := B.Run(X.OpsOf(did, txs, name.ToString())).value.sends[i];
            var payload := Claiming(TipOf(did, txs, blocks, height), name, send.id, send.id);
            payload.Some? && ReadsAs(payload.value, name.ToString(), send) && P.MayDecode(payload.value, send)
  {
    var n := name.ToString();
    var send := B.Run(X.OpsOf(did, txs, n)).value.sends[i];
    var root, tokens := TipOf(did, txs, blocks, height), C.TokenEntries(X.Run(did, txs));
    FirstSendInTree(did, txs, n, i);
    C.BuiltFromChain(did, blocks, height, txs, name, send.id);
    PayloadAtTip(did, txs, blocks, height, name, send.id, send.id);
    var first := P.FirstSend(P.ListedSends(tokens, n), send.id).value.node;
    P.SurvivesIfShort(P.ListedSends(tokens, n), first);
    BuiltUnderTip(root, n, send.id, send.id, first);
    P.BuiltReads(root, tokens, n, first, n, send);
    P.BuiltPayloadReadsOneWay(root, tokens, n, send.id, first, send);
  }

  lemma FirstSendInTree(did: string, txs: seq<X.Transaction>, token: string, i: nat)
    requires B.Run(X.OpsOf(did, txs, token)).Some?
    requires var sends := B.Run(X.OpsOf(did, txs, token)).value.sends;
             i < |sends| && FirstWith(sends, sends[i].id) == i
    ensures var cids := T.ListOf(Get(X.Run(did, txs), TokenPath(token)), T.SENDS);
            var sends := B.Run(X.OpsOf(did, txs, token)).value.sends;
            && |cids| == |sends|
            && P.FirstSend(cids, sends[i].id) == Some(CidOf(SendRecord(sends[i].id, sends[i].amount, sends[i].destination)))
  {
    X.TokenSeesOnlyItsOwnOperations(did, txs, token);
    var cids := T.ListOf(Get(X.Run(did, txs), TokenPath(token)), T.SENDS);
    var sends := B.Run(X.OpsOf(did, txs, token)).value.sends;
    assert T.SendsOf(cids) == sends;
    FirstSendOfBook(cids, sends[i].id, i);
    assert cids[i] in cids && T.SendsOf(cids)[i] == sends[i];
  }

  lemma {:induction false} FirstSendOfBook(cids: seq<Cid>, id: string, i: nat)
    requires forall c :: c in cids ==> c.node.SendRecord?
    requires i < |cids| && T.SendsOf(cids)[i].id == id && FirstWith(T.SendsOf(cids), id) == i
    ensures P.FirstSend(cids, id) == Some(cids[i])
  {
    assert cids[0] in cids && T.SendsOf(cids)[0].id == cids[0].node.id;
    if i > 0 {
      assert T.SendsOf(cids)[1..] == T.SendsOf(cids[1..]);
      FirstSendOfBook(cids[1..], id, i - 1);
    }
  }
}

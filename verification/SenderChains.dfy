/** Every chain that grew by transactions has its tokens as linked blocks, so its sends make payloads that
    read back. */
module SenderChains {
  import opened Prelude
  import opened Dag
  import opened TokenNames
  import opened TreeLedger
  import opened Transactions
  import B = Books
  import T = LedgerTrees
  import P = TokenPayload

  function TokenEntries(tree: Node): map<string, Node> {
    Entries(Get(tree, TOKENS_PATH))
  }

  predicate LinkedBlock(item: Node) {
    item.Link? && item.cid.node.Dir?
  }

  /** Every token is a linked block under a printed name. */
  predicate AllLinked(entries: map<string, Node>) {
    forall k :: k in entries ==> LinkedBlock(entries[k]) && ':' in k
  }

  predicate Linked(tree: Node) {
    AllLinked(TokenEntries(tree))
  }

  lemma TokenBlockOf(tree: Node, name: string)
    ensures Get(tree, TokenPath(name)) == Deref(Child(Get(tree, TOKENS_PATH), name))
    ensures Linked(tree) && name in TokenEntries(tree) ==>
              Get(tree, TokenPath(name)) == TokenEntries(tree)[name].cid.node
  {
    GetStep(tree, TOKENS_PATH, name);
  }

  lemma LinkingKeepsLinked(tree: Node, name: string, block: Node)
    requires Linked(tree) && block.Dir? && ':' in name && SetAsLink(tree, TokenPath(name), block).Some?
    ensures Linked(SetAsLink(tree, TokenPath(name), block).value)
  {
    SetEntry(tree, TOKENS_PATH, name, Link(CidOf(block)));
  }

  lemma FieldKeepsLinked(tree: Node, name: string, field: string, item: Node)
    requires Linked(tree) && Get(tree, TokenPath(name)) != Nil
    requires Set(tree, TokenPath(name) + [field], item).Some?
    ensures Linked(Set(tree, TokenPath(name) + [field], item).value)
    ensures Get(Set(tree, TokenPath(name) + [field], item).value, TokenPath(name)) != Nil
  {
    TokenBlockOf(tree, name);
    SetBelowEntry(tree, TOKENS_PATH, name, field, item);
    SetEntry(tree, TokenPath(name), field, item);
  }

  lemma CreateKeepsLinked(tree: Node, name: string)
    requires Linked(tree) && ':' in name && T.CreateToken(tree, TokenPath(name)).Ok?
    ensures Linked(T.CreateToken(tree, TokenPath(name)).value)
    ensures Get(T.CreateToken(tree, TokenPath(name)).value, TokenPath(name)) != Nil
  {
    LinkingKeepsLinked(tree, name, T.EMPTY_TOKEN);
    var created := SetAsLink(tree, TokenPath(name), T.EMPTY_TOKEN).value;
    GetSet(tree, TokenPath(name), Link(CidOf(T.EMPTY_TOKEN)));
    FieldKeepsLinked(created, name, T.BALANCE, Num(0));
  }

  lemma RecordKeepsLinked(tree: Node, name: string, key: string, cids: seq<Cid>, record: Node, balance: uint64)
    requires Linked(tree) && Get(tree, TokenPath(name)) != Nil
    requires T.Record(tree, TokenPath(name), key, cids, record, balance).Ok?
    ensures Linked(T.Record(tree, TokenPath(name), key, cids, record, balance).value)
  {
    var link := Link(CidOf(Cids(cids + [CidOf(record)])));
    FieldKeepsLinked(tree, name, key, link);
    FieldKeepsLinked(Set(tree, TokenPath(name) + [key], link).value, name, T.BALANCE, Num(balance));
  }

  lemma MissingTokenHasNoBalance(tree: Node, name: string)
    requires Get(tree, TokenPath(name)) == Nil
    ensures T.BalanceAt(tree, TokenPath(name)).Err?
  {
    GetStep(tree, TokenPath(name), T.BALANCE);
  }

  lemma EstablishKeepsLinked(tree: Node, name: string, maximum: uint64)
    requires Linked(tree) && ':' in name && T.EstablishToken(tree, TokenPath(name), maximum).Ok?
    ensures Linked(T.EstablishToken(tree, TokenPath(name), maximum).value)
  {
    CreateKeepsLinked(tree, name);
    FieldKeepsLinked(T.CreateToken(tree, TokenPath(name)).value, name, T.POLICY, Link(CidOf(Policy(maximum))));
  }

  lemma MintKeepsLinked(tree: Node, name: string, amount: uint64)
    requires Linked(tree) && T.MintToken(tree, TokenPath(name), amount).Ok?
    ensures Linked(T.MintToken(tree, TokenPath(name), amount).value)
  {
    var p := TokenPath(name);
    if Get(tree, p) == Nil {
      MissingTokenHasNoBalance(tree, name);
    }
    RecordKeepsLinked(tree, name, T.MINTS, T.CidsAt(tree, p, T.MINTS).value, MintRecord(amount),
                      B.Add64(T.BalanceAt(tree, p).value, amount));
  }

  lemma SendKeepsLinked(tree: Node, name: string, id: string, destination: string, amount: uint64)
    requires Linked(tree) && T.SendToken(tree, TokenPath(name), id, destination, amount).Ok?
    ensures Linked(T.SendToken(tree, TokenPath(name), id, destination, amount).value)
  {
    var p := TokenPath(name);
    if Get(tree, p) == Nil {
      MissingTokenHasNoBalance(tree, name);
    }
    RecordKeepsLinked(tree, name, T.SENDS, T.CidsAt(tree, p, T.SENDS).value, SendRecord(id, amount, destination),
                      T.BalanceAt(tree, p).value - amount);
  }

  lemma ReceiveKeepsLinked(tree: Node, name: string, sendId: string, amount: uint64)
    requires Linked(tree) && ':' in name && T.ReceiveToken(tree, TokenPath(name), sendId, amount).Ok?
    ensures Linked(T.ReceiveToken(tree, TokenPath(name), sendId, amount).value)
  {
    var p := TokenPath(name);
    if Get(tree, p) == Nil {
      CreateKeepsLinked(tree, name);
    }
    var tree' := if Get(tree, p) == Nil then T.CreateToken(tree, p).value else tree;
    RecordKeepsLinked(tree', name, T.RECEIVES, T.CidsAt(tree', p, T.RECEIVES).value, ReceiveRecord(sendId, amount),
                      B.Add64(T.BalanceAt(tree', p).value, amount));
  }

  lemma OpKeepsLinked(tree: Node, name: string, op: B.Op)
    requires Linked(tree) && ':' in name && ApplyOp(tree, TokenPath(name), op).Ok?
    ensures Linked(ApplyOp(tree, TokenPath(name), op).value)
  {
    match op
    case EstablishOp(maximum) => EstablishKeepsLinked(tree, name, maximum);
    case MintOp(amount) => MintKeepsLinked(tree, name, amount);
    case SendOp(id, destination, amount) => SendKeepsLinked(tree, name, id, destination, amount);
    case ReceiveOp(sendId, amount) => ReceiveKeepsLinked(tree, name, sendId, amount);
  }

  lemma PrintedHasColon(did: string, tree: Node, tx: Transaction)
    requires TokenOp(did, tree, tx).Some?
    ensures ':' in TokenOp(did, tree, tx).value.0
  {
    var name := match tx
      case EstablishToken(n, _) => Canonical(tree, did, n, true).value
      case MintToken(n, _) => Canonical(tree, did, n, true).value
      case SendToken(_, n, _, _) => Canonical(tree, did, n, false).value
      case ReceiveToken(token, _, _) => token;
    PrintedName(name);
    assert name.ToString()[|name.did|] == ':';
  }

  lemma TransactionKeepsLinked(did: string, tree: Node, tx: Transaction)
    requires Healthy(tree) && Linked(tree) && Apply(did, tree, tx).Ok?
    ensures Linked(Apply(did, tree, tx).value)
  {
    var op := TokenOp(did, tree, tx);
    if op.Some? {
      PrintedHasColon(did, tree, tx);
      OpKeepsLinked(tree, op.value.0, op.value.1);
    } else {
      TransactionStaysInFootprint(did, tree, tx);
      WordsDiffer();
      assert TOKENS_PATH[1..] == ["tokens"];
      assert AUTHENTICATIONS_PATH[1..] == ["authentications"] && STAKE_PATH[1..] == ["stake"];
      assert Apart(Footprint(did, tree, tx), TOKENS_PATH);
      assert Get(Apply(did, tree, tx).value, TOKENS_PATH) == Get(tree, TOKENS_PATH);
    }
  }

  lemma {:induction false} RunIsLinked(did: string, txs: seq<Transaction>)
    ensures Linked(Run(did, txs))
  {
    if |txs| == 0 {
      assert TOKENS_PATH[0] !in EMPTY_TREE.entries;
    } else {
      var front := txs[..|txs| - 1];
      RunIsLinked(did, front);
      RunIsHealthy(did, front);
      if Apply(did, Run(did, front), txs[|txs| - 1]).Ok? {
        TransactionKeepsLinked(did, Run(did, front), txs[|txs| - 1]);
      }
    }
  }

  /** The root block of a chain: its blocks, its tree, its id and its height. */
  function Root(did: string, chain: Node, height: uint64, tree: Node): Node {
    Dir(map["chain" := Link(CidOf(chain)), "id" := Text(did), "height" := Num(height), P.TREE := Link(CidOf(tree))])
  }

  lemma RootLeadsToTree(did: string, chain: Node, height: uint64, tree: Node, path: Path)
    ensures Resolve(Root(did, chain, height, tree), [P.TREE] + path) == Resolve(tree, path)
  {
    var root := Root(did, chain, height, tree);
    assert root.entries[P.TREE] == Link(CidOf(tree));
    assert ([P.TREE] + path)[1..] == path;
    assert Resolve(root, [P.TREE] + path) == Resolve(Link(CidOf(tree)), path) == Resolve(tree, path);
  }

  /** Whatever transactions a chain has seen, once it has a token it is a chain to build payloads from. */
  lemma ChainsSend(did: string, chain: Node, height: uint64, txs: seq<Transaction>, name: string)
    requires Get(Run(did, txs), TokenPath(name)) != Nil
    ensures var tree := Run(did, txs);
            && P.SenderChain(Root(did, chain, height, tree), TokenEntries(tree))
            && name in TokenEntries(tree)
            && TokenEntries(tree)[name].cid.node == Get(tree, TokenPath(name))
  {
    var tree := Run(did, txs);
    RunIsLinked(did, txs);
    RunIsHealthy(did, txs);
    TokenBlockOf(tree, name);
    RootLeadsToTree(did, chain, height, tree, TOKENS_PATH);
    TokensDirectory(tree, name);
    forall k | k in TokenEntries(tree)
      ensures TokenEntries(tree)[k].Link? && T.IsToken(TokenEntries(tree)[k].cid.node)
    {
      TokenBlockOf(tree, k);
      assert T.TokenPlace(tree, TokenPath(k));
    }
  }

  lemma TokensDirectory(tree: Node, name: string)
    requires Get(tree, TokenPath(name)) != Nil
    ensures Resolve(tree, TOKENS_PATH) == (Dir(TokenEntries(tree)), [])
  {
    GetStep(tree, TOKENS_PATH, name);
    if !Has(tree, TOKENS_PATH) {
      MissingIsNil(tree, TOKENS_PATH);
    }
  }

  lemma {:induction false} MissingIsNil(n: Node, path: Path)
    requires !Has(n, path)
    ensures Get(n, path) == Nil
    decreases |path|
  {
    if path != [] && path[0] in Entries(Deref(n)) {
      MissingIsNil(Entries(Deref(n))[path[0]], path[1..]);
    }
  }

  // ----- Payloads and books

  lemma {:induction false} FirstSendIndex(cids: seq<Cid>, id: string) returns (i: nat)
    requires P.FirstSend(cids, id).Some?
    ensures i < |cids| && cids[i] == P.FirstSend(cids, id).value
    ensures forall j :: 0 <= j < i ==> !P.IsSend(cids[j], id)
  {
    if P.IsSend(cids[0], id) {
      i := 0;
    } else {
      var k := FirstSendIndex(cids[1..], id);
      i := k + 1;
      forall j | 0 <= j < i
        ensures !P.IsSend(cids[j], id)
      {
        assert j > 0 ==> cids[j] == cids[1..][j - 1];
      }
    }
  }

  /** The send in a payload is the first one with its id in the book that the chain's own operations lead to;
      in particular its id is the one the payload was built for. */
  lemma PayloadsCarryBookSends(did: string, txs: seq<Transaction>, name: string, id: string) returns (i: nat)
    requires Get(Run(did, txs), TokenPath(name)) != Nil
    requires P.FirstSend(T.ListOf(Get(Run(did, txs), TokenPath(name)), T.SENDS), id).Some?
    ensures var book := B.Run(OpsOf(did, txs, name));
            var first := P.FirstSend(T.ListOf(Get(Run(did, txs), TokenPath(name)), T.SENDS), id).value.node;
            && book.Some? && i < |book.value.sends| && first.SendRecord?
            && book.value.sends[i] == B.Send(id, first.sent, first.destination)
            && forall j :: 0 <= j < i ==> book.value.sends[j].id != id
  {
    TokenSeesOnlyItsOwnOperations(did, txs, name);
    var cids := T.ListOf(Get(Run(did, txs), TokenPath(name)), T.SENDS);
    i := FirstSendIndex(cids, id);
    P.FirstSendIsListed(cids, id);
    assert forall j :: 0 <= j < |cids| ==> cids[j] in cids;
  }

  /** A payload is built only for a token that the chain has, and carries the first send with the id in it. */
  lemma BuiltFromChain(did: string, chain: Node, height: uint64, txs: seq<Transaction>, name: TokenName, id: string)
    ensures var (tree, n) := (Run(did, txs), name.ToString());
            var built := P.Built(Root(did, chain, height, tree), name, id);
            var first := P.FirstSend(T.ListOf(Get(tree, TokenPath(n)), T.SENDS), id);
            && (built.Some? <==> name.did != "" && name.local != "" && first.Some?)
            && (built.Some? ==>
                  && Get(tree, TokenPath(n)) != Nil
                  && built.value == P.PayloadOf(Root(did, chain, height, tree), n, id, first.value.node)
                  && P.IsSend(first.value, id) && first.value in T.ListOf(Get(tree, TokenPath(n)), T.SENDS))
  {
    var (tree, n) := (Run(did, txs), name.ToString());
    var root := Root(did, chain, height, tree);
    if Get(tree, TokenPath(n)) == Nil {
      assert P.SendsPath(n) == [P.TREE] + (TokenPath(n) + [T.SENDS]);
      RootLeadsToTree(did, chain, height, tree, TokenPath(n) + [T.SENDS]);
      GetStep(tree, TokenPath(n), T.SENDS);
      assert P.SendsAt(root, n) == Ok([]);
    } else {
      ChainsSend(did, chain, height, txs, n);
      if name.IsCanonical() {
        P.BuiltIsFirst(root, TokenEntries(tree), name, id);
      }
    }
  }

  // ----- Tokens with the same history

  function BookOfBlock(t: Node): Option<B.Book>
    requires t.Nil? || T.IsToken(t)
  {
    if t.Nil? then None else Some(T.BookOf(t))
  }

  /** The block that an accepted operation leaves, given the one it found. */
  function OpBlock(t: Node, op: B.Op): Node
    requires (t.Nil? || T.IsToken(t)) && B.Apply(BookOfBlock(t), op).Ok?
  {
    match op
    case EstablishOp(maximum) => Dir(T.EMPTY_TOKEN.entries[T.POLICY := Link(CidOf(Policy(maximum)))])
    case MintOp(amount) => T.Listed(t, T.MINTS, MintRecord(amount), B.Add64(T.BookOf(t).balance, amount))
    case SendOp(id, destination, amount) =>
      T.Listed(t, T.SENDS, SendRecord(id, amount, destination), T.BookOf(t).balance - amount)
    case ReceiveOp(sendId, amount) =>
      var t' := if t.Nil? then T.EMPTY_TOKEN else t;
      T.Listed(t', T.RECEIVES, ReceiveRecord(sendId, amount), B.Add64(if t.Nil? then 0 else T.BookOf(t).balance, amount))
  }

  lemma OpLeaves(tree: Node, p: Path, op: B.Op)
    requires T.TokenPlace(tree, p) && B.Apply(T.BookAt(tree, p), op).Ok? && ApplyOp(tree, p, op).Ok?
    ensures Get(ApplyOp(tree, p, op).value, p) == OpBlock(Get(tree, p), op)
  {
    match op
    case EstablishOp(maximum) =>
      T.TokenCreated(tree, p);
      T.FieldWritten(T.CreateToken(tree, p).value, p, T.POLICY, Link(CidOf(Policy(maximum))));
    case MintOp(amount) => MintLeaves(tree, p, amount);
    case SendOp(id, destination, amount) => SendLeaves(tree, p, id, destination, amount);
    case ReceiveOp(sendId, amount) => ReceiveLeaves(tree, p, sendId, amount);
  }

  lemma MintLeaves(tree: Node, p: Path, amount: uint64)
    requires T.TokenPlace(tree, p) && B.Apply(T.BookAt(tree, p), B.MintOp(amount)).Ok?
    ensures T.MintToken(tree, p, amount).Ok?
    ensures Get(T.MintToken(tree, p, amount).value, p) == OpBlock(Get(tree, p), B.MintOp(amount))
  {
    T.MintDecides(tree, p, amount);
    T.RecordListed(tree, p, T.MINTS, MintRecord(amount), B.Add64(T.BookOf(Get(tree, p)).balance, amount));
  }

  lemma SendLeaves(tree: Node, p: Path, id: string, destination: string, amount: uint64)
    requires T.TokenPlace(tree, p) && B.Apply(T.BookAt(tree, p), B.SendOp(id, destination, amount)).Ok?
    ensures T.SendToken(tree, p, id, destination, amount).Ok?
    ensures Get(T.SendToken(tree, p, id, destination, amount).value, p) ==
            OpBlock(Get(tree, p), B.SendOp(id, destination, amount))
  {
    T.SendDecides(tree, p, id, destination, amount);
    T.RecordListed(tree, p, T.SENDS, SendRecord(id, amount, destination), T.BookOf(Get(tree, p)).balance - amount);
  }

  lemma ReceiveLeaves(tree: Node, p: Path, sendId: string, amount: uint64)
    requires T.TokenPlace(tree, p) && B.Apply(T.BookAt(tree, p), B.ReceiveOp(sendId, amount)).Ok?
    requires T.ReceiveToken(tree, p, sendId, amount).Ok?
    ensures Get(T.ReceiveToken(tree, p, sendId, amount).value, p) == OpBlock(Get(tree, p), B.ReceiveOp(sendId, amount))
  {
    var tree' := tree;
    if Get(tree, p) == Nil {
      T.TokenCreated(tree, p);
      tree' := T.CreateToken(tree, p).value;
      assert T.ReceiveToken(tree, p, sendId, amount) == T.ReceiveToken(tree', p, sendId, amount);
    }
    T.ReceiveDecides(tree', p, sendId, amount);
    T.RecordListed(tree', p, T.RECEIVES, ReceiveRecord(sendId, amount),
                   B.Add64(T.BookOf(Get(tree', p)).balance, amount));
  }

  /** The block that a list of operations leads to. */
  function BlockAfter(ops: seq<B.Op>): Node {
    if |ops| == 0 then Nil
    else
      var t := BlockAfter(ops[..|ops| - 1]);
      if (t.Nil? || T.IsToken(t)) && B.Apply(BookOfBlock(t), ops[|ops| - 1]).Ok? then OpBlock(t, ops[|ops| - 1]) else t
  }

  lemma BlockAfterSnoc(ops: seq<B.Op>, op: B.Op)
    ensures var t := BlockAfter(ops);
            BlockAfter(ops + [op]) ==
            if (t.Nil? || T.IsToken(t)) && B.Apply(BookOfBlock(t), op).Ok? then OpBlock(t, op) else t
  {
    assert (ops + [op])[..|ops|] == ops;
  }

  ghost predicate BlockFollows(did: string, txs: seq<Transaction>, name: string) {
    Get(Run(did, txs), TokenPath(name)) == BlockAfter(OpsOf(did, txs, name))
  }

  /** A token's block depends on nothing but the operations put to it. */
  lemma {:induction false} BlockFollowsOperations(did: string, txs: seq<Transaction>, name: string)
    ensures BlockFollows(did, txs, name)
  {
    if |txs| == 0 {
      EmptyTreeHealthy();
    } else {
      BlockFollowsOperations(did, txs[..|txs| - 1], name);
      BlockFollowsTransaction(did, txs, name);
    }
  }

  lemma BlockFollowsTransaction(did: string, txs: seq<Transaction>, name: string)
    requires |txs| > 0 && BlockFollows(did, txs[..|txs| - 1], name)
    ensures BlockFollows(did, txs, name)
  {
    var front, tx := txs[..|txs| - 1], txs[|txs| - 1];
    var tree := Run(did, front);
    RunIsHealthy(did, front);
    assert T.TokenPlace(tree, TokenPath(name));
    BlockStep(did, tree, tx, name);
    var op := TokenOp(did, tree, tx);
    if op.Some? && op.value.0 == name {
      BlockAfterSnoc(OpsOf(did, front, name), op.value.1);
    }
  }

  lemma BlockStep(did: string, tree: Node, tx: Transaction, name: string)
    requires Healthy(tree) && T.TokenPlace(tree, TokenPath(name))
    ensures var op := TokenOp(did, tree, tx);
            var tree' := if Apply(did, tree, tx).Ok? then Apply(did, tree, tx).value else tree;
            var t := Get(tree, TokenPath(name));
            Get(tree', TokenPath(name)) ==
            if op.Some? && op.value.0 == name && B.Apply(BookOfBlock(t), op.value.1).Ok? then OpBlock(t, op.value.1) else t
  {
    var op := TokenOp(did, tree, tx);
    if op.Some? && op.value.0 == name {
      OpRefines(tree, name, op.value.1);
      if ApplyOp(tree, TokenPath(name), op.value.1).Ok? {
        OpLeaves(tree, TokenPath(name), op.value.1);
      }
    } else if Apply(did, tree, tx).Ok? {
      TransactionOnToken(did, tree, tx, name);
    }
  }

  /** So a payload may be read as any other token of the chain that has seen the same operations. */
  lemma TwinsReadAlike(
    did: string, chain: Node, height: uint64, txs: seq<Transaction>, name: TokenName, twin: string, id: string)
    requires OpsOf(did, txs, twin) == OpsOf(did, txs, name.ToString())
    requires P.Built(Root(did, chain, height, Run(did, txs)), name, id).Some?
    ensures var payload := P.Built(Root(did, chain, height, Run(did, txs)), name, id).value;
            P.MayName(P.SenderDag(payload.tip, set b | b in payload.leaves), twin)
  {
    var (tree, n) := (Run(did, txs), name.ToString());
    BuiltFromChain(did, chain, height, txs, name, id);
    BlockFollowsOperations(did, txs, n);
    BlockFollowsOperations(did, txs, twin);
    ChainsSend(did, chain, height, txs, n);
    ChainsSend(did, chain, height, txs, twin);
    var first := P.FirstSend(T.ListOf(Get(tree, TokenPath(n)), T.SENDS), id).value.node;
    P.BuiltNames(Root(did, chain, height, tree), TokenEntries(tree), n, first, twin);
  }

  /** Two tokens that receive the same amount under the same id and send it on in the same way. */
  function TwinTransactions(a: TokenName, b: TokenName): seq<Transaction> {
    [ReceiveToken(a, "r", 5)] + [ReceiveToken(b, "r", 5)]
    + [SendToken("s", a.ToString(), 5, "d")] + [SendToken("s", b.ToString(), 5, "d")]
  }

  /** On a chain with those four transactions, a payload for the send of the one may be read as the other. */
  lemma TwinsExist(did: string, chain: Node, height: uint64, a: TokenName, b: TokenName)
    requires a != b && a.IsCanonical() && ':' !in a.local && ':' !in b.local
    requires HasPrefix(a.did, DID_PREFIX) && HasPrefix(b.did, DID_PREFIX)
    ensures var built := P.Built(Root(did, chain, height, Run(did, TwinTransactions(a, b))), a, "s");
            && built.Some? && FromString(b.ToString()) == b
            && P.MayName(P.SenderDag(built.value.tip, set n | n in built.value.leaves), b.ToString())
  {
    var txs := TwinTransactions(a, b);
    var ops := [B.ReceiveOp("r", 5), B.SendOp("s", "d", 5)];
    TwinOps(did, a, b);
    TwinBook();
    TokenSeesOnlyItsOwnOperations(did, txs, a.ToString());
    var t := Get(Run(did, txs), TokenPath(a.ToString()));
    var cids := T.ListOf(t, T.SENDS);
    assert T.SendsOf(cids) == [B.Send("s", 5, "d")] && |cids| == 1;
    assert cids[0] in cids && T.SendsOf(cids)[0] == B.Send("s", 5, "d");
    assert P.IsSend(cids[0], "s");
    BuiltFromChain(did, chain, height, txs, a, "s");
    TwinsReadAlike(did, chain, height, txs, a, b.ToString(), "s");
    PrintThenParse(b);
  }

  lemma TwinBook()
    ensures var ops := [B.ReceiveOp("r", 5), B.SendOp("s", "d", 5)];
            B.Run(ops).Some? && B.Run(ops).value.sends == [B.Send("s", 5, "d")]
  {
    var ops := [B.ReceiveOp("r", 5), B.SendOp("s", "d", 5)];
    assert ops[..1] == [B.ReceiveOp("r", 5)] && ops[..1][..0] == [];
    assert B.Run(ops[..1]).value.balance == 5 && B.Run(ops[..1]).value.sends == [];
  }

  lemma OpsAfter(did: string, txs: seq<Transaction>, tx: Transaction, token: string, op: B.Op, name: string)
    requires TokenOp(did, Run(did, txs), tx) == Some((token, op))
    ensures OpsOf(did, txs + [tx], name) == if token == name then OpsOf(did, txs, name) + [op] else OpsOf(did, txs, name)
  {
    OpsSnoc(did, txs, tx, name);
  }

  lemma FullSend(did: string, tree: Node, a: TokenName, id: string, amount: uint64, destination: string)
    requires ':' !in a.local && HasPrefix(a.did, DID_PREFIX)
    ensures TokenOp(did, tree, SendToken(id, a.ToString(), amount, destination)) ==
            Some((a.ToString(), B.SendOp(id, destination, amount)))
  {
    FullName(a);
  }

  lemma TwinOps(did: string, a: TokenName, b: TokenName)
    requires a != b && ':' !in a.local && ':' !in b.local
    requires HasPrefix(a.did, DID_PREFIX) && HasPrefix(b.did, DID_PREFIX)
    ensures OpsOf(did, TwinTransactions(a, b), a.ToString()) == [B.ReceiveOp("r", 5), B.SendOp("s", "d", 5)]
    ensures OpsOf(did, TwinTransactions(a, b), b.ToString()) == [B.ReceiveOp("r", 5), B.SendOp("s", "d", 5)]
  {
    FullName(a);
    FullName(b);
    TwinOpsAt(did, a, b, a.ToString());
    TwinOpsAt(did, a, b, b.ToString());
  }

  lemma TwinOpsAt(did: string, a: TokenName, b: TokenName, name: string)
    requires ':' !in a.local && HasPrefix(a.did, DID_PREFIX) && ':' !in b.local && HasPrefix(b.did, DID_PREFIX)
    requires a.ToString() != b.ToString() && (name == a.ToString() || name == b.ToString())
    ensures OpsOf(did, TwinTransactions(a, b), name) == [B.ReceiveOp("r", 5), B.SendOp("s", "d", 5)]
  {
    var txs0: seq<Transaction> := [];
    var txs1 := txs0 + [ReceiveToken(a, "r", 5)];
    var txs2 := txs1 + [ReceiveToken(b, "r", 5)];
    var txs3 := txs2 + [SendToken("s", a.ToString(), 5, "d")];
    assert TwinTransactions(a, b) == txs3 + [SendToken("s", b.ToString(), 5, "d")];
    var receive, send := B.ReceiveOp("r", 5), B.SendOp("s", "d", 5);
    OpsAfter(did, txs0, ReceiveToken(a, "r", 5), a.ToString(), receive, name);
    OpsAfter(did, txs1, ReceiveToken(b, "r", 5), b.ToString(), receive, name);
    FullSend(did, Run(did, txs2), a, "s", 5, "d");
    OpsAfter(did, txs2, SendToken("s", a.ToString(), 5, "d"), a.ToString(), send, name);
    FullSend(did, Run(did, txs3), b, "s", 5, "d");
    OpsAfter(did, txs3, SendToken("s", b.ToString(), 5, "d"), b.ToString(), send, name);
  }

  /** A full name stands for itself, and prints to a full name. */
  lemma FullName(a: TokenName)
    requires ':' !in a.local && HasPrefix(a.did, DID_PREFIX)
    ensures FromString(a.ToString()) == a && HasPrefix(a.ToString(), DID_PREFIX)
  {
    PrintThenParse(a);
    PrintedName(a);
    assert a.ToString()[..|DID_PREFIX|] == a.did[..|DID_PREFIX|];
  }
}

/** What each transaction of consensus/transactions.go does to a chain that grew by transactions, in terms of the
    names and amounts in the transaction and the books in the tree. */
module TokenTransactions {
  import opened Prelude
  import opened Dag
  import opened TokenNames
  import opened TreeLedger
  import opened Transactions
  import opened SenderChains
  import B = Books
  import T = LedgerTrees

  // ----- The tokens of a chain

  lemma TransactionKeepsShape(did: string, tree: Node, tx: Transaction)
    requires Healthy(tree) && TokensShaped(tree) && Linked(tree) && Apply(did, tree, tx).Ok?
    ensures TokensShaped(Apply(did, tree, tx).value)
  {
    var tree' := Apply(did, tree, tx).value;
    var op := TokenOp(did, tree, tx);
    TransactionKeepsLinked(did, tree, tx);
    if op.Some? {
      TransactionOnToken(did, tree, tx, op.value.0);
      TokensDirectory(tree', op.value.0);
    } else {
      TransactionStaysInFootprint(did, tree, tx);
      WordsDiffer();
      assert TOKENS_PATH[1..] == ["tokens"];
      assert AUTHENTICATIONS_PATH[1..] == ["authentications"] && STAKE_PATH[1..] == ["stake"];
      assert Apart(Footprint(did, tree, tx), TOKENS_PATH);
    }
  }

  lemma {:induction false} RunIsShaped(did: string, txs: seq<Transaction>)
    ensures TokensShaped(Run(did, txs))
  {
    if |txs| == 0 {
      assert TOKENS_PATH[0] !in EMPTY_TREE.entries;
    } else {
      var front := txs[..|txs| - 1];
      RunIsShaped(did, front);
      RunIsHealthy(did, front);
      RunIsLinked(did, front);
      if Apply(did, Run(did, front), txs[|txs| - 1]).Ok? {
        TransactionKeepsShape(did, Run(did, front), txs[|txs| - 1]);
      }
    }
  }

  /** On every chain a name is made canonical exactly when it stands for a token, and as that token. */
  lemma NamesOnChains(did: string, txs: seq<Transaction>, name: string, requireDefault: bool)
    ensures var tree := Run(did, txs);
            var canonical := Canonical(tree, did, name, requireDefault);
            && (canonical.Ok? <==>
                  && (exists token :: StandsFor(tree, did, name, token))
                  && (requireDefault && HasPrefix(name, DID_PREFIX) ==> OwnName(did, name)))
            && (canonical.Ok? ==>
                  forall token :: StandsFor(tree, did, name, token) <==> token == canonical.value.ToString())
  {
    RunIsShaped(did, txs);
    CanonicalMeans(Run(did, txs), did, name, requireDefault);
  }

  /** The book of a token in a chain's tree. */
  ghost function BookIn(did: string, txs: seq<Transaction>, token: string): Option<B.Book> {
    RunIsHealthy(did, txs);
    assert T.TokenPlace(Run(did, txs), TokenPath(token));
    T.BookAt(Run(did, txs), TokenPath(token))
  }

  /** Where the book of a token is kept: its fields under the token's name, its lists as CIDs of records. */
  lemma BookLayout(did: string, txs: seq<Transaction>, token: string)
    requires BookIn(did, txs, token).Some?
    ensures var (tree, b) := (Run(did, txs), BookIn(did, txs, token).value);
            var place := ["_tupelo", "tokens", token];
            && Get(tree, place + ["balance"]) == Num(b.balance)
            && Get(tree, place + ["monetaryPolicy"]) == (if b.policy.Some? then Policy(b.policy.value) else Nil)
            && Listing(Get(tree, place + ["mints"]), |b.mints|, (i: nat) requires i < |b.mints| => MintRecord(b.mints[i]))
            && Listing(Get(tree, place + ["sends"]), |b.sends|, (i: nat) requires i < |b.sends| =>
                 SendRecord(b.sends[i].id, b.sends[i].amount, b.sends[i].destination))
            && Listing(Get(tree, place + ["receives"]), |b.receives|, (i: nat) requires i < |b.receives| =>
                 ReceiveRecord(b.receives[i].sendId, b.receives[i].amount))
  {
    var (tree, p) := (Run(did, txs), TokenPath(token));
    var t := Get(tree, p);
    RunIsHealthy(did, txs);
    assert T.TokenPlace(tree, p) && p == ["_tupelo", "tokens", token];
    GetStep(tree, p, T.BALANCE);
    GetStep(tree, p, T.POLICY);
    GetStep(tree, p, T.MINTS);
    GetStep(tree, p, T.SENDS);
    GetStep(tree, p, T.RECEIVES);
    assert forall c, key :: c in T.ListOf(t, key) <==> exists i :: 0 <= i < |T.ListOf(t, key)| && T.ListOf(t, key)[i] == c;
  }

  /** A list of the CIDs of these records; an empty list may be missing. */
  ghost predicate Listing(n: Node, len: nat, record: nat --> Node)
    requires forall i :: 0 <= i < len ==> record.requires(i)
  {
    if n.Cids? then |n.cids| == len && forall i :: 0 <= i < len ==> n.cids[i] == CidOf(record(i))
    else n.Nil? && len == 0
  }

  /** The transaction succeeds exactly when it is allowed, and then leaves this book at the token and every other
      token as it was. */
  ghost predicate Leaves(did: string, txs: seq<Transaction>, tx: Transaction, token: string, allowed: bool, book: B.Book) {
    && (Apply(did, Run(did, txs), tx).Ok? <==> allowed)
    && (allowed ==>
          && BookIn(did, txs + [tx], token) == Some(book)
          && forall other :: other != token ==> BookIn(did, txs + [tx], other) == BookIn(did, txs, other))
  }

  function BookOrEmpty(book: Option<B.Book>): B.Book {
    if book.Some? then book.value else B.Book(None, [], [], [], 0)
  }

  lemma OpDoes(
    did: string, txs: seq<Transaction>, tx: Transaction, token: string, op: B.Op, allowed: bool, book: B.Book)
    requires TokenOp(did, Run(did, txs), tx) == Some((token, op))
    requires B.Apply(BookIn(did, txs, token), op).Ok? <==> allowed
    requires allowed ==> book == B.Apply(BookIn(did, txs, token), op).value
    ensures Leaves(did, txs, tx, token, allowed, book)
  {
    var tree := Run(did, txs);
    RunIsHealthy(did, txs);
    assert T.TokenPlace(tree, TokenPath(token));
    OpRefines(tree, token, op);
    RunSnoc(did, txs, tx);
    RunIsHealthy(did, txs + [tx]);
    if Apply(did, tree, tx).Ok? {
      TransactionOnToken(did, tree, tx, token);
      forall other | other != token
        ensures BookIn(did, txs + [tx], other) == BookIn(did, txs, other)
      {
        TransactionOnToken(did, tree, tx, other);
      }
    }
  }

  lemma RefusedNameFails(
    did: string, txs: seq<Transaction>, tx: Transaction, token: string, allowed: bool, book: B.Book)
    requires (tx.EstablishToken? || tx.MintToken?) && TokenOp(did, Run(did, txs), tx) == None && !allowed
    ensures Leaves(did, txs, tx, token, allowed, book)
  {
  }

  /** A full name may be established and minted on its own chain only. */
  predicate MayIssue(did: string, name: string) {
    HasPrefix(name, DID_PREFIX) ==> OwnName(did, name)
  }

  /** Which operation on which token a named transaction is. */
  lemma NamedOp(did: string, txs: seq<Transaction>, tx: Transaction, token: string)
    requires tx.EstablishToken? || tx.MintToken? || tx.SendToken?
    requires StandsFor(Run(did, txs), did, tx.name, token)
    ensures TokenOp(did, Run(did, txs), tx) ==
            match tx
            case EstablishToken(name, maximum) => if MayIssue(did, name) then Some((token, B.EstablishOp(maximum))) else None
            case MintToken(name, amount) => if MayIssue(did, name) then Some((token, B.MintOp(amount))) else None
            case SendToken(id, name, amount, destination) => Some((token, B.SendOp(id, destination, amount)))
  {
    NamesOnChains(did, txs, tx.name, !tx.SendToken?);
  }

  /** Establishing succeeds exactly for a name that the chain may issue and that stands for a token it does not
      have; it leaves an empty book with the given maximum. */
  lemma EstablishDoes(did: string, txs: seq<Transaction>, name: string, maximum: uint64, token: string)
    requires StandsFor(Run(did, txs), did, name, token)
    ensures Leaves(did, txs, EstablishToken(name, maximum), token,
                   MayIssue(did, name) && BookIn(did, txs, token).None?,
                   B.Book(Some(maximum), [], [], [], 0))
  {
    var tx, book := EstablishToken(name, maximum), B.Book(Some(maximum), [], [], [], 0);
    var allowed := MayIssue(did, name) && BookIn(did, txs, token).None?;
    NamedOp(did, txs, tx, token);
    if MayIssue(did, name) {
      OpDoes(did, txs, tx, token, B.EstablishOp(maximum), allowed, book);
    } else {
      RefusedNameFails(did, txs, tx, token, allowed, book);
    }
  }

  /** Minting succeeds exactly for a name that the chain may issue, a positive amount, and a token with a policy
      whose maximum, if it has one, the 64-bit total does not pass; it adds the amount to mints and balance. */
  lemma MintDoes(did: string, txs: seq<Transaction>, name: string, amount: uint64, token: string)
    requires StandsFor(Run(did, txs), did, name, token)
    ensures var b := BookOrEmpty(BookIn(did, txs, token));
            Leaves(did, txs, MintToken(name, amount), token,
                   && MayIssue(did, name) && amount > 0 && BookIn(did, txs, token).Some? && b.policy.Some?
                   && (b.policy.value > 0 ==> B.Total64(b.mints + [amount]) <= b.policy.value),
                   B.Book(b.policy, b.mints + [amount], b.sends, b.receives, B.Add64(b.balance, amount)))
  {
    var tx, b := MintToken(name, amount), BookOrEmpty(BookIn(did, txs, token));
    var book := B.Book(b.policy, b.mints + [amount], b.sends, b.receives, B.Add64(b.balance, amount));
    var allowed := && MayIssue(did, name) && amount > 0 && BookIn(did, txs, token).Some? && b.policy.Some?
                   && (b.policy.value > 0 ==> B.Total64(b.mints + [amount]) <= b.policy.value);
    NamedOp(did, txs, tx, token);
    B.MintMeans(BookIn(did, txs, token), amount);
    if MayIssue(did, name) {
      OpDoes(did, txs, tx, token, B.MintOp(amount), allowed, book);
    } else {
      RefusedNameFails(did, txs, tx, token, allowed, book);
    }
  }

  function Less(a: uint64, b: uint64): uint64 {
    if b <= a then a - b else 0
  }

  /** Sending succeeds exactly for a token that the chain has, with a positive amount within its balance; it lists
      the send and takes the amount from the balance. */
  lemma SendDoes(
    did: string, txs: seq<Transaction>, id: string, name: string, amount: uint64, destination: string, token: string)
    requires StandsFor(Run(did, txs), did, name, token)
    ensures var b := BookOrEmpty(BookIn(did, txs, token));
            Leaves(did, txs, SendToken(id, name, amount, destination), token,
                   BookIn(did, txs, token).Some? && 0 < amount <= b.balance,
                   B.Book(b.policy, b.mints, b.sends + [B.Send(id, amount, destination)], b.receives,
                          Less(b.balance, amount)))
  {
    var tx, op := SendToken(id, name, amount, destination), B.SendOp(id, destination, amount);
    var b := BookOrEmpty(BookIn(did, txs, token));
    var book := B.Book(b.policy, b.mints, b.sends + [B.Send(id, amount, destination)], b.receives,
                       Less(b.balance, amount));
    var allowed := BookIn(did, txs, token).Some? && 0 < amount <= b.balance;
    assert (B.Apply(BookIn(did, txs, token), op).Ok? <==> allowed)
           && (allowed ==> book == B.Apply(BookIn(did, txs, token), op).value) by {
      B.SendMeans(BookIn(did, txs, token), id, destination, amount);
    }
    NamedOp(did, txs, tx, token);
    OpDoes(did, txs, tx, token, op, allowed, book);
  }

  /** Receiving succeeds exactly when no receive of the token has the id; it lists the receive and adds the amount,
      to a new book without a policy where there is none. */
  lemma ReceiveDoes(did: string, txs: seq<Transaction>, name: TokenName, sendId: string, amount: uint64)
    ensures var b := BookOrEmpty(BookIn(did, txs, name.ToString()));
            Leaves(did, txs, ReceiveToken(name, sendId, amount), name.ToString(),
                   forall r :: r in b.receives ==> r.sendId != sendId,
                   B.Book(b.policy, b.mints, b.sends, b.receives + [B.Receive(sendId, amount)],
                          B.Add64(b.balance, amount)))
  {
    var tx, b := ReceiveToken(name, sendId, amount), BookOrEmpty(BookIn(did, txs, name.ToString()));
    var book := B.Book(b.policy, b.mints, b.sends, b.receives + [B.Receive(sendId, amount)],
                       B.Add64(b.balance, amount));
    B.ReceiveMeans(BookIn(did, txs, name.ToString()), sendId, amount);
    var allowed := forall r :: r in b.receives ==> r.sendId != sendId;
    OpDoes(did, txs, tx, name.ToString(), B.ReceiveOp(sendId, amount), allowed, book);
  }

  /** A short name of several tokens is refused by every transaction that names one. */
  lemma AmbiguousNamesFail(did: string, txs: seq<Transaction>, name: string, tx: Transaction)
    requires forall token :: !StandsFor(Run(did, txs), did, name, token)
    requires (tx.EstablishToken? || tx.MintToken? || tx.SendToken?) && tx.name == name
    ensures Apply(did, Run(did, txs), tx).Err?
  {
    NamesOnChains(did, txs, name, true);
    NamesOnChains(did, txs, name, false);
  }

  // ----- A chain issues tokens of its own name only

  predicate Issued(book: Option<B.Book>) {
    book.Some? && (book.value.policy.Some? || book.value.mints != [])
  }

  /** Mints come after a policy. */
  ghost predicate PolicyFirst(book: Option<B.Book>) {
    book.Some? && book.value.mints != [] ==> book.value.policy.Some?
  }

  ghost predicate OnlyOwnIssued(did: string, txs: seq<Transaction>, token: string) {
    PolicyFirst(BookIn(did, txs, token)) && (Issued(BookIn(did, txs, token)) ==> HasPrefix(token, did + ":"))
  }

  /** A new token that a name may be established as is one of the chain's own. */
  lemma NewNamesAreOwn(did: string, txs: seq<Transaction>, name: string, token: string)
    requires StandsFor(Run(did, txs), did, name, token) && MayIssue(did, name) && BookIn(did, txs, token).None?
    ensures HasPrefix(token, did + ":")
  {
    if !HasPrefix(name, DID_PREFIX) && exists k :: IsCalled(Run(did, txs), name, k) {
      RunIsLinked(did, txs);
      TokenBlockOf(Run(did, txs), token);
    }
  }

  /** Only establishing gives a token a policy. */
  lemma OpIssues(book: Option<B.Book>, op: B.Op)
    requires PolicyFirst(book) && B.Apply(book, op).Ok?
    ensures PolicyFirst(Some(B.Apply(book, op).value))
    ensures Issued(Some(B.Apply(book, op).value)) ==> Issued(book) || op.EstablishOp?
  {
  }

  lemma EstablishedIsOwn(did: string, txs: seq<Transaction>, tx: Transaction, token: string)
    requires tx.EstablishToken? && Apply(did, Run(did, txs), tx).Ok?
    requires TokenOp(did, Run(did, txs), tx).Some? && TokenOp(did, Run(did, txs), tx).value.0 == token
    ensures HasPrefix(token, did + ":")
  {
    NamesOnChains(did, txs, tx.name, true);
    EstablishDoes(did, txs, tx.name, tx.maximum, token);
    NewNamesAreOwn(did, txs, tx.name, token);
  }

  lemma TransactionIssuesOwn(did: string, txs: seq<Transaction>, tx: Transaction, token: string)
    requires OnlyOwnIssued(did, txs, token)
    ensures OnlyOwnIssued(did, txs + [tx], token)
  {
    var tree := Run(did, txs);
    RunSnoc(did, txs, tx);
    RunIsHealthy(did, txs);
    var op := TokenOp(did, tree, tx);
    if Apply(did, tree, tx).Ok? {
      TransactionOnToken(did, tree, tx, token);
      if op.Some? && op.value.0 == token {
        OpIssues(BookIn(did, txs, token), op.value.1);
        if tx.EstablishToken? {
          EstablishedIsOwn(did, txs, tx, token);
        }
      }
    }
  }

  /** Over every run of transactions, a token that has a policy or a mint on a chain has a name of that chain. */
  lemma {:induction false} ChainsIssueTheirOwn(did: string, txs: seq<Transaction>, token: string)
    ensures OnlyOwnIssued(did, txs, token)
  {
    if |txs| == 0 {
      EmptyTreeHealthy();
    } else {
      var front, tx := txs[..|txs| - 1], txs[|txs| - 1];
      ChainsIssueTheirOwn(did, front, token);
      TransactionIssuesOwn(did, front, tx, token);
      assert txs == front + [tx];
    }
  }

  // ----- Data, stake and owners

  /** Setting data succeeds exactly when the path and the value decode and nothing is in the way; the value is then
      read back at its path, and stands there in place or behind a link by its type. */
  lemma SetDataDoes(did: string, tree: Node, path: string, value: Option<Node>)
    ensures var r := Apply(did, tree, SetData(path, value));
            && (r.Ok? <==> Decoded(path).Ok? && value.Some? && Writable(tree, ["data"] + Decoded(path).value))
            && (r.Ok? ==> Get(r.value, ["data"] + Decoded(path).value) == Deref(value.value))
            && (r.Ok? ==>
                  var parts := ["data"] + Decoded(path).value;
                  Child(Get(r.value, parts[..|parts| - 1]), parts[|parts| - 1]) ==
                  if value.value.Num? || value.value.Text? || value.value.Blob? || value.value.Link? then value.value
                  else Link(CidOf(value.value)))
  {
    if Decoded(path).Ok? && value.Some? {
      var p := DATA_PATH + Decoded(path).value;
      var item := if ComplexType(value.value) then Link(CidOf(value.value)) else value.value;
      WrittenItem(tree, p, item);
    }
  }

  lemma WrittenItem(tree: Node, p: Path, item: Node)
    requires |p| > 0
    ensures Set(tree, p, item).Some? <==> Writable(tree, p)
    ensures Set(tree, p, item).Some? ==>
              && Get(Set(tree, p, item).value, p) == Deref(item)
              && Child(Get(Set(tree, p, item).value, p[..|p| - 1]), p[|p| - 1]) == item
  {
    SetSucceeds(tree, p, item);
    if Set(tree, p, item).Some? {
      GetSet(tree, p, item);
      assert p == p[..|p| - 1] + [p[|p| - 1]];
      SetEntry(tree, p[..|p| - 1], p[|p| - 1], item);
    }
  }

  /** A stake and an owner list are read back as they were given. */
  lemma StakeIsKept(did: string, tree: Node, payload: Node)
    ensures var r := Apply(did, tree, Stake(payload));
            && (r.Ok? <==> Writable(tree, ["_tupelo", "stake"]))
            && (r.Ok? ==> Get(r.value, ["_tupelo", "stake"]) == Deref(payload))
  {
    WrittenItem(tree, STAKE_PATH, Link(CidOf(payload)));
  }

  lemma OwnersAreKept(did: string, tree: Node, auths: seq<string>)
    ensures var r := Apply(did, tree, SetOwnership(auths));
            && (r.Ok? <==> Writable(tree, ["_tupelo", "authentications"]))
            && (r.Ok? ==> Get(r.value, ["_tupelo", "authentications"]) == Texts(auths))
  {
    WrittenItem(tree, AUTHENTICATIONS_PATH, Link(CidOf(Texts(auths))));
    assert Deref(Link(CidOf(Texts(auths)))) == Deref(Texts(auths)) == Texts(auths);
  }

  lemma FootprintApart(did: string, tree: Node, tx: Transaction, area: Path, rest: Path)
    requires (area == DATA_PATH && !tx.SetData?) || (area == STAKE_PATH && !tx.Stake?)
    ensures Apart(Footprint(did, tree, tx), area + rest)
  {
    var op := TokenOp(did, tree, tx);
    var token := if op.Some? then op.value.0 else "";
    AreasApart(token);
    WordsDiffer();
    assert TOKENS_PATH[1..] == ["tokens"] && STAKE_PATH[1..] == ["stake"];
    assert Apart(TOKENS_PATH, STAKE_PATH) && Apart(TOKENS_PATH, DATA_PATH);
    ApartExtends(DATA_PATH, TokenPath(token), []);
    ApartExtends(DATA_PATH, AUTHENTICATIONS_PATH, []);
    ApartExtends(DATA_PATH, STAKE_PATH, []);
    ApartExtends(Footprint(did, tree, tx), area, rest);
  }

  ghost function At(did: string, txs: seq<Transaction>, path: Path): Node {
    Get(Run(did, txs), path)
  }

  predicate LeavesAlone(area: Path, tx: Transaction) {
    if area == DATA_PATH then !tx.SetData? else !tx.Stake?
  }

  /** The data changes only by the transactions that set it, and the stake only by those that stake. */
  lemma AreasChangeOnlyByTheirOwn(
    did: string, txs: seq<Transaction>, more: seq<Transaction>, area: Path, rest: Path)
    requires area == DATA_PATH || area == STAKE_PATH
    requires forall i :: 0 <= i < |more| ==> if area == DATA_PATH then !more[i].SetData? else !more[i].Stake?
    ensures Get(Run(did, txs + more), area + rest) == Get(Run(did, txs), area + rest)
  {
    AreaSince(did, txs, txs + more, area, rest);
  }

  lemma {:induction false} AreaSince(did: string, txs: seq<Transaction>, all: seq<Transaction>, area: Path, rest: Path)
    requires txs <= all && (area == DATA_PATH || area == STAKE_PATH)
    requires forall i :: |txs| <= i < |all| ==> LeavesAlone(area, all[i])
    ensures At(did, all, area + rest) == At(did, txs, area + rest)
    decreases |all|
  {
    if |all| == |txs| {
      assert all == txs;
    } else {
      AreaSince(did, txs, all[..|all| - 1], area, rest);
      AreaStays(did, all, area, rest);
    }
  }

  lemma AreaStays(did: string, all: seq<Transaction>, area: Path, rest: Path)
    requires |all| > 0 && (area == DATA_PATH || area == STAKE_PATH) && LeavesAlone(area, all[|all| - 1])
    ensures At(did, all, area + rest) == At(did, all[..|all| - 1], area + rest)
  {
    var tree, tx := Run(did, all[..|all| - 1]), all[|all| - 1];
    RunIsHealthy(did, all[..|all| - 1]);
    if Apply(did, tree, tx).Ok? {
      TransactionStaysInFootprint(did, tree, tx);
      FootprintApart(did, tree, tx, area, rest);
    }
  }
}

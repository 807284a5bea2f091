/** The transactors of consensus/transactions.go as functions on a chain's tree, and what any interleaving
    of them keeps apart. */
module Transactions {
  import opened Prelude
  import opened Dag
  import opened TokenNames
  import opened TreeLedger
  import B = Books
  import T = LedgerTrees

  const DATA_PATH: Path := ["data"]
  const AUTHENTICATIONS_PATH: Path := ["_tupelo", "authentications"]
  const STAKE_PATH: Path := ["_tupelo", "stake"]

  /** A decoded payload. `SetData` carries `None` when its bytes do not decode; `ReceiveToken` carries the
      token and amount found in its leaves (see `TokenNetwork`). */
  datatype Transaction =
    | SetData(path: string, value: Option<Node>)
    | SetOwnership(authentication: seq<string>)
    | Stake(payload: Node)
    | EstablishToken(name: string, maximum: uint64)
    | MintToken(name: string, amount: uint64)
    | SendToken(id: string, name: string, amount: uint64, destination: string)
    | ReceiveToken(token: TokenName, sendId: string, amount: uint64)

  /** Built-in scalars and CIDs are stored in place, everything else behind a link. */
  predicate ComplexType(value: Node) {
    !(value.Num? || value.Text? || value.Blob? || value.Link?)
  }

  // ----- Canonical token names

  predicate HasPrefix(s: string, prefix: string) {
    prefix <= s
  }

  const DID_PREFIX := "did:tupelo:"

  /** The tokens of the tree whose local part is the given name. */
  function Matches(tokens: map<string, Node>, name: string): set<string> {
    set k | k in tokens && FromString(k).local == name
  }

  /** A full name stands for itself; a short one for the only token of that local name, or else for a token
      of this chain. The chain's own id is demanded of full names only. */
  ghost function Canonical(tree: Node, defaultDid: string, name: string, requireDefault: bool): Result<TokenName> {
    if HasPrefix(name, DID_PREFIX) then
      if requireDefault && FromString(name).did != defaultDid then Err("invalid chaintree DID in token name")
      else Ok(FromString(name))
    else
      var (tokens, remaining) := Resolve(tree, TOKENS_PATH);
      if remaining != [] then Ok(TokenName(defaultDid, name))
      else if !tokens.Dir? then Err("tokens node is not a map")
      else
        var found := Matches(tokens.entries, name);
        if found == {} then Ok(TokenName(defaultDid, name))
        else if |found| > 1 then Err("ambiguous token names")
        else var k :| k in found; Ok(FromString(k))
  }

  lemma {:induction false} TwoElements(s: set<string>, j: string, k: string)
    requires j in s && k in s && j != k
    ensures |s| > 1
  {
    assert s == {j, k} + (s - {j, k});
    assert |s| == 2 + |s - {j, k}|;
  }

  /** The only token of a local name, if there is just one. */
  method FindMatch(tokens: map<string, Node>, name: string) returns (r: Result<Option<string>>)
    ensures match r
            case Ok(None) => Matches(tokens, name) == {}
            case Ok(Some(k)) => Matches(tokens, name) == {k}
            case Err(_) => |Matches(tokens, name)| > 1
  {
    var matched: Option<string> := None;
    var keys := tokens.Keys;
    while keys != {}
      invariant keys <= tokens.Keys
      invariant forall k :: k in Matches(tokens, name) && k !in keys <==> matched == Some(k)
    {
      var token :| token in keys;
      if FromString(token).local == name {
        assert token in Matches(tokens, name);
        if matched.Some? {
          TwoElements(Matches(tokens, name), token, matched.value);
          return Err("ambiguous token names");
        }
        matched := Some(token);
      }
      keys := keys - {token};
    }
    return Ok(matched);
  }

  /** Walks over the tokens in the map's own order, which does not show in the result. */
  method CanonicalTokenName(tree: Node, defaultDid: string, name: string, requireDefault: bool)
    returns (r: Result<TokenName>)
    ensures r == Canonical(tree, defaultDid, name, requireDefault)
  {
    if HasPrefix(name, DID_PREFIX) {
      var tn := FromString(name);
      if requireDefault && tn.did != defaultDid {
        return Err("invalid chaintree DID in token name");
      }
      return Ok(tn);
    }
    var (tokens, remaining) := Resolve(tree, TOKENS_PATH);
    if remaining != [] {
      return Ok(TokenName(defaultDid, name));
    }
    if !tokens.Dir? {
      return Err("tokens node is not a map");
    }
    var matched := FindMatch(tokens.entries, name);
    if matched.Err? {
      return Err("ambiguous token names");
    }
    if matched.value.Some? {
      return Ok(FromString(matched.value.value));
    }
    return Ok(TokenName(defaultDid, name));
  }

  /** Canonicalising the printed form of a full name whose local part has no colon gives the name back. */
  lemma CanonicalNamesAreFixed(tree: Node, defaultDid: string, name: TokenName, requireDefault: bool)
    requires HasPrefix(name.did, DID_PREFIX)
    ensures Canonical(tree, defaultDid, name.ToString(), requireDefault) == Ok(name)
            <==> ':' !in name.local && (requireDefault ==> name.did == defaultDid)
  {
    PrintedName(name);
    PrintThenParse(name);
    var s := name.ToString();
    assert s[..|DID_PREFIX|] == name.did[..|DID_PREFIX|];
    ParseThenPrint(s);
  }

  /** The name is one of the chain's own: its id, a colon, and a local part without one. */
  predicate OwnName(did: string, name: string) {
    HasPrefix(name, did + ":") && ':' !in name[|did| + 1..]
  }

  lemma OwnNameParses(did: string, name: string)
    requires ':' in name
    ensures FromString(name).did == did <==> OwnName(did, name)
  {
    ParseThenPrint(name);
    PrintedName(FromString(name));
    if OwnName(did, name) {
      LastPart(did, name[|did| + 1..]);
      assert name == did + ":" + name[|did| + 1..];
    }
    if FromString(name).did == did {
      assert name[|did| + 1..] == FromString(name).local;
    }
  }

  function TokenKeys(tree: Node): set<string> {
    Entries(Get(tree, TOKENS_PATH)).Keys
  }

  /** A token of the tree with this local name. */
  predicate IsCalled(tree: Node, name: string, token: string) {
    token in TokenKeys(tree) && FromString(token).local == name
  }

  /** The token that a name stands for: a full name for itself, a short one for the only token of that local name,
      and for a token of this chain where there is none. A short name of several tokens stands for nothing. */
  ghost predicate StandsFor(tree: Node, did: string, name: string, token: string) {
    if HasPrefix(name, DID_PREFIX) then token == name
    else if exists k :: IsCalled(tree, name, k)
    then IsCalled(tree, name, token) && forall k :: IsCalled(tree, name, k) ==> k == token
    else token == did + ":" + name
  }

  /** The tokens, if there are any, are in a map and under printed names. */
  predicate TokensShaped(tree: Node) {
    if Has(tree, TOKENS_PATH) then Get(tree, TOKENS_PATH).Dir? && forall k :: k in TokenKeys(tree) ==> ':' in k
    else TokenKeys(tree) == {}
  }

  lemma FullNameMeans(tree: Node, did: string, name: string, requireDefault: bool)
    requires HasPrefix(name, DID_PREFIX)
    ensures Canonical(tree, did, name, requireDefault).Ok? <==> (requireDefault ==> OwnName(did, name))
    ensures Canonical(tree, did, name, requireDefault).Ok? ==>
              Canonical(tree, did, name, requireDefault).value.ToString() == name
  {
    assert name[3] == ':' && name[3] in name;
    OwnNameParses(did, name);
    ParseThenPrint(name);
  }

  lemma ShortNameMeans(tree: Node, did: string, name: string, requireDefault: bool)
    requires TokensShaped(tree) && !HasPrefix(name, DID_PREFIX)
    ensures Canonical(tree, did, name, requireDefault).Ok? <==>
            forall j, k :: IsCalled(tree, name, j) && IsCalled(tree, name, k) ==> j == k
    ensures Canonical(tree, did, name, requireDefault).Ok? ==>
              StandsFor(tree, did, name, Canonical(tree, did, name, requireDefault).value.ToString())
  {
    var found := Matches(Entries(Get(tree, TOKENS_PATH)), name);
    assert forall k :: k in found <==> IsCalled(tree, name, k);
    PrintedName(TokenName(did, name));
    if |found| > 1 {
      var j, k := TwoOf(found);
    } else if k :| k in found {
      forall j | j in found
        ensures j == k
      {
        if j != k {
          TwoElements(found, j, k);
        }
      }
      ParseThenPrint(k);
    }
  }

  lemma TwoOf(s: set<string>) returns (j: string, k: string)
    requires |s| > 1
    ensures j in s && k in s && j != k
  {
    j :| j in s;
    assert |s - {j}| == |s| - 1;
    k :| k in s - {j};
  }

  /** What canonicalising means for the printed names: it succeeds exactly when the name stands for a token, which
      a full name does only as one of the chain's own where that is demanded; and it gives that token. */
  lemma CanonicalMeans(tree: Node, did: string, name: string, requireDefault: bool)
    requires TokensShaped(tree)
    ensures Canonical(tree, did, name, requireDefault).Ok? <==>
            && (exists token :: StandsFor(tree, did, name, token))
            && (requireDefault && HasPrefix(name, DID_PREFIX) ==> OwnName(did, name))
    ensures Canonical(tree, did, name, requireDefault).Ok? ==>
              forall token :: StandsFor(tree, did, name, token) <==>
                                token == Canonical(tree, did, name, requireDefault).value.ToString()
  {
    if HasPrefix(name, DID_PREFIX) {
      FullNameMeans(tree, did, name, requireDefault);
      assert StandsFor(tree, did, name, name);
    } else {
      ShortNameMeans(tree, did, name, requireDefault);
    }
  }

  // ----- The transactors

  /** The token and the ledger operation of a token transaction, if its name can be made canonical. */
  ghost function TokenOp(did: string, tree: Node, tx: Transaction): Option<(string, B.Op)> {
    match tx
    case EstablishToken(name, maximum) => Named(Canonical(tree, did, name, true), B.EstablishOp(maximum))
    case MintToken(name, amount) => Named(Canonical(tree, did, name, true), B.MintOp(amount))
    case SendToken(id, name, amount, destination) =>
      Named(Canonical(tree, did, name, false), B.SendOp(id, destination, amount))
    case ReceiveToken(token, sendId, amount) => Some((token.ToString(), B.ReceiveOp(sendId, amount)))
    case _ => None
  }

  function Named(name: Result<TokenName>, op: B.Op): Option<(string, B.Op)> {
    if name.Ok? then Some((name.value.ToString(), op)) else None
  }

  /** The ledger operation on the tree; establishing an existing token is refused here. */
  function ApplyOp(tree: Node, p: Path, op: B.Op): Result<Node> {
    match op
    case EstablishOp(maximum) =>
      if Get(tree, p) != Nil then Err("token already exists") else T.EstablishToken(tree, p, maximum)
    case MintOp(amount) => T.MintToken(tree, p, amount)
    case SendOp(id, destination, amount) => T.SendToken(tree, p, id, destination, amount)
    case ReceiveOp(sendId, amount) => T.ReceiveToken(tree, p, sendId, amount)
  }

  ghost function Apply(did: string, tree: Node, tx: Transaction): Result<Node> {
    match tx
    case SetData(path, value) =>
      var parts :- Decoded(path);
      if value.None? then Err("error decoding data value")
      else if ComplexType(value.value) then T.Written(SetAsLink(tree, DATA_PATH + parts, value.value))
      else T.Written(Set(tree, DATA_PATH + parts, value.value))
    case SetOwnership(auths) => T.Written(SetAsLink(tree, AUTHENTICATIONS_PATH, Texts(auths)))
    case Stake(payload) => T.Written(SetAsLink(tree, STAKE_PATH, payload))
    case _ =>
      var op := TokenOp(did, tree, tx);
      if op.None? then Err("error getting canonical token name")
      else ApplyOp(tree, TokenPath(op.value.0), op.value.1)
  }

  lemma ReceiveApplies(did: string, tree: Node, token: TokenName, sendId: string, amount: uint64)
    ensures Apply(did, tree, ReceiveToken(token, sendId, amount)) ==
            T.ReceiveToken(tree, TokenPath(token.ToString()), sendId, amount)
  {
  }

  /** The only subtree a transaction may change. */
  ghost function Footprint(did: string, tree: Node, tx: Transaction): Path {
    match tx
    case SetData(_, _) => DATA_PATH
    case SetOwnership(_) => AUTHENTICATIONS_PATH
    case Stake(_) => STAKE_PATH
    case _ =>
      var op := TokenOp(did, tree, tx);
      if op.None? then TOKENS_PATH else TokenPath(op.value.0)
  }

  /** Every token's place holds a token of the ledger's making, or nothing. */
  ghost predicate Healthy(tree: Node) {
    forall name :: T.TokenPlace(tree, TokenPath(name))
  }

  const EMPTY_TREE := Dir(map[])

  lemma EmptyTreeHealthy()
    ensures Healthy(EMPTY_TREE)
    ensures forall name :: Get(EMPTY_TREE, TokenPath(name)) == Nil
  {
    forall name
      ensures T.TokenPlace(EMPTY_TREE, TokenPath(name)) && Get(EMPTY_TREE, TokenPath(name)) == Nil
    {
      assert TokenPath(name)[0] == "_tupelo" && TokenPath(name)[1..] == ["tokens", name];
      assert Writable(Nil, ["tokens", name]) by {
        assert ["tokens", name][1..] == [name] && [name][1..] == [];
      }
    }
  }

  // ----- Paths that are apart

  lemma WordsDiffer()
    ensures "data" != "_tupelo" && "authentications" != "tokens" && "stake" != "tokens" && "authentications" != "stake"
  {
    assert |"data"| == 4 && |"_tupelo"| == 7 && |"authentications"| == 15 && |"tokens"| == 6 && |"stake"| == 5;
  }

  lemma TokensApart(name: string, name': string)
    requires name != name'
    ensures Apart(TokenPath(name), TokenPath(name'))
  {
    assert TokenPath(name)[1..] == ["tokens", name] && ["tokens", name][1..] == [name];
    assert TokenPath(name')[1..] == ["tokens", name'] && ["tokens", name'][1..] == [name'];
  }

  lemma AreasApart(name: string)
    ensures Apart(DATA_PATH, TokenPath(name)) && Apart(DATA_PATH, AUTHENTICATIONS_PATH) && Apart(DATA_PATH, STAKE_PATH)
    ensures Apart(AUTHENTICATIONS_PATH, TokenPath(name)) && Apart(TokenPath(name), AUTHENTICATIONS_PATH)
    ensures Apart(STAKE_PATH, TokenPath(name)) && Apart(TokenPath(name), STAKE_PATH)
    ensures Apart(AUTHENTICATIONS_PATH, STAKE_PATH) && Apart(STAKE_PATH, AUTHENTICATIONS_PATH)
  {
    WordsDiffer();
    assert TokenPath(name)[1..] == ["tokens", name];
    assert AUTHENTICATIONS_PATH[1..] == ["authentications"] && STAKE_PATH[1..] == ["stake"];
  }

  // ----- Non-interference

  lemma OpRefines(tree: Node, name: string, op: B.Op)
    requires Healthy(tree)
    ensures T.TokenPlace(tree, TokenPath(name))
    ensures T.Refines(tree, TokenPath(name), ApplyOp(tree, TokenPath(name), op), op)
  {
    var p := TokenPath(name);
    assert T.TokenPlace(tree, p);
    match op
    case EstablishOp(maximum) =>
      if Get(tree, p) == Nil {
        T.EstablishRefines(tree, p, maximum);
      }
    case MintOp(amount) => T.MintRefines(tree, p, amount);
    case SendOp(id, destination, amount) => T.SendRefines(tree, p, id, destination, amount);
    case ReceiveOp(sendId, amount) => T.ReceiveRefines(tree, p, sendId, amount);
  }

  lemma WriteStaysInArea(tree: Node, area: Path, more: Path, item: Node)
    requires Set(tree, area + more, item).Some?
    ensures T.SameElsewhere(tree, Set(tree, area + more, item).value, area)
  {
    var tree' := Set(tree, area + more, item).value;
    forall q | Apart(area, q)
      ensures Get(tree', q) == Get(tree, q) && Has(tree', q) == Has(tree, q) && Writable(tree', q) == Writable(tree, q)
    {
      ApartExtends(area, q, more);
      SetFrame(tree, area + more, item, q);
    }
  }

  /** Each transaction changes nothing outside its own subtree: its data, the owner list, the stake, or one
      token's block. */
  lemma TransactionStaysInFootprint(did: string, tree: Node, tx: Transaction)
    requires Healthy(tree) && Apply(did, tree, tx).Ok?
    ensures T.SameElsewhere(tree, Apply(did, tree, tx).value, Footprint(did, tree, tx))
  {
    match tx
    case SetData(path, value) =>
      var item := if ComplexType(value.value) then Link(CidOf(value.value)) else value.value;
      WriteStaysInArea(tree, DATA_PATH, Decoded(path).value, item);
    case SetOwnership(auths) =>
      assert AUTHENTICATIONS_PATH + [] == AUTHENTICATIONS_PATH;
      WriteStaysInArea(tree, AUTHENTICATIONS_PATH, [], Link(CidOf(Texts(auths))));
    case Stake(payload) =>
      assert STAKE_PATH + [] == STAKE_PATH;
      WriteStaysInArea(tree, STAKE_PATH, [], Link(CidOf(payload)));
    case _ =>
      var op := TokenOp(did, tree, tx).value;
      OpRefines(tree, op.0, op.1);
  }

  /** What a transaction does to the book of a token: its own operation if it names the token, else nothing. */
  lemma TransactionOnToken(did: string, tree: Node, tx: Transaction, name: string)
    requires Healthy(tree) && Apply(did, tree, tx).Ok?
    ensures var tree' := Apply(did, tree, tx).value;
            var op := TokenOp(did, tree, tx);
            && T.TokenPlace(tree, TokenPath(name)) && T.TokenPlace(tree', TokenPath(name))
            && if op.Some? && op.value.0 == name
               then B.Apply(T.BookAt(tree, TokenPath(name)), op.value.1).Ok?
                    && T.BookAt(tree', TokenPath(name)) == Some(B.Apply(T.BookAt(tree, TokenPath(name)), op.value.1).value)
               else Get(tree', TokenPath(name)) == Get(tree, TokenPath(name))
  {
    var p := TokenPath(name);
    assert T.TokenPlace(tree, p);
    var op := TokenOp(did, tree, tx);
    if op.Some? && op.value.0 == name {
      OpRefines(tree, name, op.value.1);
    } else {
      TransactionStaysInFootprint(did, tree, tx);
      AreasApart(name);
      if op.Some? {
        TokensApart(op.value.0, name);
      }
      assert Apart(Footprint(did, tree, tx), p);
    }
  }

  lemma TransactionKeepsHealthy(did: string, tree: Node, tx: Transaction)
    requires Healthy(tree) && Apply(did, tree, tx).Ok?
    ensures Healthy(Apply(did, tree, tx).value)
  {
    forall name
      ensures T.TokenPlace(Apply(did, tree, tx).value, TokenPath(name))
    {
      TransactionOnToken(did, tree, tx, name);
    }
  }

  // ----- Runs of transactions

  /** The tree after a list of transactions; a failed one leaves it alone. */
  ghost function Run(did: string, txs: seq<Transaction>): Node {
    if |txs| == 0 then EMPTY_TREE
    else
      var tree := Run(did, txs[..|txs| - 1]);
      match Apply(did, tree, txs[|txs| - 1])
      case Ok(tree') => tree'
      case Err(_) => tree
  }

  /** The ledger operations that the transactions of a run put to one token. */
  ghost function OpsOf(did: string, txs: seq<Transaction>, name: string): seq<B.Op> {
    if |txs| == 0 then []
    else
      var front := txs[..|txs| - 1];
      var op := TokenOp(did, Run(did, front), txs[|txs| - 1]);
      if op.Some? && op.value.0 == name then OpsOf(did, front, name) + [op.value.1] else OpsOf(did, front, name)
  }

  lemma RunSnoc(did: string, txs: seq<Transaction>, tx: Transaction)
    ensures var tree := Run(did, txs);
            Run(did, txs + [tx]) == if Apply(did, tree, tx).Ok? then Apply(did, tree, tx).value else tree
  {
    assert (txs + [tx])[..|txs|] == txs;
  }

  lemma OpsSnoc(did: string, txs: seq<Transaction>, tx: Transaction, name: string)
    ensures var op := TokenOp(did, Run(did, txs), tx);
            OpsOf(did, txs + [tx], name) ==
            if op.Some? && op.value.0 == name then OpsOf(did, txs, name) + [op.value.1] else OpsOf(did, txs, name)
  {
    assert (txs + [tx])[..|txs|] == txs;
  }

  /** A longer run puts more operations to a token, after those of the shorter one. */
  lemma {:induction false} OpsExtend(did: string, txs: seq<Transaction>, more: seq<Transaction>, name: string)
    ensures OpsOf(did, txs, name) <= OpsOf(did, txs + more, name)
  {
    if |more| == 0 {
      assert txs + more == txs;
    } else {
      var front, tx := more[..|more| - 1], more[|more| - 1];
      OpsExtend(did, txs, front, name);
      assert txs + more == (txs + front) + [tx];
      OpsSnoc(did, txs + front, tx, name);
    }
  }

  lemma {:induction false} RunIsHealthy(did: string, txs: seq<Transaction>)
    ensures Healthy(Run(did, txs))
  {
    if |txs| == 0 {
      EmptyTreeHealthy();
    } else {
      var tree := Run(did, txs[..|txs| - 1]);
      RunIsHealthy(did, txs[..|txs| - 1]);
      if Apply(did, tree, txs[|txs| - 1]).Ok? {
        TransactionKeepsHealthy(did, tree, txs[|txs| - 1]);
      }
    }
  }

  /** In any interleaving of all the transactions of a chain, the book of a token is the one that its own
      operations alone lead to. */
  lemma {:induction false} TokenSeesOnlyItsOwnOperations(did: string, txs: seq<Transaction>, name: string)
    ensures T.TokenPlace(Run(did, txs), TokenPath(name))
    ensures T.BookAt(Run(did, txs), TokenPath(name)) == B.Run(OpsOf(did, txs, name))
  {
    RunIsHealthy(did, txs);
    assert T.TokenPlace(Run(did, txs), TokenPath(name));
    if |txs| == 0 {
      EmptyTreeHealthy();
    } else {
      var front, tx := txs[..|txs| - 1], txs[|txs| - 1];
      var tree := Run(did, front);
      RunIsHealthy(did, front);
      TokenSeesOnlyItsOwnOperations(did, front, name);
      if Apply(did, tree, tx).Ok? {
        TransactionOnToken(did, tree, tx, name);
      }
      OperationRun(did, tree, front, tx, name);
    }
  }

  /** One more transaction runs one more operation of the token, or none. */
  lemma OperationRun(did: string, tree: Node, front: seq<Transaction>, tx: Transaction, name: string)
    requires tree == Run(did, front) && Healthy(tree) && T.TokenPlace(tree, TokenPath(name))
    requires T.BookAt(tree, TokenPath(name)) == B.Run(OpsOf(did, front, name))
    ensures var op := TokenOp(did, tree, tx);
            var before := T.BookAt(tree, TokenPath(name));
            B.Run(OpsOf(did, front + [tx], name)) ==
            if op.Some? && op.value.0 == name && B.Apply(before, op.value.1).Ok?
            then Some(B.Apply(before, op.value.1).value) else before
    ensures var op := TokenOp(did, tree, tx);
            op.Some? && op.value.0 == name ==>
              (Apply(did, tree, tx).Ok? <==> B.Apply(T.BookAt(tree, TokenPath(name)), op.value.1).Ok?)
  {
    assert (front + [tx])[..|front|] == front;
    var op := TokenOp(did, tree, tx);
    if op.Some? && op.value.0 == name {
      var ops := OpsOf(did, front, name);
      assert (ops + [op.value.1])[..|ops|] == ops;
      OpRefines(tree, name, op.value.1);
    }
  }

  /** Over every run of all the transactions of a chain, the lists of a token only grow at their end, the token
      and its policy stay, and no send is received twice. */
  lemma TokenHistoryOnlyGrows(did: string, txs: seq<Transaction>, more: seq<Transaction>, name: string)
    requires Get(Run(did, txs), TokenPath(name)) != Nil
    ensures var (p, tree, tree') := (TokenPath(name), Run(did, txs), Run(did, txs + more));
            && T.TokenPlace(tree, p) && T.TokenPlace(tree', p) && T.BookAt(tree, p).Some? && T.BookAt(tree', p).Some?
            && B.Extends(T.BookAt(tree, p).value, T.BookAt(tree', p).value)
            && B.DistinctReceives(T.BookAt(tree', p).value)
  {
    TokenSeesOnlyItsOwnOperations(did, txs, name);
    TokenSeesOnlyItsOwnOperations(did, txs + more, name);
    BookOnlyGrows(did, txs, more, name);
  }

  lemma BookOnlyGrows(did: string, txs: seq<Transaction>, more: seq<Transaction>, name: string)
    requires B.Run(OpsOf(did, txs, name)).Some?
    ensures var book, book' := B.Run(OpsOf(did, txs, name)), B.Run(OpsOf(did, txs + more, name));
            book'.Some? && B.Extends(book.value, book'.value) && B.DistinctReceives(book'.value)
  {
    OpsExtend(did, txs, more, name);
    var ops, ops' := OpsOf(did, txs, name), OpsOf(did, txs + more, name);
    assert ops' == ops + ops'[|ops|..];
    B.HistoryOnlyGrows(ops, ops'[|ops|..]);
  }

  ghost function OwnerList(did: string, txs: seq<Transaction>): Node {
    Get(Run(did, txs), AUTHENTICATIONS_PATH)
  }

  /** The owner list changes only by the transaction that sets it. */
  lemma OwnersChangeOnlyBySetOwnership(did: string, txs: seq<Transaction>, more: seq<Transaction>)
    requires forall i :: 0 <= i < |more| ==> !more[i].SetOwnership?
    ensures Get(Run(did, txs + more), AUTHENTICATIONS_PATH) == Get(Run(did, txs), AUTHENTICATIONS_PATH)
  {
    OwnersSince(did, txs, txs + more);
  }

  lemma {:induction false} OwnersSince(did: string, txs: seq<Transaction>, all: seq<Transaction>)
    requires txs <= all && forall i :: |txs| <= i < |all| ==> !all[i].SetOwnership?
    ensures OwnerList(did, all) == OwnerList(did, txs)
    decreases |all|
  {
    if |all| == |txs| {
      assert all == txs;
    } else {
      OwnersSince(did, txs, all[..|all| - 1]);
      OwnersStay(did, all);
    }
  }

  lemma OwnersStay(did: string, all: seq<Transaction>)
    requires |all| > 0 && !all[|all| - 1].SetOwnership?
    ensures OwnerList(did, all) == OwnerList(did, all[..|all| - 1])
  {
    RunIsHealthy(did, all[..|all| - 1]);
    OwnersKept(did, Run(did, all[..|all| - 1]), all[|all| - 1]);
  }

  lemma OwnersKept(did: string, tree: Node, tx: Transaction)
    requires Healthy(tree) && !tx.SetOwnership?
    ensures Apply(did, tree, tx).Ok? ==>
              Get(Apply(did, tree, tx).value, AUTHENTICATIONS_PATH) == Get(tree, AUTHENTICATIONS_PATH)
  {
    if Apply(did, tree, tx).Ok? {
      TransactionStaysInFootprint(did, tree, tx);
      var op := TokenOp(did, tree, tx);
      AreasApart(if op.Some? then op.value.0 else "");
      assert Apart(Footprint(did, tree, tx), AUTHENTICATIONS_PATH);
    }
  }
}

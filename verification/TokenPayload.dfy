/** Token payloads: a send cut out of the sender's blocks, and read back by the receiver
    (consensus/transactions.go). */
module TokenPayload {
  import opened Prelude
  import opened Dag
  import opened TokenNames
  import opened TreeLedger
  import B = Books
  import T = LedgerTrees

  // ----- Blocks on a path, and resolving with some blocks only

  /** The blocks entered while a path is followed, each time a link is crossed. */
  function Visit(n: Node, path: Path): seq<Node>
    decreases |path|, n
  {
    if n.Link? then [n.cid.node] + Visit(n.cid.node, path)
    else if path != [] && path[0] in Entries(n) then Visit(Entries(n)[path[0]], path[1..])
    else []
  }

  function NodesForPath(root: Node, path: Path): seq<Node> {
    [root] + Visit(root, path)
  }

  function DerefIn(store: set<Node>, n: Node): Option<Node> {
    match n
    case Link(c) => if c.node in store then DerefIn(store, c.node) else None
    case _ => Some(n)
  }

  /** Resolving when only the blocks of `store` can be fetched. */
  function ResolveIn(store: set<Node>, n: Node, path: Path): Result<(Node, Path)>
    decreases |path|
  {
    match DerefIn(store, n)
    case None => Err("error fetching node")
    case Some(d) =>
      if path == [] then Ok((d, []))
      else if path[0] in Entries(d) then ResolveIn(store, Entries(d)[path[0]], path[1..])
      else Ok((Nil, path))
  }

  lemma {:induction false} DerefInEnough(store: set<Node>, n: Node, path: Path)
    requires forall b :: b in Visit(n, path) ==> b in store
    ensures DerefIn(store, n) == Some(Deref(n))
    ensures forall b :: b in Visit(Deref(n), path) ==> b in store
    decreases n
  {
    if n.Link? {
      assert n.cid.node in Visit(n, path);
      assert forall b :: b in Visit(n.cid.node, path) ==> b in Visit(n, path);
      DerefInEnough(store, n.cid.node, path);
    }
  }

  /** The blocks of a path are enough to resolve every prefix of it. */
  lemma {:induction false} BlocksSuffice(store: set<Node>, n: Node, path: Path, k: nat)
    requires k <= |path| && forall b :: b in Visit(n, path) ==> b in store
    ensures ResolveIn(store, n, path[..k]) == Ok(Resolve(n, path[..k]))
    decreases |path|
  {
    DerefInEnough(store, n, path);
    var d := Deref(n);
    if k > 0 && path[0] in Entries(d) {
      assert Visit(d, path) == Visit(Entries(d)[path[0]], path[1..]);
      BlocksSuffice(store, Entries(d)[path[0]], path[1..], k - 1);
      assert path[..k][1..] == path[1..][..k - 1];
    }
  }

  predicate AllIn(blocks: seq<Node>, store: set<Node>) {
    forall b :: b in blocks ==> b in store
  }

  lemma {:induction false} DerefInIff(store: set<Node>, n: Node, path: Path)
    ensures AllIn(Visit(n, path), store) <==> DerefIn(store, n).Some? && AllIn(Visit(Deref(n), path), store)
    ensures DerefIn(store, n).Some? ==> DerefIn(store, n) == Some(Deref(n))
    decreases n
  {
    if n.Link? {
      DerefInIff(store, n.cid.node, path);
      assert Visit(n, path) == [n.cid.node] + Visit(n.cid.node, path);
      assert forall b :: b in Visit(n, path) <==> b == n.cid.node || b in Visit(n.cid.node, path);
    }
  }

  /** With some blocks only, a path is resolved exactly when all its blocks are among them, and as it would be with
      all blocks. */
  lemma {:induction false} ResolveInIff(store: set<Node>, n: Node, path: Path)
    ensures ResolveIn(store, n, path).Ok? <==> AllIn(Visit(n, path), store)
    ensures ResolveIn(store, n, path).Ok? ==> ResolveIn(store, n, path) == Ok(Resolve(n, path))
    decreases |path|
  {
    DerefInIff(store, n, path);
    var d := Deref(n);
    if DerefIn(store, n).Some? && path != [] && path[0] in Entries(d) {
      assert Visit(d, path) == Visit(Entries(d)[path[0]], path[1..]);
      ResolveInIff(store, Entries(d)[path[0]], path[1..]);
    }
  }

  // ----- What the blocks of a path are

  lemma {:induction false} DerefBelow(n: Node)
    ensures Deref(n) == n || Deref(n) < n
    decreases n
  {
    if n.Link? {
      DerefBelow(n.cid.node);
    }
  }

  /** A value reached by a path is part of the node it was reached from. */
  lemma {:induction false} GetBelow(n: Node, path: Path)
    requires Has(n, path)
    ensures Get(n, path) == n || Get(n, path) < n
    ensures path != [] ==> Get(n, path) < n
    decreases |path|
  {
    DerefBelow(n);
    if path != [] {
      GetBelow(Entries(Deref(n))[path[0]], path[1..]);
    }
  }

  ghost predicate LeadsTo(b: Node, target: Node) {
    exists s :: Has(b, s) && Get(b, s) == target
  }

  lemma {:induction false} VisitedLead(n: Node, path: Path)
    requires Has(n, path)
    ensures forall b :: b in Visit(n, path) ==> LeadsTo(b, Get(n, path))
    decreases |path|, n
  {
    if n.Link? {
      VisitedLead(n.cid.node, path);
      assert Has(n.cid.node, path) && Get(n.cid.node, path) == Get(n, path);
    } else if path != [] {
      VisitedLead(Entries(n)[path[0]], path[1..]);
    }
  }

  lemma {:induction false} VisitSplit(n: Node, p: Path, q: Path)
    requires Has(n, p)
    ensures Visit(n, p + q) == Visit(n, p) + Visit(Get(n, p), q)
    decreases |p|, n
  {
    if n.Link? {
      VisitSplit(n.cid.node, p, q);
    } else if p != [] {
      assert (p + q)[1..] == p[1..] + q;
      VisitSplit(Entries(n)[p[0]], p[1..], q);
    } else {
      assert p + q == q;
    }
  }

  lemma {:induction false} ResolveSplit(n: Node, p: Path, q: Path)
    requires Has(n, p)
    ensures Resolve(n, p + q) == Resolve(Get(n, p), q)
    decreases |p|
  {
    if p == [] {
      assert p + q == q;
      DerefTwice(n);
    } else {
      assert (p + q)[1..] == p[1..] + q;
      ResolveSplit(Entries(Deref(n))[p[0]], p[1..], q);
    }
  }

  lemma {:induction false} DerefTwice(n: Node)
    ensures Deref(Deref(n)) == Deref(n)
    decreases n
  {
    if n.Link? {
      DerefTwice(n.cid.node);
    }
  }

  /** Following nothing more than links ends at the value itself, over links only. */
  lemma {:induction false} VisitLinks(n: Node)
    ensures forall b :: b in Visit(n, []) ==> b.Link? || b == Deref(n)
    decreases n
  {
    if n.Link? {
      VisitLinks(n.cid.node);
    }
  }

  // ----- The sender's side

  datatype Payload = Payload(transactionId: string, tip: Cid, leaves: seq<Node>)

  const TREE := "tree"
  const ROOT_TOKENS_PATH: Path := [TREE] + TOKENS_PATH

  function SendsPath(name: string): Path {
    ROOT_TOKENS_PATH + [name, T.SENDS]
  }

  predicate IsSend(c: Cid, id: string) {
    c.node.SendRecord? && c.node.id == id
  }

  /** The first send with the id. */
  function FirstSend(cids: seq<Cid>, id: string): Option<Cid> {
    if |cids| == 0 then None
    else if IsSend(cids[0], id) then Some(cids[0])
    else FirstSend(cids[1..], id)
  }

  function SendsAt(root: Node, name: string): Result<seq<Cid>> {
    match Get(root, SendsPath(name))
    case Nil => Ok([])
    case Cids(cids) => Ok(cids)
    case _ => Err("error resolving path")
  }

  /** The blocks on the way to a token's sends, and a send's own. */
  function PayloadOf(root: Node, name: string, id: string, send: Node): Payload {
    Payload(id, CidOf(root), NodesForPath(root, SendsPath(name)) + [send])
  }

  /** The payload for the first send with an id, if there is one. */
  function Built(root: Node, name: TokenName, id: string): Option<Payload> {
    if !name.IsCanonical() || SendsAt(root, name.ToString()).Err? then None
    else
      match FirstSend(SendsAt(root, name.ToString()).value, id)
      case None => None
      case Some(send) => Some(PayloadOf(root, name.ToString(), id, send.node))
  }

  method TokenPayloadForTransaction(root: Node, name: TokenName, id: string) returns (r: Result<Payload>)
    ensures r.Ok? <==> Built(root, name, id).Some?
    ensures r.Ok? ==> r.value == Built(root, name, id).value
  {
    if !name.IsCanonical() {
      return Err("token name must be canonical");
    }
    var tokenSends := SendsAt(root, name.ToString());
    if tokenSends.Err? {
      return Err(tokenSends.error);
    }
    var cids := tokenSends.value;
    var i := 0;
    while i < |cids| && !IsSend(cids[i], id)
      invariant 0 <= i <= |cids|
      invariant FirstSend(cids, id) == FirstSend(cids[i..], id)
    {
      i := i + 1;
    }
    if i == |cids| {
      return Err("send token transaction not found");
    }
    r := Ok(PayloadOf(root, name.ToString(), id, cids[i].node));
  }

  // ----- The receiver's side

  /** A partial DAG: a tip and the blocks that came with it. */
  datatype SenderDag = SenderDag(tip: Cid, store: set<Node>)

  /** Puts the tip's block first, where a DAG built from blocks takes its tip from. */
  method GetSenderDagFromReceive(payload: Payload) returns (r: Result<SenderDag>)
    ensures r.Ok? <==> |payload.leaves| > 0
    ensures r.Ok? ==> r.value.store == set b | b in payload.leaves
    ensures r.Ok? ==>
              r.value.tip == if payload.tip.node in payload.leaves then payload.tip else CidOf(payload.leaves[0])
  {
    if |payload.leaves| == 0 {
      return Err("error recreating sender leaves DAG");
    }
    var nodes: seq<Node> := [];
    for i := 0 to |payload.leaves|
      invariant |nodes| == i
      invariant forall b :: b in nodes <==> b in payload.leaves[..i]
      invariant payload.tip.node in nodes ==> nodes[0] == payload.tip.node
      invariant payload.tip.node !in nodes ==> nodes == payload.leaves[..i]
    {
      var node := payload.leaves[i];
      if CidOf(node) == payload.tip {
        nodes := [node] + nodes;
      } else {
        nodes := nodes + [node];
      }
    }
    assert payload.leaves[..|payload.leaves|] == payload.leaves;
    assert nodes[0] in nodes;
    r := Ok(SenderDag(CidOf(nodes[0]), set b | b in payload.leaves));
  }

  predicate IsLinkedIn(store: set<Node>, item: Node) {
    item.Link? && item.cid.node in store
  }

  /** Some entry whose block is in the store; which one depends on the order of the map. */
  method FindFirstLinkedNode<K(==)>(store: set<Node>, parent: map<K, Node>) returns (r: Result<(K, Node)>)
    ensures r.Ok? <==> exists k :: k in parent && IsLinkedIn(store, parent[k])
    ensures r.Ok? ==> r.value.0 in parent && IsLinkedIn(store, parent[r.value.0])
                      && r.value.1 == parent[r.value.0].cid.node
  {
    var keys := parent.Keys;
    while keys != {}
      invariant keys <= parent.Keys
      invariant forall k :: k in parent && k !in keys ==> !IsLinkedIn(store, parent[k])
    {
      var k :| k in keys;
      if IsLinkedIn(store, parent[k]) {
        return Ok((k, parent[k].cid.node));
      }
      keys := keys - {k};
    }
    return Err("no linked nodes were found in the DAG");
  }

  /** The token map as the receiver sees it. */
  function TokensIn(dag: SenderDag): Result<map<string, Node>> {
    var (tokens, remaining) :- ResolveIn(dag.store, dag.tip.node, ROOT_TOKENS_PATH);
    if remaining != [] || !tokens.Dir? then Err("error resolving tokens") else Ok(tokens.entries)
  }

  /** A token that the DAG holds the block of, so that reading may come upon it. */
  predicate MayName(dag: SenderDag, key: string) {
    TokensIn(dag).Ok? && key in TokensIn(dag).value && IsLinkedIn(dag.store, TokensIn(dag).value[key])
  }

  method GetTokenNameFromReceive(dag: SenderDag) returns (r: Result<TokenName>, ghost key: string)
    ensures r.Ok? <==> exists k :: MayName(dag, k)
    ensures r.Ok? ==> MayName(dag, key) && r.value == FromString(key)
  {
    key := "";
    var tokens := TokensIn(dag);
    if tokens.Err? {
      return Err(tokens.error), key;
    }
    var found := FindFirstLinkedNode(dag.store, tokens.value);
    if found.Err? {
      assert forall k :: !MayName(dag, k);
      return Err(found.error), key;
    }
    key := found.value.0;
    assert MayName(dag, key);
    r := Ok(FromString(found.value.0));
  }

  /** The rune that the conversion of an index to a string makes: surrogates and numbers beyond Unicode all
      become the replacement character. */
  function RuneOf(i: nat): nat {
    if 0xD800 <= i <= 0xDFFF || i > 0x10FFFF then 0xFFFD else i
  }

  /** No later index has the same rune, so the entry is not overwritten. */
  predicate Survives(n: nat, i: nat) {
    i < n && forall j :: i < j < n ==> RuneOf(j) != RuneOf(i)
  }

  /** The entry at `i` is the one that its rune leads to, and its block is there. */
  predicate FoundAt(store: set<Node>, cids: seq<Cid>, i: nat) {
    Survives(|cids|, i) && cids[i].node in store
  }

  function SendsIn(dag: SenderDag, name: string): Result<seq<Cid>> {
    var (sends, remaining) :- ResolveIn(dag.store, dag.tip.node, SendsPath(name));
    if remaining != [] || !sends.Cids? then Err("error resolving token sends") else Ok(sends.cids)
  }

  function SendOf(n: Node): B.Send
    requires n.SendRecord?
  {
    B.Send(n.id, n.sent, n.destination)
  }

  /** A send that reading the DAG under a token may come upon. */
  ghost predicate MaySend(dag: SenderDag, name: string, s: B.Send) {
    && SendsIn(dag, name).Ok?
    && exists i: nat :: FoundAt(dag.store, SendsIn(dag, name).value, i)
                        && SendsIn(dag, name).value[i].node == SendRecord(s.id, s.amount, s.destination)
  }

  /** Reading the DAG under a token may fail: there is no list, no block of the list, or one that is no send. */
  ghost predicate MayLackSend(dag: SenderDag, name: string) {
    SendsIn(dag, name).Ok? ==>
      || (forall i: nat :: !FoundAt(dag.store, SendsIn(dag, name).value, i))
      || (exists i: nat :: FoundAt(dag.store, SendsIn(dag, name).value, i) && !SendsIn(dag, name).value[i].node.SendRecord?)
  }

  /** Collects the sends in a map keyed by runes, then takes some one whose block is there. */
  method GetSendTokenFromReceive(dag: SenderDag, tokenName: TokenName) returns (r: Result<B.Send>)
    ensures r.Ok? ==> MaySend(dag, tokenName.ToString(), r.value)
    ensures r.Err? ==> MayLackSend(dag, tokenName.ToString())
  {
    var sends := SendsIn(dag, tokenName.ToString());
    if sends.Err? {
      return Err(sends.error);
    }
    var cids := sends.value;
    var byRune: map<nat, Node> := map[];
    ghost var index: map<nat, nat> := map[];
    for i := 0 to |cids|
      invariant byRune.Keys == index.Keys
      invariant forall k :: k in index ==> index[k] < i && RuneOf(index[k]) == k && byRune[k] == Link(cids[index[k]])
      invariant forall j :: 0 <= j < i ==> RuneOf(j) in index && j <= index[RuneOf(j)]
    {
      byRune := byRune[RuneOf(i) := Link(cids[i])];
      index := index[RuneOf(i) := i];
    }
    var found := FindFirstLinkedNode(dag.store, byRune);
    if found.Err? {
      forall i: nat | Survives(|cids|, i)
        ensures !FoundAt(dag.store, cids, i)
      {
        assert index[RuneOf(i)] == i && byRune[RuneOf(i)] == Link(cids[i]);
      }
      return Err(found.error);
    }
    ghost var i := index[found.value.0];
    assert FoundAt(dag.store, cids, i) && cids[i].node == found.value.1 && cids[i] in cids;
    if !found.value.1.SendRecord? {
      return Err("error decoding token send node");
    }
    r := Ok(SendOf(found.value.1));
  }

  // ----- The round trip

  /** A chain whose tokens are linked blocks, as the ledger leaves them. */
  predicate SenderChain(root: Node, tokens: map<string, Node>) {
    && !root.Link?
    && Resolve(root, ROOT_TOKENS_PATH) == (Dir(tokens), [])
    && forall k :: k in tokens ==> tokens[k].Link? && T.IsToken(tokens[k].cid.node) && ':' in k
  }

  /** The blocks of a payload for one token and one send. */
  function PayloadBlocks(root: Node, name: string, send: Node): set<Node> {
    set b | b in NodesForPath(root, SendsPath(name)) + [send]
  }

  lemma TokenSteps(root: Node, tokens: map<string, Node>, name: string)
    requires SenderChain(root, tokens) && name in tokens
    ensures Has(root, ROOT_TOKENS_PATH + [name]) && Get(root, ROOT_TOKENS_PATH + [name]) == tokens[name].cid.node
    ensures Get(root, SendsPath(name)) == Deref(Child(tokens[name].cid.node, T.SENDS))
    ensures T.SENDS in Entries(tokens[name].cid.node) ==> Has(root, SendsPath(name))
    ensures Visit(root, SendsPath(name)) ==
            Visit(root, ROOT_TOKENS_PATH) + ([tokens[name].cid.node] + Visit(tokens[name].cid.node, [T.SENDS]))
  {
    var t := tokens[name].cid.node;
    ResolveSplit(root, ROOT_TOKENS_PATH, [name]);
    assert Entries(Dir(tokens))[name] == tokens[name] && [name][1..] == [];
    assert Deref(tokens[name]) == t;
    VisitSplit(root, ROOT_TOKENS_PATH, [name, T.SENDS]);
    assert [name, T.SENDS][1..] == [T.SENDS];
    assert SendsPath(name) == (ROOT_TOKENS_PATH + [name]) + [T.SENDS];
    GetStep(root, ROOT_TOKENS_PATH + [name], T.SENDS);
    ResolveSplit(root, ROOT_TOKENS_PATH + [name], [T.SENDS]);
    assert [T.SENDS][1..] == [];
  }

  /** The receiver sees the sender's token map, and finds the token's own block. */
  lemma ReceiverSees(root: Node, tokens: map<string, Node>, name: string, send: Node)
    requires SenderChain(root, tokens) && name in tokens
    ensures var dag := SenderDag(CidOf(root), PayloadBlocks(root, name, send));
            && TokensIn(dag) == Ok(tokens)
            && IsLinkedIn(dag.store, tokens[name])
  {
    var store := PayloadBlocks(root, name, send);
    assert forall b :: b in Visit(root, SendsPath(name)) ==> b in NodesForPath(root, SendsPath(name)) + [send];
    BlocksSuffice(store, root, SendsPath(name), |ROOT_TOKENS_PATH|);
    assert SendsPath(name)[..|ROOT_TOKENS_PATH|] == ROOT_TOKENS_PATH;
    TokenSteps(root, tokens, name);
    assert tokens[name].cid.node in Visit(root, SendsPath(name));
  }

  /** So it does under any other name of the same block. */
  lemma ReceiverSeesSends(root: Node, tokens: map<string, Node>, name: string, send: Node, k: string)
    requires SenderChain(root, tokens) && name in tokens && k in tokens && tokens[k] == tokens[name]
    ensures ResolveIn(PayloadBlocks(root, name, send), root, SendsPath(k)) == Ok(Resolve(root, SendsPath(k)))
  {
    TokenSteps(root, tokens, name);
    TokenSteps(root, tokens, k);
    BlocksSuffice(PayloadBlocks(root, name, send), root, SendsPath(k), |SendsPath(k)|);
    assert SendsPath(k)[..|SendsPath(k)|] == SendsPath(k);
  }

  lemma BlocksAboveTokens(root: Node, tokens: map<string, Node>, k: string, b: Node)
    requires SenderChain(root, tokens) && k in tokens && LeadsTo(b, Dir(tokens))
    ensures tokens[k].cid.node != b
  {
    var s :| Has(b, s) && Get(b, s) == Dir(tokens);
    ResolveSplit(b, s, [k]);
    assert Entries(Dir(tokens))[k] == tokens[k] && [k][1..] == [];
    assert Get(b, s + [k]) == Deref(tokens[k]) == tokens[k].cid.node;
    GetBelow(b, s + [k]);
  }

  /** A payload holds blocks above the tokens, the token's own, its list of sends, and the send. */
  lemma PayloadBlockIs(root: Node, tokens: map<string, Node>, name: string, send: Node, b: Node)
    requires SenderChain(root, tokens) && name in tokens && b in PayloadBlocks(root, name, send)
    ensures LeadsTo(b, Dir(tokens)) || b == tokens[name].cid.node || b.Link? || b.Nil? || b.Cids? || b == send
  {
    var t := tokens[name].cid.node;
    TokenSteps(root, tokens, name);
    if b == root {
      assert Has(root, ROOT_TOKENS_PATH) && Get(root, ROOT_TOKENS_PATH) == Dir(tokens);
    } else if b in Visit(root, ROOT_TOKENS_PATH) {
      VisitedLead(root, ROOT_TOKENS_PATH);
    } else if b in Visit(t, [T.SENDS]) {
      assert [T.SENDS][1..] == [];
      VisitLinks(Entries(t)[T.SENDS]);
    }
  }

  /** The only token block in a payload is the token's own. */
  lemma OnlyTokenBlock(root: Node, tokens: map<string, Node>, name: string, send: Node, k: string)
    requires SenderChain(root, tokens) && name in tokens && k in tokens && send.SendRecord?
    requires tokens[k].cid.node in PayloadBlocks(root, name, send)
    ensures tokens[k].cid.node == tokens[name].cid.node
  {
    var b := tokens[k].cid.node;
    PayloadBlockIs(root, tokens, name, send, b);
    if LeadsTo(b, Dir(tokens)) {
      BlocksAboveTokens(root, tokens, k, b);
    }
  }

  /** The only send block in a payload is the one that was asked for. */
  lemma OnlySendBlock(root: Node, tokens: map<string, Node>, name: string, send: Node, other: Node)
    requires SenderChain(root, tokens) && name in tokens && other.SendRecord?
    requires other in PayloadBlocks(root, name, send)
    ensures other == send
  {
    PayloadBlockIs(root, tokens, name, send, other);
  }

  lemma OnlyListedSend(root: Node, tokens: map<string, Node>, name: string, send: Node)
    requires SenderChain(root, tokens) && name in tokens
    ensures forall c :: c in T.ListOf(tokens[name].cid.node, T.SENDS) ==>
                          (c.node in PayloadBlocks(root, name, send) <==> c.node == send)
  {
    forall c | c in T.ListOf(tokens[name].cid.node, T.SENDS)
      ensures c.node in PayloadBlocks(root, name, send) <==> c.node == send
    {
      if c.node in PayloadBlocks(root, name, send) {
        OnlySendBlock(root, tokens, name, send, c.node);
      }
    }
  }

  lemma {:induction false} FirstSendIsListed(cids: seq<Cid>, id: string)
    requires FirstSend(cids, id).Some?
    ensures FirstSend(cids, id).value in cids && IsSend(FirstSend(cids, id).value, id)
  {
    if !IsSend(cids[0], id) {
      FirstSendIsListed(cids[1..], id);
    }
  }

  // ----- What a built payload reads as

  /** The DAG that the payload for a send decodes to. */
  function BuiltDag(root: Node, name: string, send: Node): SenderDag {
    SenderDag(CidOf(root), PayloadBlocks(root, name, send))
  }

  /** The tokens that a payload may be read as are those with the very block of the token it was built for. */
  lemma BuiltNames(root: Node, tokens: map<string, Node>, name: string, send: Node, k: string)
    requires SenderChain(root, tokens) && name in tokens && send.SendRecord?
    ensures MayName(BuiltDag(root, name, send), k) <==> k in tokens && tokens[k] == tokens[name]
  {
    ReceiverSees(root, tokens, name, send);
    if MayName(BuiltDag(root, name, send), k) {
      OnlyTokenBlock(root, tokens, name, send, k);
    }
  }

  /** An entry of the list is not overwritten in the map of runes and holds this block. */
  ghost predicate Survivor(cids: seq<Cid>, send: Node) {
    exists i: nat :: Survives(|cids|, i) && cids[i].node == send
  }

  function ListedSends(tokens: map<string, Node>, name: string): seq<Cid>
    requires name in tokens && tokens[name].Link?
  {
    T.ListOf(tokens[name].cid.node, T.SENDS)
  }

  /** Under each of these tokens the receiver sees the sender's list, and in it just the one send. */
  lemma BuiltSends(root: Node, tokens: map<string, Node>, name: string, send: Node, k: string)
    requires SenderChain(root, tokens) && name in tokens && CidOf(send) in ListedSends(tokens, name)
    requires k in tokens && tokens[k] == tokens[name]
    ensures FromString(k).ToString() == k
    ensures SendsIn(BuiltDag(root, name, send), k) == Ok(ListedSends(tokens, name))
    ensures forall i: nat :: FoundAt(PayloadBlocks(root, name, send), ListedSends(tokens, name), i) <==>
                               Survives(|ListedSends(tokens, name)|, i) && ListedSends(tokens, name)[i].node == send
  {
    var cids := ListedSends(tokens, name);
    ParseThenPrint(k);
    TokenSteps(root, tokens, k);
    ReceiverSeesSends(root, tokens, name, send, k);
    OnlyListedSend(root, tokens, name, send);
    assert forall i: nat :: Survives(|cids|, i) ==> cids[i] in cids;
  }

  /** A payload can be read only as a token with that block and as the send it was built for, and is read
      whenever an entry of the send survives; otherwise reading always fails. */
  lemma BuiltReads(root: Node, tokens: map<string, Node>, name: string, send: Node, key: string, s: B.Send)
    requires SenderChain(root, tokens) && name in tokens && CidOf(send) in ListedSends(tokens, name)
    ensures send.SendRecord?
    ensures Reads(BuiltDag(root, name, send), key, s) <==>
            key in tokens && tokens[key] == tokens[name] && s == SendOf(send) && Survivor(ListedSends(tokens, name), send)
  {
    var dag, cids := BuiltDag(root, name, send), ListedSends(tokens, name);
    assert T.IsToken(tokens[name].cid.node) && CidOf(send).node.SendRecord?;
    BuiltNames(root, tokens, name, send, key);
    if MayName(dag, key) {
      BuiltSends(root, tokens, name, send, key);
      if Survivor(cids, send) {
        var i: nat :| Survives(|cids|, i) && cids[i].node == send;
        assert FoundAt(dag.store, cids, i);
      }
    }
  }

  lemma BuiltFails(root: Node, tokens: map<string, Node>, name: string, send: Node)
    requires SenderChain(root, tokens) && name in tokens && CidOf(send) in ListedSends(tokens, name)
    ensures Fails(BuiltDag(root, name, send)) <==> !Survivor(ListedSends(tokens, name), send)
  {
    var dag, cids := BuiltDag(root, name, send), ListedSends(tokens, name);
    assert T.IsToken(tokens[name].cid.node) && CidOf(send).node.SendRecord?;
    BuiltNames(root, tokens, name, send, name);
    BuiltSends(root, tokens, name, send, name);
    forall k | MayName(dag, k)
      ensures MayLackSend(dag, FromString(k).ToString()) <==> !Survivor(cids, send)
    {
      BuiltNames(root, tokens, name, send, k);
      BuiltSends(root, tokens, name, send, k);
      if Survivor(cids, send) {
        var i: nat :| Survives(|cids|, i) && cids[i].node == send;
        assert FoundAt(dag.store, cids, i);
      }
    }
  }

  // ----- Runes

  /** An index that stands for no rune of its own. */
  predicate Replaced(i: nat) {
    0xD800 <= i <= 0xDFFF || i == 0xFFFD || i > 0x10FFFF
  }

  lemma RunesCollideIff(i: nat, j: nat)
    ensures RuneOf(i) == RuneOf(j) <==> i == j || (Replaced(i) && Replaced(j))
  {
  }

  /** In a list of at most 0xD801 sends no entry is overwritten; in every longer one some entry is. */
  lemma AllSurviveIff(n: nat)
    ensures (forall i: nat :: i < n ==> Survives(n, i)) <==> n <= 0xD801
  {
    if n > 0xD801 {
      assert RuneOf(0xD801) == RuneOf(0xD800);
      assert !Survives(n, 0xD800);
    }
  }

  predicate DistinctCids(cids: seq<Cid>) {
    forall i, j :: 0 <= i < j < |cids| ==> cids[i] != cids[j]
  }

  /** In a list of more than 0xD801 different sends the one at 0xD800 is lost. */
  lemma LongListsLoseASend(cids: seq<Cid>)
    requires |cids| > 0xD801 && DistinctCids(cids)
    ensures !Survivor(cids, cids[0xD800].node)
  {
    assert RuneOf(0xD801) == RuneOf(0xD800);
    forall i: nat | Survives(|cids|, i)
      ensures cids[i].node != cids[0xD800].node
    {
      assert i != 0xD800;
      assert cids[i] != cids[0xD800];
    }
  }

  /** So a payload built for it cannot be read, by any order of the maps. */
  lemma LostSendIsNotRead(root: Node, tokens: map<string, Node>, name: string, key: string, s: B.Send)
    requires SenderChain(root, tokens) && name in tokens
    requires |ListedSends(tokens, name)| > 0xD801 && DistinctCids(ListedSends(tokens, name))
    ensures var send := ListedSends(tokens, name)[0xD800].node;
            Fails(BuiltDag(root, name, send)) && !Reads(BuiltDag(root, name, send), key, s)
  {
    var cids := ListedSends(tokens, name);
    assert cids[0xD800] in cids;
    LongListsLoseASend(cids);
    BuiltReads(root, tokens, name, cids[0xD800].node, key, s);
    BuiltFails(root, tokens, name, cids[0xD800].node);
  }

  // ----- The round trip

  lemma BuiltIsFirst(root: Node, tokens: map<string, Node>, name: TokenName, id: string)
    requires SenderChain(root, tokens) && name.ToString() in tokens && name.IsCanonical()
    ensures var first := FirstSend(ListedSends(tokens, name.ToString()), id);
            if first.None? then Built(root, name, id) == None
            else
              && Built(root, name, id) == Some(PayloadOf(root, name.ToString(), id, first.value.node))
              && first.value in ListedSends(tokens, name.ToString()) && IsSend(first.value, id)
  {
    TokenSteps(root, tokens, name.ToString());
    if FirstSend(ListedSends(tokens, name.ToString()), id).Some? {
      FirstSendIsListed(ListedSends(tokens, name.ToString()), id);
    }
  }

  lemma SurvivesIfShort(cids: seq<Cid>, send: Node)
    requires CidOf(send) in cids && |cids| <= 0xD801
    ensures Survivor(cids, send)
  {
    AllSurviveIff(|cids|);
    var i :| 0 <= i < |cids| && cids[i] == CidOf(send);
    assert Survives(|cids|, i);
  }

  /** Every reading gives the token's name exactly when it prints and parses to itself and no other token of
      the chain has the same block. */
  lemma NameComesBackIff(root: Node, tokens: map<string, Node>, name: TokenName, send: Node)
    requires SenderChain(root, tokens) && name.ToString() in tokens && send.SendRecord?
    ensures (forall k :: MayName(BuiltDag(root, name.ToString(), send), k) ==> FromString(k) == name) <==>
            && ':' !in name.local
            && forall k :: k in tokens && tokens[k] == tokens[name.ToString()] ==> k == name.ToString()
  {
    var n := name.ToString();
    var dag := BuiltDag(root, n, send);
    PrintThenParse(name);
    forall k
      ensures MayName(dag, k) <==> k in tokens && tokens[k] == tokens[n]
    {
      BuiltNames(root, tokens, n, send, k);
    }
    assert MayName(dag, n);
    forall k | MayName(dag, k) && FromString(k) == name
      ensures k == n
    {
      ParseThenPrint(k);
    }
  }

  /** Builds a payload and decodes it. The tip comes back; so does the token, up to tokens with the very same
      block; and the send comes back exactly when an entry of it survives the collection by rune. */
  method RoundTrip(root: Node, name: TokenName, id: string, ghost tokens: map<string, Node>)
    returns (dag: SenderDag, token: Result<TokenName>, send: Result<B.Send>, ghost key: string)
    requires SenderChain(root, tokens) && name.ToString() in tokens && name.IsCanonical()
    requires FirstSend(ListedSends(tokens, name.ToString()), id).Some?
    ensures dag.tip == CidOf(root)
    ensures forall k :: MayName(dag, k) <==> k in tokens && tokens[k] == tokens[name.ToString()]
    ensures token.Ok? && MayName(dag, key) && token.value == FromString(key)
    ensures var cids := ListedSends(tokens, name.ToString());
            var first := FirstSend(cids, id).value.node;
            && (send.Ok? <==> Survivor(cids, first))
            && (send.Ok? ==> send.value == B.Send(id, first.sent, first.destination))
            && (|cids| <= 0xD801 ==> send.Ok?)
  {
    ghost var n := name.ToString();
    ghost var first := FirstSend(ListedSends(tokens, n), id).value.node;
    BuiltIsFirst(root, tokens, name, id);
    var payload := TokenPayloadForTransaction(root, name, id);
    var sender := GetSenderDagFromReceive(payload.value);
    assert payload.value.leaves[0] == root;
    dag := sender.value;
    assert dag == BuiltDag(root, n, first);
    forall k
      ensures MayName(dag, k) <==> k in tokens && tokens[k] == tokens[n]
    {
      BuiltNames(root, tokens, n, first, k);
    }
    assert MayName(dag, n);
    token, key := GetTokenNameFromReceive(dag);
    send := GetSendTokenFromReceive(dag, token.value);
    BuiltFails(root, tokens, n, first);
    if send.Ok? {
      BuiltReads(root, tokens, n, first, key, send.value);
    }
    if |ListedSends(tokens, n)| <= 0xD801 {
      SurvivesIfShort(ListedSends(tokens, n), first);
    }
  }

  // ----- The recipient check

  /** A send that reading the DAG under some token of it can give. */
  ghost predicate Reads(dag: SenderDag, key: string, s: B.Send) {
    MayName(dag, key) && MaySend(dag, FromString(key).ToString(), s)
  }

  /** Reading the DAG may fail. */
  ghost predicate Fails(dag: SenderDag) {
    || (forall k :: !MayName(dag, k))
    || (exists k :: MayName(dag, k) && MayLackSend(dag, FromString(k).ToString()))
  }

  /** The DAG that decoding the leaves leads to. */
  ghost predicate DagOf(payload: Payload, dag: SenderDag) {
    && |payload.leaves| > 0 && dag.store == (set b | b in payload.leaves)
    && dag.tip == if payload.tip.node in payload.leaves then payload.tip else CidOf(payload.leaves[0])
  }

  ghost predicate MayDecode(payload: Payload, s: B.Send) {
    exists dag, key :: DagOf(payload, dag) && Reads(dag, key, s)
  }

  ghost predicate MayNotDecode(payload: Payload) {
    |payload.leaves| == 0 || exists dag :: DagOf(payload, dag) && Fails(dag)
  }

  ghost predicate MaySendTo(payload: Payload, did: string) {
    exists s :: MayDecode(payload, s) && s.destination == did
  }

  method DecodeSend(payload: Payload) returns (r: Result<B.Send>)
    ensures r.Ok? ==> MayDecode(payload, r.value)
    ensures r.Err? ==> MayNotDecode(payload)
  {
    var dag := GetSenderDagFromReceive(payload);
    if dag.Err? {
      return Err(dag.error);
    }
    var token;
    ghost var key;
    token, key := GetTokenNameFromReceive(dag.value);
    assert DagOf(payload, dag.value);
    if token.Err? {
      return Err(token.error);
    }
    r := GetSendTokenFromReceive(dag.value, token.value);
    assert r.Ok? ==> Reads(dag.value, key, r.value);
    assert r.Err? ==> Fails(dag.value);
  }

  /** Every receive of a block must carry a send to this chain. */
  method IsTokenRecipient(did: string, payloads: seq<Payload>) returns (r: Result<bool>)
    ensures r == Ok(true) ==> forall j :: 0 <= j < |payloads| ==> MaySendTo(payloads[j], did)
    ensures r == Ok(false) ==> exists j, s :: 0 <= j < |payloads| && MayDecode(payloads[j], s) && s.destination != did
    ensures r.Err? ==> exists j :: 0 <= j < |payloads| && MayNotDecode(payloads[j])
  {
    for i := 0 to |payloads|
      invariant forall j :: 0 <= j < i ==> MaySendTo(payloads[j], did)
    {
      var send := DecodeSend(payloads[i]);
      if send.Err? {
        return Err(send.error);
      }
      if did != send.value.destination {
        return Ok(false);
      }
    }
    return Ok(true);
  }

  /** A payload built for a send has one reading, whatever the order of the maps: that send, if an entry of it
      survives, and otherwise a failure. So the recipient check of such payloads is decided by their sends. */
  lemma BuiltPayloadReadsOneWay(root: Node, tokens: map<string, Node>, name: string, id: string, send: Node, s: B.Send)
    requires SenderChain(root, tokens) && name in tokens && CidOf(send) in ListedSends(tokens, name)
    ensures send.SendRecord?
    ensures MayDecode(PayloadOf(root, name, id, send), s) <==> Survivor(ListedSends(tokens, name), send) && s == SendOf(send)
    ensures MayNotDecode(PayloadOf(root, name, id, send)) <==> !Survivor(ListedSends(tokens, name), send)
  {
    var payload, dag := PayloadOf(root, name, id, send), BuiltDag(root, name, send);
    BuiltDagIs(root, name, id, send);
    BuiltFails(root, tokens, name, send);
    BuiltReads(root, tokens, name, send, name, s);
    if MayDecode(payload, s) {
      var d, key :| DagOf(payload, d) && Reads(d, key, s);
      BuiltReads(root, tokens, name, send, key, s);
    }
  }

  lemma BuiltDagIs(root: Node, name: string, id: string, send: Node)
    ensures forall dag :: DagOf(PayloadOf(root, name, id, send), dag) <==> dag == BuiltDag(root, name, send)
  {
    assert PayloadOf(root, name, id, send).leaves[0] == root;
  }
}

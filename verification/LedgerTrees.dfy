/** The ledger operations as rewritings of a chain's tree, and their refinement of books
    (consensus/tree_ledger.go). A tree is a value; `TreeLedger` holds one and replaces it. */
module LedgerTrees {
  import opened Prelude
  import opened Dag
  import opened Books

  const BALANCE := "balance"
  const POLICY := "monetaryPolicy"
  const MINTS := "mints"
  const SENDS := "sends"
  const RECEIVES := "receives"

  const EMPTY_TOKEN := Dir(map[POLICY := Nil, MINTS := Nil, SENDS := Nil, RECEIVES := Nil, BALANCE := Num(0)])

  function Written(t: Option<Node>): Result<Node> {
    if t.None? then Err("error setting") else Ok(t.value)
  }

  // ----- Reading

  function BalanceAt(tree: Node, p: Path): Result<uint64> {
    var b := Get(tree, p + [BALANCE]);
    if b.Num? then Ok(b.n) else Err("error resolving token")
  }

  function PolicyAt(tree: Node, p: Path): Result<uint64> {
    var m := Get(tree, p + [POLICY]);
    if m.Policy? then Ok(m.maximum) else Err("error decoding token monetary policy")
  }

  /** A list of transactions; a missing list is empty. */
  function CidsAt(tree: Node, p: Path, key: string): Result<seq<Cid>> {
    match Get(tree, p + [key])
    case Nil => Ok([])
    case Cids(cids) => Ok(cids)
    case _ => Err("error resolving path")
  }

  /** The amount in a transaction block, whichever kind it is. */
  function AmountOf(c: Cid): Option<uint64> {
    match c.node
    case MintRecord(a) => Some(a)
    case SendRecord(_, a, _) => Some(a)
    case ReceiveRecord(_, a) => Some(a)
    case _ => None
  }

  function SumAmounts(cids: seq<Cid>): Result<uint64> {
    if |cids| == 0 then Ok(0)
    else
      var sum :- SumAmounts(cids[..|cids| - 1]);
      match AmountOf(cids[|cids| - 1])
      case None => Err("error fetching amount")
      case Some(a) => Ok(Add64(sum, a))
  }

  /** Whether some receive in the list has this send id; a block that is no receive is an error. */
  function FindReceive(cids: seq<Cid>, sendId: string): Result<bool> {
    if |cids| == 0 then Ok(false)
    else if !cids[0].node.ReceiveRecord? then Err("error decoding token receive node")
    else if cids[0].node.sendId == sendId then Ok(true)
    else FindReceive(cids[1..], sendId)
  }

  // ----- Writing

  function CreateToken(tree: Node, p: Path): Result<Node> {
    var created :- Written(SetAsLink(tree, p, EMPTY_TOKEN));
    Written(Set(created, p + [BALANCE], Num(0)))
  }

  function EstablishToken(tree: Node, p: Path, maximum: uint64): Result<Node> {
    var created :- CreateToken(tree, p);
    Written(SetAsLink(created, p + [POLICY], Policy(maximum)))
  }

  /** Appends a transaction to a list and stores the new balance. */
  function Record(tree: Node, p: Path, key: string, cids: seq<Cid>, record: Node, balance: uint64): Result<Node> {
    var listed :- Written(SetAsLink(tree, p + [key], Cids(cids + [CidOf(record)])));
    Written(Set(listed, p + [BALANCE], Num(balance)))
  }

  function MintToken(tree: Node, p: Path, amount: uint64): Result<Node> {
    if amount == 0 then Err("must mint amount greater than 0")
    else
      var maximum :- PolicyAt(tree, p);
      var mints :- CidsAt(tree, p, MINTS);
      var total :- if maximum > 0 then SumAmounts(mints) else Ok(0);
      if maximum > 0 && Add64(total, amount) > maximum then Err("new mint would violate monetaryPolicy")
      else
        var balance :- BalanceAt(tree, p);
        Record(tree, p, MINTS, mints, MintRecord(amount), Add64(balance, amount))
  }

  function SendToken(tree: Node, p: Path, id: string, destination: string, amount: uint64): Result<Node> {
    if amount == 0 then Err("must send an amount greater than 0")
    else
      var available :- BalanceAt(tree, p);
      if available < amount then Err("balance is too low")
      else
        var sends :- CidsAt(tree, p, SENDS);
        Record(tree, p, SENDS, sends, SendRecord(id, amount, destination), available - amount)
  }

  /** Receiving creates the token where it does not exist yet. */
  function ReceiveToken(tree: Node, p: Path, sendId: string, amount: uint64): Result<Node> {
    var tree' :- if Get(tree, p) == Nil then CreateToken(tree, p) else Ok(tree);
    var receives :- CidsAt(tree', p, RECEIVES);
    var found :- FindReceive(receives, sendId);
    if found then Err("transaction id already exists")
    else
      var balance :- BalanceAt(tree', p);
      Record(tree', p, RECEIVES, receives, ReceiveRecord(sendId, amount), Add64(balance, amount))
  }

  // ----- The book in a token's block

  function ListOf(t: Node, key: string): seq<Cid> {
    var l := Deref(Child(t, key));
    if l.Cids? then l.cids else []
  }

  predicate IsList(t: Node, key: string) {
    var l := Deref(Child(t, key));
    l.Nil? || l.Cids?
  }

  /** The shape that the ledger gives a token's block. */
  predicate IsToken(t: Node) {
    && t.Dir?
    && Child(t, BALANCE).Num?
    && (Deref(Child(t, POLICY)).Nil? || Deref(Child(t, POLICY)).Policy?)
    && IsList(t, MINTS) && (forall c :: c in ListOf(t, MINTS) ==> c.node.MintRecord?)
    && IsList(t, SENDS) && (forall c :: c in ListOf(t, SENDS) ==> c.node.SendRecord?)
    && IsList(t, RECEIVES) && (forall c :: c in ListOf(t, RECEIVES) ==> c.node.ReceiveRecord?)
  }

  function MintsOf(cids: seq<Cid>): seq<uint64>
    requires forall c :: c in cids ==> c.node.MintRecord?
  {
    seq(|cids|, (i: nat) requires i < |cids| => assert cids[i] in cids; cids[i].node.minted)
  }

  function SendsOf(cids: seq<Cid>): seq<Send>
    requires forall c :: c in cids ==> c.node.SendRecord?
  {
    seq(|cids|, (i: nat) requires i < |cids| =>
      assert cids[i] in cids; Send(cids[i].node.id, cids[i].node.sent, cids[i].node.destination))
  }

  function ReceivesOf(cids: seq<Cid>): seq<Receive>
    requires forall c :: c in cids ==> c.node.ReceiveRecord?
  {
    seq(|cids|, (i: nat) requires i < |cids| =>
      assert cids[i] in cids; Receive(cids[i].node.sendId, cids[i].node.received))
  }

  function BookOf(t: Node): Book
    requires IsToken(t)
  {
    var policy := Deref(Child(t, POLICY));
    Book(if policy.Policy? then Some(policy.maximum) else None,
         MintsOf(ListOf(t, MINTS)), SendsOf(ListOf(t, SENDS)), ReceivesOf(ListOf(t, RECEIVES)),
         Child(t, BALANCE).n)
  }

  /** A path holds a token or nothing, and nothing is in its way. */
  predicate TokenPlace(tree: Node, p: Path) {
    |p| > 0 && Writable(tree, p) && (Get(tree, p) == Nil || IsToken(Get(tree, p)))
  }

  function BookAt(tree: Node, p: Path): Option<Book>
    requires TokenPlace(tree, p)
  {
    if Get(tree, p) == Nil then None else Some(BookOf(Get(tree, p)))
  }

  /** The tree is the same everywhere apart from one path. */
  ghost predicate SameElsewhere(tree: Node, tree': Node, p: Path) {
    forall q :: Apart(p, q) ==>
                  Get(tree', q) == Get(tree, q) && Has(tree', q) == Has(tree, q) && Writable(tree', q) == Writable(tree, q)
  }

  // ----- How one write changes a token's block

  lemma FieldWritten(tree: Node, p: Path, key: string, item: Node)
    requires |p| > 0 && Writable(tree, p) && (Get(tree, p).Dir? || Get(tree, p).Nil?)
    ensures Set(tree, p + [key], item).Some?
    ensures var tree' := Set(tree, p + [key], item).value;
            && Get(tree', p) == Dir(Entries(Get(tree, p))[key := item])
            && Writable(tree', p)
            && SameElsewhere(tree, tree', p)
  {
    EntryWritable(tree, p, key);
    SetSucceeds(tree, p + [key], item);
    SetEntry(tree, p, key, item);
    SetWritable(tree, p, key, item);
    forall q | Apart(p, q)
      ensures var tree' := Set(tree, p + [key], item).value;
              Get(tree', q) == Get(tree, q) && Has(tree', q) == Has(tree, q) && Writable(tree', q) == Writable(tree, q)
    {
      ApartExtends(p, q, [key]);
      SetFrame(tree, p + [key], item, q);
    }
  }

  /** Storing a list and a balance changes the block's list and balance. */
  lemma RecordWritten(tree: Node, p: Path, key: string, cids: seq<Cid>, record: Node, balance: uint64)
    requires |p| > 0 && Writable(tree, p) && Get(tree, p).Dir?
    ensures Record(tree, p, key, cids, record, balance).Ok?
    ensures var tree' := Record(tree, p, key, cids, record, balance).value;
            && Get(tree', p) == Dir(Get(tree, p).entries[key := Link(CidOf(Cids(cids + [CidOf(record)])))]
                                                        [BALANCE := Num(balance)])
            && Writable(tree', p)
            && SameElsewhere(tree, tree', p)
  {
    var link := Link(CidOf(Cids(cids + [CidOf(record)])));
    FieldWritten(tree, p, key, link);
    FieldWritten(Set(tree, p + [key], link).value, p, BALANCE, Num(balance));
  }

  /** Writing a linked block at a path that can be written. */
  lemma BlockLinked(tree: Node, p: Path, block: Node)
    requires |p| > 0 && Writable(tree, p) && !block.Link?
    ensures SetAsLink(tree, p, block).Some?
    ensures var tree' := SetAsLink(tree, p, block).value;
            Get(tree', p) == block && Writable(tree', p) && SameElsewhere(tree, tree', p)
  {
    var link := Link(CidOf(block));
    SetSucceeds(tree, p, link);
    var tree' := SetAsLink(tree, p, block).value;
    GetSet(tree, p, link);
    SetAgain(tree, p, link);
    forall q | Apart(p, q)
      ensures Get(tree', q) == Get(tree, q) && Has(tree', q) == Has(tree, q) && Writable(tree', q) == Writable(tree, q)
    {
      SetFrame(tree, p, link, q);
    }
  }

  lemma TokenCreated(tree: Node, p: Path)
    requires TokenPlace(tree, p)
    ensures CreateToken(tree, p).Ok?
    ensures var tree' := CreateToken(tree, p).value;
            && TokenPlace(tree', p) && Get(tree', p) == EMPTY_TOKEN && BookAt(tree', p) == Some(EMPTY_BOOK)
            && SameElsewhere(tree, tree', p)
  {
    BlockLinked(tree, p, EMPTY_TOKEN);
    FieldWritten(SetAsLink(tree, p, EMPTY_TOKEN).value, p, BALANCE, Num(0));
    assert EMPTY_TOKEN.entries[BALANCE := Num(0)] == EMPTY_TOKEN.entries;
    EmptyTokenBook();
  }

  lemma EmptyTokenBook()
    ensures IsToken(EMPTY_TOKEN) && BookOf(EMPTY_TOKEN) == EMPTY_BOOK
  {
    assert MintsOf([]) == [] && SendsOf([]) == [] && ReceivesOf([]) == [];
  }

  // ----- Loops over the lists

  lemma {:induction false} SumIsTotal(cids: seq<Cid>)
    requires forall c :: c in cids ==> c.node.MintRecord?
    ensures SumAmounts(cids) == Ok(Total64(MintsOf(cids)))
  {
    if |cids| > 0 {
      var front, last := cids[..|cids| - 1], cids[|cids| - 1];
      assert last in cids && forall c :: c in front ==> c in cids;
      SumIsTotal(front);
      assert MintsOf(cids)[..|cids| - 1] == MintsOf(front);
    }
  }

  lemma SumOfMints(cids: seq<Cid>)
    requires forall c :: c in cids ==> c.node.MintRecord?
    ensures SumAmounts(cids) == Ok(Total64(MintsOf(cids)))
    ensures SumAmounts(cids) == Ok(SumBy(Amount(), MintsOf(cids)) % TWO_TO_THE_64)
  {
    SumIsTotal(cids);
    Total64IsModular(MintsOf(cids));
  }

  lemma {:induction false} FoundReceives(cids: seq<Cid>, sendId: string)
    requires forall c :: c in cids ==> c.node.ReceiveRecord?
    ensures FindReceive(cids, sendId).Ok?
    ensures FindReceive(cids, sendId).value <==> exists i :: 0 <= i < |cids| && ReceivesOf(cids)[i].sendId == sendId
  {
    if |cids| > 0 {
      var rest := cids[1..];
      FoundReceives(rest, sendId);
      assert cids[0] in cids;
      assert forall i :: 0 <= i < |rest| ==> ReceivesOf(rest)[i] == ReceivesOf(cids)[i + 1];
      if FindReceive(rest, sendId).value {
        var i :| 0 <= i < |rest| && ReceivesOf(rest)[i].sendId == sendId;
        assert ReceivesOf(cids)[i + 1].sendId == sendId;
      }
      if i :| 0 <= i < |cids| && ReceivesOf(cids)[i].sendId == sendId {
        assert i > 0 ==> ReceivesOf(rest)[i - 1].sendId == sendId;
      }
      assert ReceivesOf(cids)[0].sendId == cids[0].node.sendId;
    }
  }

  predicate HoldsAmount(c: Cid) {
    c.node.MintRecord? || c.node.SendRecord? || c.node.ReceiveRecord?
  }

  /** A sum fails exactly when some block of the list holds no amount. */
  lemma {:induction false} SumFailsIff(cids: seq<Cid>)
    ensures SumAmounts(cids).Ok? <==> forall i :: 0 <= i < |cids| ==> HoldsAmount(cids[i])
  {
    if |cids| > 0 {
      SumFailsIff(cids[..|cids| - 1]);
      assert forall i :: 0 <= i < |cids| - 1 ==> cids[..|cids| - 1][i] == cids[i];
    }
  }

  function NoReceive(): Cid -> bool {
    (c: Cid) => !c.node.ReceiveRecord?
  }

  function ReceiveWith(sendId: string): Cid -> bool {
    (c: Cid) => c.node.ReceiveRecord? && c.node.sendId == sendId
  }

  /** In any list the search ends at the first receive with the id, or with an error at a block that is no receive,
      whichever comes first. */
  lemma {:induction false} SearchEndsFirst(cids: seq<Cid>, sendId: string)
    ensures FindReceive(cids, sendId) == Ok(true) <==> ComesFirst(cids, ReceiveWith(sendId), NoReceive())
    ensures FindReceive(cids, sendId).Err? <==> ComesFirst(cids, NoReceive(), ReceiveWith(sendId))
  {
    if |cids| > 0 {
      SearchEndsFirst(cids[1..], sendId);
      if !ReceiveWith(sendId)(cids[0]) && !NoReceive()(cids[0]) {
        ComesFirstTail(cids, ReceiveWith(sendId), NoReceive());
        ComesFirstTail(cids, NoReceive(), ReceiveWith(sendId));
      }
    }
  }

  // ----- Refinement: every tree operation is the book operation on its own token

  /** What a tree operation at `p` must do to refine a book operation. */
  ghost predicate Refines(tree: Node, p: Path, r: Result<Node>, op: Op)
    requires TokenPlace(tree, p)
  {
    && (r.Ok? <==> Apply(BookAt(tree, p), op).Ok?)
    && (r.Ok? ==>
          && TokenPlace(r.value, p)
          && BookAt(r.value, p) == Some(Apply(BookAt(tree, p), op).value)
          && SameElsewhere(tree, r.value, p))
  }

  lemma FieldsOf(tree: Node, p: Path)
    requires TokenPlace(tree, p)
    ensures Get(tree, p) == Nil ==>
              && BalanceAt(tree, p).Err? && PolicyAt(tree, p).Err?
    ensures Get(tree, p) != Nil ==>
              var t := Get(tree, p);
              && BalanceAt(tree, p) == Ok(Child(t, BALANCE).n)
              && (PolicyAt(tree, p) == if BookOf(t).policy.Some? then Ok(BookOf(t).policy.value)
                                       else Err("error decoding token monetary policy"))
              && CidsAt(tree, p, MINTS) == Ok(ListOf(t, MINTS))
              && CidsAt(tree, p, SENDS) == Ok(ListOf(t, SENDS))
              && CidsAt(tree, p, RECEIVES) == Ok(ListOf(t, RECEIVES))
  {
    GetStep(tree, p, BALANCE);
    GetStep(tree, p, POLICY);
    GetStep(tree, p, MINTS);
    GetStep(tree, p, SENDS);
    GetStep(tree, p, RECEIVES);
  }

  /** On its own the ledger establishes a token anew, over whatever book there was. */
  lemma EstablishOverwrites(tree: Node, p: Path, maximum: uint64)
    requires TokenPlace(tree, p)
    ensures EstablishToken(tree, p, maximum).Ok?
    ensures var tree' := EstablishToken(tree, p, maximum).value;
            && TokenPlace(tree', p) && BookAt(tree', p) == Some(Book(Some(maximum), [], [], [], 0))
            && SameElsewhere(tree, tree', p)
  {
    TokenCreated(tree, p);
    var created := CreateToken(tree, p).value;
    FieldWritten(created, p, POLICY, Link(CidOf(Policy(maximum))));
    EstablishedBook(maximum);
  }

  lemma EstablishedBook(maximum: uint64)
    ensures var t := Dir(EMPTY_TOKEN.entries[POLICY := Link(CidOf(Policy(maximum)))]);
            IsToken(t) && BookOf(t) == Book(Some(maximum), [], [], [], 0)
  {
    EmptyTokenBook();
    LabelsDiffer();
    var t := Dir(EMPTY_TOKEN.entries[POLICY := Link(CidOf(Policy(maximum)))]);
    assert Deref(Child(t, POLICY)) == Deref(Policy(maximum)) == Policy(maximum);
    assert ListOf(t, MINTS) == [] && ListOf(t, SENDS) == [] && ListOf(t, RECEIVES) == [];
    assert MintsOf([]) == [] && SendsOf([]) == [] && ReceivesOf([]) == [];
  }

  lemma EstablishRefines(tree: Node, p: Path, maximum: uint64)
    requires TokenPlace(tree, p) && Get(tree, p) == Nil
    ensures Refines(tree, p, EstablishToken(tree, p, maximum), EstablishOp(maximum))
  {
    EstablishOverwrites(tree, p, maximum);
  }

  /** A token's block after a transaction was listed. */
  function Listed(t: Node, key: string, record: Node, balance: uint64): Node {
    Dir(Entries(t)[key := Link(CidOf(Cids(ListOf(t, key) + [CidOf(record)])))][BALANCE := Num(balance)])
  }

  /** The labels of a token's block are different words. */
  lemma LabelsDiffer()
    ensures BALANCE !in [POLICY, MINTS, SENDS, RECEIVES] && POLICY !in [MINTS, SENDS, RECEIVES]
    ensures MINTS !in [SENDS, RECEIVES] && SENDS != RECEIVES
  {
    assert |BALANCE| == 7 && |POLICY| == 14 && |MINTS| == 5 && |SENDS| == 5 && |RECEIVES| == 8;
    assert MINTS[0] != SENDS[0];
  }

  lemma ListedFields(t: Node, key: string, record: Node, balance: uint64)
    requires key in [MINTS, SENDS, RECEIVES]
    ensures var t' := Listed(t, key, record, balance);
            && ListOf(t', key) == ListOf(t, key) + [CidOf(record)] && IsList(t', key)
            && Child(t', BALANCE) == Num(balance)
            && Child(t', POLICY) == Child(t, POLICY)
            && forall k :: k in [MINTS, SENDS, RECEIVES] && k != key ==> Child(t', k) == Child(t, k)
  {
    LabelsDiffer();
    var list := Cids(ListOf(t, key) + [CidOf(record)]);
    assert Child(Listed(t, key, record, balance), key) == Link(CidOf(list));
    assert Deref(Link(CidOf(list))) == Deref(list) == list;
  }

  lemma MintListed(t: Node, amount: uint64, balance: uint64)
    requires IsToken(t)
    ensures var t' := Listed(t, MINTS, MintRecord(amount), balance);
            IsToken(t') && BookOf(t') == BookOf(t).(mints := BookOf(t).mints + [amount], balance := balance)
  {
    var t' := Listed(t, MINTS, MintRecord(amount), balance);
    ListedFields(t, MINTS, MintRecord(amount), balance);
    LabelsDiffer();
    assert ListOf(t', SENDS) == ListOf(t, SENDS) && ListOf(t', RECEIVES) == ListOf(t, RECEIVES);
    assert MintsOf(ListOf(t', MINTS)) == MintsOf(ListOf(t, MINTS)) + [amount];
  }

  lemma SendListed(t: Node, id: string, destination: string, amount: uint64, balance: uint64)
    requires IsToken(t)
    ensures var t' := Listed(t, SENDS, SendRecord(id, amount, destination), balance);
            && IsToken(t')
            && BookOf(t') == BookOf(t).(sends := BookOf(t).sends + [Send(id, amount, destination)], balance := balance)
  {
    var t' := Listed(t, SENDS, SendRecord(id, amount, destination), balance);
    ListedFields(t, SENDS, SendRecord(id, amount, destination), balance);
    LabelsDiffer();
    assert ListOf(t', MINTS) == ListOf(t, MINTS) && ListOf(t', RECEIVES) == ListOf(t, RECEIVES);
    assert SendsOf(ListOf(t', SENDS)) == SendsOf(ListOf(t, SENDS)) + [Send(id, amount, destination)];
  }

  lemma ReceiveListed(t: Node, sendId: string, amount: uint64, balance: uint64)
    requires IsToken(t)
    ensures var t' := Listed(t, RECEIVES, ReceiveRecord(sendId, amount), balance);
            && IsToken(t')
            && BookOf(t') == BookOf(t).(receives := BookOf(t).receives + [Receive(sendId, amount)], balance := balance)
  {
    var t' := Listed(t, RECEIVES, ReceiveRecord(sendId, amount), balance);
    ListedFields(t, RECEIVES, ReceiveRecord(sendId, amount), balance);
    LabelsDiffer();
    assert ListOf(t', MINTS) == ListOf(t, MINTS) && ListOf(t', SENDS) == ListOf(t, SENDS);
    assert ReceivesOf(ListOf(t', RECEIVES)) == ReceivesOf(ListOf(t, RECEIVES)) + [Receive(sendId, amount)];
  }

  lemma RecordListed(tree: Node, p: Path, key: string, record: Node, balance: uint64)
    requires TokenPlace(tree, p) && Get(tree, p) != Nil && key in [MINTS, SENDS, RECEIVES]
    ensures var t := Get(tree, p);
            var r := Record(tree, p, key, ListOf(t, key), record, balance);
            && r.Ok? && Get(r.value, p) == Listed(t, key, record, balance)
            && Writable(r.value, p) && SameElsewhere(tree, r.value, p)
  {
    RecordWritten(tree, p, key, ListOf(Get(tree, p), key), record, balance);
  }

  /** Minting lists a mint when the book allows it, and fails otherwise. */
  lemma MintDecides(tree: Node, p: Path, amount: uint64)
    requires TokenPlace(tree, p) && Get(tree, p) != Nil
    ensures var t := Get(tree, p);
            if Apply(Some(BookOf(t)), MintOp(amount)).Ok?
            then MintToken(tree, p, amount) ==
                 Record(tree, p, MINTS, ListOf(t, MINTS), MintRecord(amount), Add64(BookOf(t).balance, amount))
            else MintToken(tree, p, amount).Err?
  {
    FieldsOf(tree, p);
    SumOfMints(ListOf(Get(tree, p), MINTS));
  }

  lemma MintRefines(tree: Node, p: Path, amount: uint64)
    requires TokenPlace(tree, p)
    ensures Refines(tree, p, MintToken(tree, p, amount), MintOp(amount))
  {
    var t := Get(tree, p);
    if t == Nil {
      FieldsOf(tree, p);
    } else {
      MintDecides(tree, p, amount);
      var balance := Add64(BookOf(t).balance, amount);
      RecordListed(tree, p, MINTS, MintRecord(amount), balance);
      MintListed(t, amount, balance);
    }
  }

  lemma SendDecides(tree: Node, p: Path, id: string, destination: string, amount: uint64)
    requires TokenPlace(tree, p) && Get(tree, p) != Nil
    ensures var t := Get(tree, p);
            if 0 < amount <= BookOf(t).balance
            then SendToken(tree, p, id, destination, amount) ==
                 Record(tree, p, SENDS, ListOf(t, SENDS), SendRecord(id, amount, destination), BookOf(t).balance - amount)
            else SendToken(tree, p, id, destination, amount).Err?
  {
    FieldsOf(tree, p);
  }

  lemma SendExistingRefines(tree: Node, p: Path, id: string, destination: string, amount: uint64)
    requires TokenPlace(tree, p) && Get(tree, p) != Nil && 0 < amount <= BookOf(Get(tree, p)).balance
    ensures Refines(tree, p, SendToken(tree, p, id, destination, amount), SendOp(id, destination, amount))
  {
    var t := Get(tree, p);
    var balance := BookOf(t).balance - amount;
    SendDecides(tree, p, id, destination, amount);
    RecordListed(tree, p, SENDS, SendRecord(id, amount, destination), balance);
    SendListed(t, id, destination, amount, balance);
  }

  lemma SendRefines(tree: Node, p: Path, id: string, destination: string, amount: uint64)
    requires TokenPlace(tree, p)
    ensures Refines(tree, p, SendToken(tree, p, id, destination, amount), SendOp(id, destination, amount))
  {
    if Get(tree, p) == Nil {
      FieldsOf(tree, p);
    } else if 0 < amount <= BookOf(Get(tree, p)).balance {
      SendExistingRefines(tree, p, id, destination, amount);
    } else {
      SendDecides(tree, p, id, destination, amount);
    }
  }

  lemma ReceiveDecides(tree: Node, p: Path, sendId: string, amount: uint64)
    requires TokenPlace(tree, p) && Get(tree, p) != Nil
    ensures var t := Get(tree, p);
            if ReceivedBefore(BookOf(t), sendId) then ReceiveToken(tree, p, sendId, amount).Err?
            else ReceiveToken(tree, p, sendId, amount) ==
                 Record(tree, p, RECEIVES, ListOf(t, RECEIVES), ReceiveRecord(sendId, amount),
                        Add64(BookOf(t).balance, amount))
  {
    FieldsOf(tree, p);
    FoundReceives(ListOf(Get(tree, p), RECEIVES), sendId);
  }

  /** Receiving into an existing token. */
  lemma ReceiveExistingRefines(tree: Node, p: Path, sendId: string, amount: uint64)
    requires TokenPlace(tree, p) && Get(tree, p) != Nil
    ensures Refines(tree, p, ReceiveToken(tree, p, sendId, amount), ReceiveOp(sendId, amount))
  {
    var t := Get(tree, p);
    ReceiveDecides(tree, p, sendId, amount);
    var balance := Add64(BookOf(t).balance, amount);
    RecordListed(tree, p, RECEIVES, ReceiveRecord(sendId, amount), balance);
    ReceiveListed(t, sendId, amount, balance);
  }

  lemma ReceiveRefines(tree: Node, p: Path, sendId: string, amount: uint64)
    requires TokenPlace(tree, p)
    ensures Refines(tree, p, ReceiveToken(tree, p, sendId, amount), ReceiveOp(sendId, amount))
  {
    if Get(tree, p) == Nil {
      TokenCreated(tree, p);
      var created := CreateToken(tree, p).value;
      ReceiveExistingRefines(created, p, sendId, amount);
      assert ReceiveToken(tree, p, sendId, amount) == ReceiveToken(created, p, sendId, amount);
    } else {
      ReceiveExistingRefines(tree, p, sendId, amount);
    }
  }
}

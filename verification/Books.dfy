/** One token's book: the cached balance beside its append-only history, and the four ledger operations on
    it (consensus/tree_ledger.go). `TreeLedger` keeps such a book in a tree. */
module Books {
  import opened Prelude

  datatype Send = Send(id: string, amount: uint64, destination: string)
  datatype Receive = Receive(sendId: string, amount: uint64)

  datatype Book = Book(
    policy: Option<uint64>,
    mints: seq<uint64>,
    sends: seq<Send>,
    receives: seq<Receive>,
    balance: uint64)

  const EMPTY_BOOK := Book(None, [], [], [], 0)

  datatype Op =
    | EstablishOp(maximum: uint64)
    | MintOp(minted: uint64)
    | SendOp(id: string, destination: string, sent: uint64)
    | ReceiveOp(sendId: string, received: uint64)

  /** Addition of 64-bit words, which wraps. */
  function Add64(a: uint64, b: uint64): uint64 {
    if a + b < TWO_TO_THE_64 then a + b else a + b - TWO_TO_THE_64
  }

  function Amount(): uint64 -> nat {
    (a: uint64) => a
  }

  function SentAmount(): Send -> nat {
    (s: Send) => s.amount
  }

  function ReceivedAmount(): Receive -> nat {
    (r: Receive) => r.amount
  }

  function Minted(b: Book): nat {
    SumBy(Amount(), b.mints)
  }

  function Sent(b: Book): nat {
    SumBy(SentAmount(), b.sends)
  }

  function Received(b: Book): nat {
    SumBy(ReceivedAmount(), b.receives)
  }

  /** The sum of 64-bit words that the ledger computes. */
  function Total64(amounts: seq<uint64>): uint64 {
    if |amounts| == 0 then 0 else Add64(Total64(amounts[..|amounts| - 1]), amounts[|amounts| - 1])
  }

  predicate ReceivedBefore(b: Book, sendId: string) {
    exists i :: 0 <= i < |b.receives| && b.receives[i].sendId == sendId
  }

  /** One operation on a token that may not exist yet. The sum of the mints and the checked total are
      64-bit words, as in the source. */
  function Apply(book: Option<Book>, op: Op): Result<Book> {
    match op
    case EstablishOp(maximum) =>
      if book.Some? then Err("token already exists") else Ok(EMPTY_BOOK.(policy := Some(maximum)))
    case MintOp(amount) =>
      if amount == 0 then Err("must mint amount greater than 0")
      else if book.None? || book.value.policy.None? then Err("error decoding token monetary policy")
      else
        var b := book.value;
        if b.policy.value > 0 && Add64(Total64(b.mints), amount) > b.policy.value
        then Err("new mint would violate monetaryPolicy")
        else Ok(b.(mints := b.mints + [amount], balance := Add64(b.balance, amount)))
    case SendOp(id, destination, amount) =>
      if amount == 0 then Err("must send an amount greater than 0")
      else if book.None? then Err("error resolving token")
      else if book.value.balance < amount then Err("balance is too low")
      else
        var b := book.value;
        Ok(b.(sends := b.sends + [Send(id, amount, destination)], balance := b.balance - amount))
    case ReceiveOp(sendId, amount) =>
      var b := if book.None? then EMPTY_BOOK else book.value;
      if ReceivedBefore(b, sendId) then Err("transaction id already exists")
      else Ok(b.(receives := b.receives + [Receive(sendId, amount)], balance := Add64(b.balance, amount)))
  }

  /** The book after a list of operations, failed ones leaving it alone. */
  function Run(ops: seq<Op>): Option<Book> {
    if |ops| == 0 then None
    else
      var before := Run(ops[..|ops| - 1]);
      match Apply(before, ops[|ops| - 1])
      case Ok(b) => Some(b)
      case Err(_) => before
  }

  // ----- What is accepted, and what it leaves

  lemma MintMeans(book: Option<Book>, amount: uint64)
    ensures Apply(book, MintOp(amount)).Ok? <==>
            && amount > 0 && book.Some? && book.value.policy.Some?
            && (book.value.policy.value > 0 ==> Total64(book.value.mints + [amount]) <= book.value.policy.value)
    ensures Apply(book, MintOp(amount)).Ok? ==>
              var b := book.value;
              Apply(book, MintOp(amount)).value ==
              Book(b.policy, b.mints + [amount], b.sends, b.receives, Add64(b.balance, amount))
  {
    if book.Some? {
      assert (book.value.mints + [amount])[..|book.value.mints|] == book.value.mints;
    }
  }

  lemma SendMeans(book: Option<Book>, id: string, destination: string, amount: uint64)
    ensures Apply(book, SendOp(id, destination, amount)).Ok? <==> book.Some? && 0 < amount <= book.value.balance
    ensures Apply(book, SendOp(id, destination, amount)).Ok? ==>
              var b := book.value;
              Apply(book, SendOp(id, destination, amount)).value ==
              Book(b.policy, b.mints, b.sends + [Send(id, amount, destination)], b.receives, b.balance - amount)
  {
  }

  lemma ReceiveMeans(book: Option<Book>, sendId: string, amount: uint64)
    ensures var b := if book.Some? then book.value else Book(None, [], [], [], 0);
            && (Apply(book, ReceiveOp(sendId, amount)).Ok? <==> forall r :: r in b.receives ==> r.sendId != sendId)
            && (Apply(book, ReceiveOp(sendId, amount)).Ok? ==>
                  Apply(book, ReceiveOp(sendId, amount)).value ==
                  Book(b.policy, b.mints, b.sends, b.receives + [Receive(sendId, amount)],
                       Add64(b.balance, amount)))
  {
    var b := if book.Some? then book.value else EMPTY_BOOK;
    assert ReceivedBefore(b, sendId) <==> exists r :: r in b.receives && r.sendId == sendId;
  }

  // ----- The invariant of every run

  /** The additions to the balance have wrapped `k` times. */
  predicate Wrapped(b: Book, k: nat) {
    b.balance + Sent(b) + k * 0x1_0000_0000_0000_0000 == Minted(b) + Received(b)
  }

  ghost predicate BalanceModulo(b: Book) {
    exists k: nat :: Wrapped(b, k)
  }

  predicate BalanceExact(b: Book) {
    b.balance + Sent(b) == Minted(b) + Received(b)
  }

  predicate DistinctReceives(b: Book) {
    forall i, j :: 0 <= i < j < |b.receives| ==> b.receives[i].sendId != b.receives[j].sendId
  }

  predicate PositiveSends(b: Book) {
    forall i :: 0 <= i < |b.sends| ==> b.sends[i].amount > 0
  }

  predicate WithinMaximum(b: Book) {
    b.policy.Some? && b.policy.value > 0 ==> Minted(b) <= b.policy.value
  }

  ghost predicate Inv(b: Book) {
    && BalanceModulo(b)
    && (Minted(b) < TWO_TO_THE_64 ==> WithinMaximum(b))
    && DistinctReceives(b)
    && PositiveSends(b)
  }

  /** How an accepted operation moves the totals. */
  lemma ApplyTotals(book: Option<Book>, op: Op)
    requires Apply(book, op).Ok?
    ensures var b := if book.None? then EMPTY_BOOK else book.value;
            var b' := Apply(book, op).value;
            && Minted(b') == Minted(b) + (if op.MintOp? then op.minted else 0)
            && Sent(b') == Sent(b) + (if op.SendOp? then op.sent else 0)
            && Received(b') == Received(b) + (if op.ReceiveOp? then op.received else 0)
  {
    var b := if book.None? then EMPTY_BOOK else book.value;
    match op
    case EstablishOp(_) =>
    case MintOp(amount) => SumBySnoc(Amount(), b.mints, amount);
    case SendOp(id, destination, amount) => SumBySnoc(SentAmount(), b.sends, Send(id, amount, destination));
    case ReceiveOp(sendId, amount) => SumBySnoc(ReceivedAmount(), b.receives, Receive(sendId, amount));
  }

  /** It is the true sum exactly while that is a 64-bit word, and the sum modulo 2^64 always. */
  lemma {:induction false} Total64IsModular(amounts: seq<uint64>)
    ensures Total64(amounts) == SumBy(Amount(), amounts) % TWO_TO_THE_64
    ensures Total64(amounts) == SumBy(Amount(), amounts) <==> SumBy(Amount(), amounts) < TWO_TO_THE_64
  {
    if |amounts| > 0 {
      var sum, last := SumBy(Amount(), amounts[..|amounts| - 1]), amounts[|amounts| - 1];
      Total64IsModular(amounts[..|amounts| - 1]);
      Add64IsModular(sum, last);
    }
  }

  lemma Add64IsModular(sum: nat, amount: uint64)
    ensures Add64(sum % TWO_TO_THE_64, amount) == (sum + amount) % TWO_TO_THE_64
  {
  }

  lemma ApplyKeepsBalance(book: Option<Book>, op: Op)
    requires Apply(book, op).Ok? && (book.Some? ==> Inv(book.value))
    ensures BalanceModulo(Apply(book, op).value)
  {
    var b, b' := if book.None? then EMPTY_BOOK else book.value, Apply(book, op).value;
    ApplyTotals(book, op);
    assert Wrapped(EMPTY_BOOK, 0);
    match op
    case EstablishOp(_) =>
      assert Wrapped(b', 0);
    case MintOp(amount) =>
      CreditWraps(b, b', amount);
    case SendOp(_, _, _) =>
      var k: nat :| Wrapped(b, k);
      assert Wrapped(b', k);
    case ReceiveOp(_, amount) =>
      CreditWraps(b, b', amount);
  }

  lemma CreditWraps(b: Book, b': Book, amount: uint64)
    requires BalanceModulo(b) && b'.balance == Add64(b.balance, amount)
    requires Sent(b') == Sent(b) && Minted(b') + Received(b') == Minted(b) + Received(b) + amount
    ensures BalanceModulo(b')
  {
    var k: nat :| Wrapped(b, k);
    if b.balance + amount < TWO_TO_THE_64 {
      assert Wrapped(b', k);
    } else {
      assert Wrapped(b', k + 1);
    }
  }

  lemma ApplyKeepsMaximum(book: Option<Book>, op: Op)
    requires Apply(book, op).Ok? && (book.Some? ==> Inv(book.value))
    ensures var b' := Apply(book, op).value;
            Minted(b') < TWO_TO_THE_64 ==> WithinMaximum(b')
  {
    var b' := Apply(book, op).value;
    ApplyTotals(book, op);
    if op.MintOp? && Minted(b') < TWO_TO_THE_64 {
      Total64IsModular(book.value.mints);
    }
  }

  lemma ApplyKeepsHistory(book: Option<Book>, op: Op)
    requires Apply(book, op).Ok? && (book.Some? ==> DistinctReceives(book.value) && PositiveSends(book.value))
    ensures DistinctReceives(Apply(book, op).value) && PositiveSends(Apply(book, op).value)
  {
    var b, b' := if book.None? then EMPTY_BOOK else book.value, Apply(book, op).value;
    if op.ReceiveOp? {
      assert b'.receives == b.receives + [Receive(op.sendId, op.received)] && !ReceivedBefore(b, op.sendId);
    } else {
      assert b'.receives == b.receives;
    }
  }

  lemma ApplyKeepsInv(book: Option<Book>, op: Op)
    requires Apply(book, op).Ok? && (book.Some? ==> Inv(book.value))
    ensures Inv(Apply(book, op).value)
  {
    ApplyKeepsBalance(book, op);
    ApplyKeepsMaximum(book, op);
    ApplyKeepsHistory(book, op);
  }

  lemma {:induction false} RunInvariant(ops: seq<Op>)
    ensures Run(ops).Some? ==> Inv(Run(ops).value)
  {
    if |ops| > 0 {
      RunInvariant(ops[..|ops| - 1]);
      if Apply(Run(ops[..|ops| - 1]), ops[|ops| - 1]).Ok? {
        ApplyKeepsInv(Run(ops[..|ops| - 1]), ops[|ops| - 1]);
      }
    }
  }

  /** What the history leaves, modulo 2^64. */
  function NetCredit(b: Book): nat {
    (Minted(b) + Received(b) - Sent(b)) % TWO_TO_THE_64
  }

  /** The cached balance agrees with the history: modulo 2^64 always, with sends never above mints and
      receives; and as natural numbers exactly when the net total is itself a 64-bit word, which it is while
      mints and receives together stay one. */
  lemma BalanceAgreesWithHistory(ops: seq<Op>)
    requires Run(ops).Some?
    ensures var b := Run(ops).value;
            && b.balance == NetCredit(b)
            && Sent(b) <= Minted(b) + Received(b)
            && (BalanceExact(b) <==> Minted(b) + Received(b) - Sent(b) < TWO_TO_THE_64)
            && (Minted(b) + Received(b) < TWO_TO_THE_64 ==> BalanceExact(b))
  {
    RunInvariant(ops);
    var b := Run(ops).value;
    var k: nat :| Wrapped(b, k);
    WrappedBalance(b.balance, Sent(b), Minted(b) + Received(b), k);
  }

  lemma WrappedBalance(balance: uint64, sent: nat, credit: nat, k: nat)
    requires balance + sent + k * 0x1_0000_0000_0000_0000 == credit
    ensures sent <= credit && balance == (credit - sent) % TWO_TO_THE_64
    ensures balance + sent == credit <==> credit - sent < TWO_TO_THE_64
  {
    assert credit - sent == TWO_TO_THE_64 * k + balance;
    RemainderUnique(credit - sent, TWO_TO_THE_64, k, balance);
  }

  /** After any run a send is accepted exactly when the token exists and what its history leaves covers a
      positive amount; and then its sends still do not exceed its credits. */
  lemma SendStaysInBalance(ops: seq<Op>, id: string, destination: string, amount: uint64)
    ensures Apply(Run(ops), SendOp(id, destination, amount)).Ok? <==>
            Run(ops).Some? && 0 < amount <= NetCredit(Run(ops).value)
    ensures Apply(Run(ops), SendOp(id, destination, amount)).Ok? ==>
              var b, b' := Run(ops).value, Apply(Run(ops), SendOp(id, destination, amount)).value;
              Sent(b) + amount == Sent(b') <= Minted(b') + Received(b')
  {
    var op := SendOp(id, destination, amount);
    if Run(ops).Some? {
      BalanceAgreesWithHistory(ops);
    }
    if Apply(Run(ops), op).Ok? {
      ApplyTotals(Run(ops), op);
      assert (ops + [op])[..|ops|] == ops;
      BalanceAgreesWithHistory(ops + [op]);
    }
  }

  /** An accepted mint on a book within its maximum keeps it there exactly when the mints still add up to a
      64-bit word, which a caller can tell beforehand. */
  lemma MintKeepsMaximumIff(b: Book, amount: uint64)
    requires b.policy.Some? && b.policy.value > 0 && WithinMaximum(b) && Apply(Some(b), MintOp(amount)).Ok?
    ensures WithinMaximum(Apply(Some(b), MintOp(amount)).value) <==> Minted(b) + amount < TWO_TO_THE_64
  {
    ApplyTotals(Some(b), MintOp(amount));
    if Minted(b) + amount < TWO_TO_THE_64 {
      Total64IsModular(b.mints);
    }
  }

  /** The monetary policy holds in every run, exactly as long as the mints add up to a 64-bit word. */
  lemma MaximumHoldsIffMintsFit(ops: seq<Op>)
    requires Run(ops).Some? && Run(ops).value.policy.Some? && Run(ops).value.policy.value > 0
    ensures Minted(Run(ops).value) <= Run(ops).value.policy.value <==> Minted(Run(ops).value) < TWO_TO_THE_64
  {
    RunInvariant(ops);
  }

  /** Beyond that the checked total wraps and the maximum is passed. */
  lemma MaximumPassedByWrapping()
    ensures var ops := [EstablishOp(5), MintOp(5), MintOp(TWO_TO_THE_64 - 3)];
            Run(ops).Some? && Run(ops).value.policy == Some(5) && Minted(Run(ops).value) > 5
  {
    var ops := [EstablishOp(5), MintOp(5), MintOp(TWO_TO_THE_64 - 3)];
    assert ops[..2] == [EstablishOp(5), MintOp(5)] && ops[..2][..1] == [EstablishOp(5)] && ops[..2][..1][..0] == [];
    var b0 := EMPTY_BOOK.(policy := Some(5));
    assert Run(ops[..2][..1]) == Some(b0);
    var b1 := b0.(mints := [5], balance := 5);
    assert b0.mints + [5] == [5];
    ApplyTotals(Some(b0), MintOp(5));
    assert Run(ops[..2]) == Some(b1);
    ApplyTotals(Some(b1), MintOp(TWO_TO_THE_64 - 3));
  }

  // ----- History

  predicate Extends(b: Book, b': Book) {
    b.mints <= b'.mints && b.sends <= b'.sends && b.receives <= b'.receives && b.policy == b'.policy
  }

  lemma ApplyExtends(book: Option<Book>, op: Op)
    requires book.Some? && Apply(book, op).Ok?
    ensures Extends(book.value, Apply(book, op).value)
  {
  }

  /** Over every run the lists only grow at their end, a token never disappears, its policy never changes,
      and no send is received twice. */
  lemma {:induction false} HistoryOnlyGrows(ops: seq<Op>, more: seq<Op>)
    requires Run(ops).Some?
    ensures Run(ops + more).Some? && Extends(Run(ops).value, Run(ops + more).value)
    ensures DistinctReceives(Run(ops + more).value)
  {
    if |more| == 0 {
      assert ops + more == ops;
    } else {
      var all := ops + more;
      var front := more[..|more| - 1];
      assert all[..|all| - 1] == ops + front;
      HistoryOnlyGrows(ops, front);
      var before := Run(ops + front);
      if Apply(before, all[|all| - 1]).Ok? {
        ApplyExtends(before, all[|all| - 1]);
      }
    }
    RunInvariant(ops + more);
  }
}

/** One token on many chains: what mints, sends and receives together keep
    (consensus/tree_ledger.go, consensus/transactions.go, gossip/types/validators.go).

    Each chain has a book of the token. A receive carries a send cut out of some chain's book, and an id of
    its own; the recipient check compares the send's destination with the receiving chain. */
module Supply {
  import opened Prelude
  import opened Books

  /** A chain's book, and which of its sends have been received so far. */
  datatype Account = Account(did: string, book: Option<Book>, done: set<nat>)

  /** `excess` adds up what was received again; `wrapped` notes an addition that left 64 bits. */
  datatype System = System(accounts: seq<Account>, excess: nat, wrapped: bool)

  datatype Event =
    | Ledger(chain: nat, op: Op)
    | Receiving(chain: nat, from: nat, index: nat, claimedId: string)

  function BookIn(a: Account): Book {
    if a.book.None? then EMPTY_BOOK else a.book.value
  }

  /** The send that a payload carries. */
  predicate Carries(sys: System, from: nat, index: nat) {
    from < |sys.accounts| && index < |BookIn(sys.accounts[from]).sends|
  }

  function Carried(sys: System, from: nat, index: nat): Send
    requires Carries(sys, from, index)
  {
    BookIn(sys.accounts[from]).sends[index]
  }

  /** Whether crediting the amount would leave 64 bits. */
  predicate Wraps(a: Account, amount: uint64) {
    BookIn(a).balance + amount >= TWO_TO_THE_64
  }

  function Step(sys: System, ev: Event): Result<System> {
    if ev.chain >= |sys.accounts| then Err("no such chain")
    else
      var a := sys.accounts[ev.chain];
      match ev
      case Ledger(c, op) =>
        if op.ReceiveOp? then Err("a receive needs a payload")
        else
          var book :- Apply(a.book, op);
          Ok(System(sys.accounts[c := a.(book := Some(book))], sys.excess,
                    sys.wrapped || (op.MintOp? && Wraps(a, op.minted))))
      case Receiving(c, from, index, claimedId) =>
        if !Carries(sys, from, index) then Err("invalid tip and/or leaves")
        else
          var send := Carried(sys, from, index);
          if send.destination != a.did then Err("not the recipient")
          else
            var book :- Apply(a.book, ReceiveOp(claimedId, send.amount));
            var accounts := sys.accounts[c := a.(book := Some(book))];
            Ok(System(accounts[from := accounts[from].(done := accounts[from].done + {index})],
                      sys.excess + (if index in sys.accounts[from].done then send.amount else 0),
                      sys.wrapped || Wraps(a, send.amount)))
  }

  function Start(dids: seq<string>): System {
    System(seq(|dids|, (i: nat) requires i < |dids| => Account(dids[i], None, {})), 0, false)
  }

  function Run(dids: seq<string>, evs: seq<Event>): System {
    if |evs| == 0 then Start(dids)
    else
      var before := Run(dids, evs[..|evs| - 1]);
      match Step(before, evs[|evs| - 1])
      case Ok(sys) => sys
      case Err(_) => before
  }

  // ----- Totals

  function BalanceOf(): Account -> nat {
    (a: Account) => BookIn(a).balance
  }

  function MintedOf(): Account -> nat {
    (a: Account) => Minted(BookIn(a))
  }

  /** The sends of a list that are not received yet. */
  function Pending(sends: seq<Send>, done: set<nat>): nat {
    if |sends| == 0 then 0
    else Pending(sends[..|sends| - 1], done) + (if |sends| - 1 in done then 0 else sends[|sends| - 1].amount)
  }

  function PendingOf(): Account -> nat {
    (a: Account) => Pending(BookIn(a).sends, a.done)
  }

  function TotalBalance(sys: System): nat {
    SumBy(BalanceOf(), sys.accounts)
  }

  function TotalMinted(sys: System): nat {
    SumBy(MintedOf(), sys.accounts)
  }

  function NotYetReceived(sys: System): nat {
    SumBy(PendingOf(), sys.accounts)
  }

  /** Conservation, up to what was received again. */
  predicate Conserved(sys: System) {
    TotalBalance(sys) + NotYetReceived(sys) == TotalMinted(sys) + sys.excess
  }

  lemma {:induction false} PendingSnoc(sends: seq<Send>, done: set<nat>, s: Send)
    requires |sends| !in done
    ensures Pending(sends + [s], done) == Pending(sends, done) + s.amount
  {
    assert (sends + [s])[..|sends|] == sends;
  }

  lemma {:induction false} PendingDone(sends: seq<Send>, done: set<nat>, i: nat)
    requires i < |sends|
    ensures Pending(sends, done + {i}) + (if i in done then 0 else sends[i].amount) == Pending(sends, done)
  {
    var front := sends[..|sends| - 1];
    if i == |sends| - 1 {
      PendingBeyond(front, done, i);
    } else {
      PendingDone(front, done, i);
    }
  }

  lemma {:induction false} PendingBeyond(sends: seq<Send>, done: set<nat>, i: nat)
    requires i >= |sends|
    ensures Pending(sends, done + {i}) == Pending(sends, done)
  {
    if |sends| > 0 {
      PendingBeyond(sends[..|sends| - 1], done, i);
    }
  }

  /** Received sends are sends of the chain, and every send is positive. */
  predicate AccountOk(a: Account) {
    (forall i :: i in a.done ==> i < |BookIn(a).sends|) && PositiveSends(BookIn(a))
  }

  ghost predicate AllOk(sys: System) {
    forall c :: 0 <= c < |sys.accounts| ==> AccountOk(sys.accounts[c])
  }

  /** How replacing one account moves the totals. */
  lemma Replaced(sys: System, c: nat, a': Account)
    requires c < |sys.accounts|
    ensures var accounts := sys.accounts[c := a'];
            var a := sys.accounts[c];
            && SumBy(BalanceOf(), accounts) + BookIn(a).balance == TotalBalance(sys) + BookIn(a').balance
            && SumBy(MintedOf(), accounts) + Minted(BookIn(a)) == TotalMinted(sys) + Minted(BookIn(a'))
            && SumBy(PendingOf(), accounts) + PendingOf()(a) == NotYetReceived(sys) + PendingOf()(a')
  {
    SumByUpdate(BalanceOf(), sys.accounts, c, a');
    SumByUpdate(MintedOf(), sys.accounts, c, a');
    SumByUpdate(PendingOf(), sys.accounts, c, a');
  }

  /** A chain may have this book in place of its own, after minting so much: what it holds and what is under way
      from it add up as before. */
  ghost predicate BookConserves(a: Account, book: Book, minted: nat) {
    && AccountOk(a.(book := Some(book)))
    && Minted(book) == Minted(BookIn(a)) + minted
    && book.balance + Pending(book.sends, a.done) == BookIn(a).balance + Pending(BookIn(a).sends, a.done) + minted
  }

  lemma EstablishConserves(a: Account, maximum: uint64)
    requires AccountOk(a) && Apply(a.book, EstablishOp(maximum)).Ok?
    ensures BookConserves(a, Apply(a.book, EstablishOp(maximum)).value, 0)
  {
  }

  lemma MintConserves(a: Account, amount: uint64)
    requires AccountOk(a) && Apply(a.book, MintOp(amount)).Ok? && !Wraps(a, amount)
    ensures BookConserves(a, Apply(a.book, MintOp(amount)).value, amount)
  {
    var b, b' := BookIn(a), Apply(a.book, MintOp(amount)).value;
    assert b'.mints == b.mints + [amount] && b'.sends == b.sends && b'.balance == b.balance + amount;
    MintedSnoc(b, b', amount);
  }

  lemma MintedSnoc(b: Book, b': Book, amount: uint64)
    requires b'.mints == b.mints + [amount]
    ensures Minted(b') == Minted(b) + amount
  {
    SumBySnoc(Amount(), b.mints, amount);
  }

  lemma SendConserves(a: Account, id: string, destination: string, amount: uint64)
    requires AccountOk(a) && Apply(a.book, SendOp(id, destination, amount)).Ok?
    ensures BookConserves(a, Apply(a.book, SendOp(id, destination, amount)).value, 0)
  {
    PendingSnoc(BookIn(a).sends, a.done, Send(id, amount, destination));
  }

  /** Replacing a book by one that conserves keeps the totals in balance. */
  lemma ReplacedConserves(sys: System, c: nat, book: Book, minted: nat)
    requires AllOk(sys) && c < |sys.accounts| && BookConserves(sys.accounts[c], book, minted)
    ensures var sys' := sys.(accounts := sys.accounts[c := sys.accounts[c].(book := Some(book))]);
            && AllOk(sys') && TotalMinted(sys') == TotalMinted(sys) + minted
            && (Conserved(sys) ==> Conserved(sys'))
  {
    var a' := sys.accounts[c].(book := Some(book));
    Replaced(sys, c, a');
    OthersStayOk(sys, c, a');
  }

  /** A mint that wraps still counts as a mint; only its balance is off. */
  lemma WrappingMint(sys: System, c: nat, amount: uint64)
    requires AllOk(sys) && c < |sys.accounts| && Apply(sys.accounts[c].book, MintOp(amount)).Ok?
    ensures var book := Apply(sys.accounts[c].book, MintOp(amount)).value;
            var sys' := sys.(accounts := sys.accounts[c := sys.accounts[c].(book := Some(book))]);
            AllOk(sys') && TotalMinted(sys') == TotalMinted(sys) + amount
  {
    var a := sys.accounts[c];
    var a' := a.(book := Some(Apply(a.book, MintOp(amount)).value));
    MintedSnoc(BookIn(a), BookIn(a'), amount);
    assert AccountOk(a) && BookIn(a').sends == BookIn(a).sends;
    Replaced(sys, c, a');
    OthersStayOk(sys, c, a');
  }

  lemma LedgerStepConserves(sys: System, c: nat, op: Op)
    requires AllOk(sys) && Step(sys, Ledger(c, op)).Ok?
    ensures var sys' := Step(sys, Ledger(c, op)).value;
            && AllOk(sys')
            && TotalMinted(sys') == TotalMinted(sys) + (if op.MintOp? then op.minted else 0)
            && (Conserved(sys) && !sys'.wrapped ==> Conserved(sys'))
  {
    var sys' := Step(sys, Ledger(c, op)).value;
    var a := sys.accounts[c];
    var book := Apply(a.book, op).value;
    assert AccountOk(a);
    match op
    case EstablishOp(maximum) =>
      EstablishConserves(a, maximum);
      ReplacedConserves(sys, c, book, 0);
    case MintOp(amount) =>
      WrappingMint(sys, c, amount);
      if !sys'.wrapped {
        MintConserves(a, amount);
        ReplacedConserves(sys, c, book, amount);
      }
    case SendOp(id, destination, amount) =>
      SendConserves(a, id, destination, amount);
      ReplacedConserves(sys, c, book, 0);
  }

  /** Crediting one account with a receive. */
  lemma Credited(sys: System, c: nat, id: string, amount: uint64)
    requires AllOk(sys) && c < |sys.accounts| && Apply(sys.accounts[c].book, ReceiveOp(id, amount)).Ok?
    ensures var a := sys.accounts[c];
            var mid := sys.(accounts := sys.accounts[c := a.(book := Some(Apply(a.book, ReceiveOp(id, amount)).value))]);
            && AllOk(mid) && TotalMinted(mid) == TotalMinted(sys) && NotYetReceived(mid) == NotYetReceived(sys)
            && (!Wraps(a, amount) ==> TotalBalance(mid) == TotalBalance(sys) + amount)
  {
    var a := sys.accounts[c];
    var a' := a.(book := Some(Apply(a.book, ReceiveOp(id, amount)).value));
    ApplyTotals(a.book, ReceiveOp(id, amount));
    assert BookIn(a').sends == BookIn(a).sends && Minted(BookIn(a')) == Minted(BookIn(a));
    Replaced(sys, c, a');
    OthersStayOk(sys, c, a');
  }

  lemma OthersStayOk(sys: System, c: nat, a': Account)
    requires AllOk(sys) && c < |sys.accounts| && AccountOk(a')
    ensures AllOk(sys.(accounts := sys.accounts[c := a']))
  {
  }

  /** Noting that a send was received. */
  lemma Marked(sys: System, from: nat, index: nat)
    requires AllOk(sys) && Carries(sys, from, index)
    ensures var f := sys.accounts[from];
            var sys' := sys.(accounts := sys.accounts[from := f.(done := f.done + {index})]);
            && AllOk(sys') && TotalMinted(sys') == TotalMinted(sys) && TotalBalance(sys') == TotalBalance(sys)
            && NotYetReceived(sys') + (if index in f.done then 0 else Carried(sys, from, index).amount) == NotYetReceived(sys)
  {
    var f := sys.accounts[from];
    Replaced(sys, from, f.(done := f.done + {index}));
    PendingDone(BookIn(f).sends, f.done, index);
  }

  lemma ReceivingStepConserves(sys: System, c: nat, from: nat, index: nat, id: string)
    requires AllOk(sys) && Step(sys, Receiving(c, from, index, id)).Ok?
    ensures var sys' := Step(sys, Receiving(c, from, index, id)).value;
            && AllOk(sys')
            && TotalMinted(sys') == TotalMinted(sys)
            && (Conserved(sys) && !sys'.wrapped ==> Conserved(sys'))
  {
    var a := sys.accounts[c];
    var send := Carried(sys, from, index);
    Credited(sys, c, id, send.amount);
    var mid := sys.(accounts := sys.accounts[c := a.(book := Some(Apply(a.book, ReceiveOp(id, send.amount)).value))]);
    assert BookIn(mid.accounts[from]).sends == BookIn(sys.accounts[from]).sends;
    assert mid.accounts[from].done == sys.accounts[from].done;
    Marked(mid, from, index);
    var f := mid.accounts[from];
    var marked := mid.(accounts := mid.accounts[from := f.(done := f.done + {index})]);
    var sys' := Step(sys, Receiving(c, from, index, id)).value;
    assert sys'.accounts == marked.accounts;
  }

  lemma {:induction false} StartTotals(dids: seq<string>)
    ensures TotalBalance(Start(dids)) == TotalMinted(Start(dids)) == NotYetReceived(Start(dids)) == 0
    ensures AllOk(Start(dids))
  {
    if |dids| > 0 {
      var front := dids[..|dids| - 1];
      StartTotals(front);
      assert Start(dids).accounts == Start(front).accounts + [Account(dids[|dids| - 1], None, {})];
      var last := Account(dids[|dids| - 1], None, {});
      SumBySnoc(BalanceOf(), Start(front).accounts, last);
      SumBySnoc(MintedOf(), Start(front).accounts, last);
      SumBySnoc(PendingOf(), Start(front).accounts, last);
    }
  }

  lemma StepConserves(sys: System, ev: Event)
    requires AllOk(sys) && Step(sys, ev).Ok?
    ensures var sys' := Step(sys, ev).value;
            && AllOk(sys') && TotalMinted(sys) <= TotalMinted(sys')
            && (Conserved(sys) && !sys'.wrapped ==> Conserved(sys'))
  {
    match ev
    case Ledger(c, op) => LedgerStepConserves(sys, c, op);
    case Receiving(c, from, index, id) => ReceivingStepConserves(sys, c, from, index, id);
  }

  lemma {:induction false} RunConserves(dids: seq<string>, evs: seq<Event>)
    ensures AllOk(Run(dids, evs))
    ensures !Run(dids, evs).wrapped ==> Conserved(Run(dids, evs))
  {
    if |evs| == 0 {
      StartTotals(dids);
    } else {
      var front := evs[..|evs| - 1];
      RunConserves(dids, front);
      if Step(Run(dids, front), evs[|evs| - 1]).Ok? {
        StepConserves(Run(dids, front), evs[|evs| - 1]);
      }
    }
  }

  // ----- No send received twice

  /** The event is accepted and receives a send that was received before. */
  predicate Repeats(sys: System, ev: Event) {
    ev.Receiving? && Step(sys, ev).Ok? && ev.index in sys.accounts[ev.from].done
  }

  predicate NoSendTwice(dids: seq<string>, evs: seq<Event>) {
    |evs| == 0
    || (NoSendTwice(dids, evs[..|evs| - 1]) && !Repeats(Run(dids, evs[..|evs| - 1]), evs[|evs| - 1]))
  }

  lemma {:induction false} ExcessCountsRepeats(dids: seq<string>, evs: seq<Event>)
    ensures Run(dids, evs).excess == 0 <==> NoSendTwice(dids, evs)
  {
    if |evs| > 0 {
      var front, ev := evs[..|evs| - 1], evs[|evs| - 1];
      ExcessCountsRepeats(dids, front);
      RunConserves(dids, front);
      if Repeats(Run(dids, front), ev) {
        assert AccountOk(Run(dids, front).accounts[ev.from]);
      }
    }
  }

  /** In every run without overflow, all balances and the sends not yet received add up to the mints exactly
      when no send was received twice; otherwise there is more. */
  lemma SupplyConservedIff(dids: seq<string>, evs: seq<Event>)
    requires !Run(dids, evs).wrapped
    ensures var sys := Run(dids, evs);
            && (TotalBalance(sys) + NotYetReceived(sys) == TotalMinted(sys) <==> NoSendTwice(dids, evs))
            && TotalBalance(sys) + NotYetReceived(sys) >= TotalMinted(sys)
  {
    RunConserves(dids, evs);
    ExcessCountsRepeats(dids, evs);
  }

  // ----- Receives that claim the id of the send they carry

  /** The payload claims the id of the send it carries, as payloads built for a send id do. */
  predicate ClaimsItsId(sys: System, ev: Event) {
    ev.Receiving? && Carries(sys, ev.from, ev.index) ==> ev.claimedId == Carried(sys, ev.from, ev.index).id
  }

  predicate AllClaimTheirIds(dids: seq<string>, evs: seq<Event>) {
    |evs| == 0
    || (AllClaimTheirIds(dids, evs[..|evs| - 1]) && ClaimsItsId(Run(dids, evs[..|evs| - 1]), evs[|evs| - 1]))
  }

  predicate DistinctDids(dids: seq<string>) {
    forall i, j :: 0 <= i < j < |dids| ==> dids[i] != dids[j]
  }

  ghost predicate Dids(sys: System, dids: seq<string>) {
    |sys.accounts| == |dids| && forall c :: 0 <= c < |dids| ==> sys.accounts[c].did == dids[c]
  }

  /** A received send is on record, under its own id, on the chain it was sent to. */
  predicate OnRecord(sys: System, s: Send) {
    exists c :: 0 <= c < |sys.accounts| && sys.accounts[c].did == s.destination && ReceivedBefore(BookIn(sys.accounts[c]), s.id)
  }

  ghost predicate AllOnRecord(sys: System) {
    forall from: nat, i: nat :: Carries(sys, from, i) && i in sys.accounts[from].done ==> OnRecord(sys, Carried(sys, from, i))
  }

  lemma BooksGrow(sys: System, ev: Event, c: nat)
    requires Step(sys, ev).Ok? && c < |sys.accounts|
    ensures var sys' := Step(sys, ev).value;
            && |sys'.accounts| == |sys.accounts|
            && sys'.accounts[c].did == sys.accounts[c].did
            && BookIn(sys.accounts[c]).sends <= BookIn(sys'.accounts[c]).sends
            && BookIn(sys.accounts[c]).receives <= BookIn(sys'.accounts[c]).receives
            && sys'.accounts[c].done ==
               if ev.Receiving? && ev.from == c then sys.accounts[c].done + {ev.index} else sys.accounts[c].done
  {
  }

  lemma RecordStays(sys: System, ev: Event, s: Send)
    requires Step(sys, ev).Ok? && OnRecord(sys, s)
    ensures OnRecord(Step(sys, ev).value, s)
  {
    var sys' := Step(sys, ev).value;
    var c :| 0 <= c < |sys.accounts| && sys.accounts[c].did == s.destination && ReceivedBefore(BookIn(sys.accounts[c]), s.id);
    BooksGrow(sys, ev, c);
    var i :| 0 <= i < |BookIn(sys.accounts[c]).receives| && BookIn(sys.accounts[c]).receives[i].sendId == s.id;
    assert BookIn(sys'.accounts[c]).receives[i].sendId == s.id;
  }

  /** A receive under the send's own id puts the send on record. */
  lemma ReceivingRecords(sys: System, ev: Event)
    requires ev.Receiving? && Step(sys, ev).Ok? && ClaimsItsId(sys, ev)
    ensures OnRecord(Step(sys, ev).value, Carried(sys, ev.from, ev.index))
  {
    var sys' := Step(sys, ev).value;
    var s := Carried(sys, ev.from, ev.index);
    var book := Apply(sys.accounts[ev.chain].book, ReceiveOp(ev.claimedId, s.amount)).value;
    assert BookIn(sys'.accounts[ev.chain]) == book;
    assert book.receives[|book.receives| - 1].sendId == s.id;
  }

  lemma StepKeepsRecords(sys: System, ev: Event)
    requires AllOk(sys) && AllOnRecord(sys) && Step(sys, ev).Ok? && ClaimsItsId(sys, ev)
    ensures AllOnRecord(Step(sys, ev).value)
  {
    var sys' := Step(sys, ev).value;
    forall from: nat, i: nat | Carries(sys', from, i) && i in sys'.accounts[from].done
      ensures OnRecord(sys', Carried(sys', from, i))
    {
      BooksGrow(sys, ev, from);
      assert AccountOk(sys.accounts[from]);
      if i in sys.accounts[from].done {
        assert Carries(sys, from, i) && Carried(sys', from, i) == Carried(sys, from, i);
        RecordStays(sys, ev, Carried(sys, from, i));
      } else {
        ReceivingRecords(sys, ev);
      }
    }
  }

  lemma RecordedHere(sys: System, dids: seq<string>, c: nat, s: Send)
    requires DistinctDids(dids) && Dids(sys, dids) && c < |dids| && dids[c] == s.destination && OnRecord(sys, s)
    ensures ReceivedBefore(BookIn(sys.accounts[c]), s.id)
  {
    var d :| 0 <= d < |sys.accounts| && sys.accounts[d].did == s.destination && ReceivedBefore(BookIn(sys.accounts[d]), s.id);
    assert d == c;
  }

  /** So a second receive of the same send is refused: its id is taken on the only chain it may go to. */
  lemma MatchingReceiveIsNew(sys: System, dids: seq<string>, ev: Event)
    requires DistinctDids(dids) && Dids(sys, dids) && AllOnRecord(sys)
    requires Step(sys, ev).Ok? && ClaimsItsId(sys, ev)
    ensures !Repeats(sys, ev)
  {
    if ev.Receiving? && OnRecord(sys, Carried(sys, ev.from, ev.index)) {
      RecordedHere(sys, dids, ev.chain, Carried(sys, ev.from, ev.index));
    }
  }

  lemma {:induction false} MatchingRun(dids: seq<string>, evs: seq<Event>)
    requires DistinctDids(dids) && AllClaimTheirIds(dids, evs)
    ensures Dids(Run(dids, evs), dids) && AllOnRecord(Run(dids, evs)) && Run(dids, evs).excess == 0
    ensures TotalMinted(Run(dids, evs)) < TWO_TO_THE_64 ==> !Run(dids, evs).wrapped
  {
    if |evs| > 0 {
      var front, ev := evs[..|evs| - 1], evs[|evs| - 1];
      var sys := Run(dids, front);
      MatchingRun(dids, front);
      RunConserves(dids, front);
      if Step(sys, ev).Ok? {
        forall c | 0 <= c < |dids|
          ensures Step(sys, ev).value.accounts[c].did == dids[c]
        {
          BooksGrow(sys, ev, c);
        }
        StepKeepsRecords(sys, ev);
        MatchingReceiveIsNew(sys, dids, ev);
        StepConserves(sys, ev);
        if TotalMinted(Step(sys, ev).value) < TWO_TO_THE_64 {
          NothingWraps(sys, ev);
        }
      }
    }
  }

  /** Where everything is conserved, no balance exceeds the mints, so crediting does not wrap. */
  lemma NothingWraps(sys: System, ev: Event)
    requires AllOk(sys) && Conserved(sys) && sys.excess == 0 && !sys.wrapped
    requires Step(sys, ev).Ok? && !Repeats(sys, ev) && TotalMinted(Step(sys, ev).value) < TWO_TO_THE_64
    ensures !Step(sys, ev).value.wrapped
  {
    SumByBound(BalanceOf(), sys.accounts, ev.chain);
    match ev
    case Ledger(c, op) => LedgerStepConserves(sys, c, op);
    case Receiving(c, from, index, id) =>
      ReceivingStepConserves(sys, c, from, index, id);
      var f := sys.accounts[from];
      SumByBound(PendingOf(), sys.accounts, from);
      PendingDone(BookIn(f).sends, f.done, index);
  }

  /** In every run of any number of chains whose receives claim the ids of the sends they carry, and whose
      mints add up to a 64-bit word, the sum of all balances is the mints less the sends not yet received. */
  lemma SupplyConserved(dids: seq<string>, evs: seq<Event>)
    requires DistinctDids(dids) && AllClaimTheirIds(dids, evs) && TotalMinted(Run(dids, evs)) < TWO_TO_THE_64
    ensures var sys := Run(dids, evs);
            && TotalBalance(sys) == TotalMinted(sys) - NotYetReceived(sys)
            && TotalBalance(sys) <= TotalMinted(sys)
  {
    MatchingRun(dids, evs);
    RunConserves(dids, evs);
  }

  // ----- Each chain on its own

  /** The ledger operations that the events of a run put to one chain. */
  function OpsOf(dids: seq<string>, evs: seq<Event>, c: nat): seq<Op> {
    if |evs| == 0 then []
    else
      var front := evs[..|evs| - 1];
      var op := OpOn(Run(dids, front), evs[|evs| - 1], c);
      if op.Some? then OpsOf(dids, front, c) + [op.value] else OpsOf(dids, front, c)
  }

  /** The operation that an event puts to one chain. */
  function OpOn(sys: System, ev: Event, c: nat): Option<Op> {
    match ev
    case Ledger(d, op) => if d == c && !op.ReceiveOp? then Some(op) else None
    case Receiving(d, from, index, id) =>
      if d == c < |sys.accounts| && Carries(sys, from, index)
         && Carried(sys, from, index).destination == sys.accounts[c].did
      then Some(ReceiveOp(id, Carried(sys, from, index).amount)) else None
  }

  /** An event applies its operation to the chain's book, if the book allows it. */
  lemma StepOnBook(sys: System, ev: Event, c: nat)
    requires c < |sys.accounts|
    ensures var sys' := if Step(sys, ev).Ok? then Step(sys, ev).value else sys;
            var op := OpOn(sys, ev, c);
            && |sys'.accounts| == |sys.accounts|
            && sys'.accounts[c].book ==
               if op.Some? && Apply(sys.accounts[c].book, op.value).Ok? then Some(Apply(sys.accounts[c].book, op.value).value)
               else sys.accounts[c].book
  {
  }

  lemma OpsRunSnoc(ops: seq<Op>, op: Op)
    ensures var book := Books.Run(ops);
            Books.Run(ops + [op]) == if Apply(book, op).Ok? then Some(Apply(book, op).value) else book
  {
    assert (ops + [op])[..|ops|] == ops;
  }

  /** The accounts are the books that the chains' own ledgers end with, so everything that holds of every run
      of one ledger holds here too. */
  lemma {:induction false} AccountsAreLedgerRuns(dids: seq<string>, evs: seq<Event>, c: nat)
    requires c < |dids|
    ensures |Run(dids, evs).accounts| == |dids|
    ensures Run(dids, evs).accounts[c].book == Books.Run(OpsOf(dids, evs, c))
  {
    if |evs| > 0 {
      var front, ev := evs[..|evs| - 1], evs[|evs| - 1];
      AccountsAreLedgerRuns(dids, front, c);
      StepOnBook(Run(dids, front), ev, c);
      var op := OpOn(Run(dids, front), ev, c);
      if op.Some? {
        OpsRunSnoc(OpsOf(dids, front, c), op.value);
      }
    }
  }

  // ----- The ids are what conservation rests on

  lemma RunSnoc(dids: seq<string>, evs: seq<Event>, ev: Event)
    requires Step(Run(dids, evs), ev).Ok?
    ensures Run(dids, evs + [ev]) == Step(Run(dids, evs), ev).value
  {
    assert (evs + [ev])[..|evs|] == evs;
  }

  /** Two chains; the first has minted 10 and sent them to the second. */
  const TWO_CHAINS: seq<string> := ["a", "b"]
  const SENT_EVENTS: seq<Event> := [Ledger(0, EstablishOp(0)), Ledger(0, MintOp(10)), Ledger(0, SendOp("x", "b", 10))]
  const SENDER := Account("a", Some(Book(Some(0), [10], [Send("x", 10, "b")], [], 0)), {})

  lemma TwoChainsSend()
    ensures Run(TWO_CHAINS, SENT_EVENTS) == System([SENDER, Account("b", None, {})], 0, false)
  {
    var evs0: seq<Event> := [];
    var evs1 := [Ledger(0, EstablishOp(0))];
    var evs2 := [Ledger(0, EstablishOp(0)), Ledger(0, MintOp(10))];
    var b := Account("b", None, {});
    assert Start(TWO_CHAINS).accounts == [Account("a", None, {}), b];
    assert evs0 + [Ledger(0, EstablishOp(0))] == evs1;
    assert evs1 + [Ledger(0, MintOp(10))] == evs2;
    assert evs2 + [Ledger(0, SendOp("x", "b", 10))] == SENT_EVENTS;
    var established, minted := Book(Some(0), [], [], [], 0), Book(Some(0), [10], [], [], 10);
    var s0 := System([Account("a", None, {}), b], 0, false);
    var s1 := System([Account("a", Some(established), {}), b], 0, false);
    var s2 := System([Account("a", Some(minted), {}), b], 0, false);
    assert Apply(None, EstablishOp(0)) == Ok(established);
    assert Step(s0, Ledger(0, EstablishOp(0))).value.accounts == s1.accounts;
    RunSnoc(TWO_CHAINS, evs0, Ledger(0, EstablishOp(0)));
    assert established.mints + [10] == [10];
    assert Apply(Some(established), MintOp(10)) == Ok(minted);
    assert Step(s1, Ledger(0, MintOp(10))).value.accounts == s2.accounts;
    RunSnoc(TWO_CHAINS, evs1, Ledger(0, MintOp(10)));
    assert minted.sends + [Send("x", 10, "b")] == [Send("x", 10, "b")];
    assert Apply(Some(minted), SendOp("x", "b", 10)) == Ok(SENDER.book.value);
    assert Step(s2, Ledger(0, SendOp("x", "b", 10))).value.accounts == [SENDER, b];
    RunSnoc(TWO_CHAINS, evs2, Ledger(0, SendOp("x", "b", 10)));
  }

  const RECEIVED_ONCE := Book(None, [], [], [Receive("x", 10)], 10)
  const RECEIVED_TWICE := Book(None, [], [], [Receive("x", 10), Receive("y", 10)], 20)

  lemma TwoChainsReceive()
    ensures Run(TWO_CHAINS, SENT_EVENTS + [Receiving(1, 0, 0, "x")]) ==
            System([SENDER.(done := {0}), Account("b", Some(RECEIVED_ONCE), {})], 0, false)
  {
    TwoChainsSend();
    var b := Account("b", None, {});
    var s3 := System([SENDER, b], 0, false);
    assert EMPTY_BOOK.receives + [Receive("x", 10)] == RECEIVED_ONCE.receives;
    assert Apply(None, ReceiveOp("x", 10)) == Ok(RECEIVED_ONCE);
    assert SENDER.done + {0} == {0};
    assert Step(s3, Receiving(1, 0, 0, "x")).value.accounts == [SENDER.(done := {0}), b.(book := Some(RECEIVED_ONCE))];
    RunSnoc(TWO_CHAINS, SENT_EVENTS, Receiving(1, 0, 0, "x"));
  }

  /** The ledger compares a receive's id with earlier ids only, not with the send it carries: received once
      under its own id and once under another, a send of 10 leaves balances of 20 on mints of 10. */
  lemma OtherIdsAreNotConserved()
    ensures var evs := SENT_EVENTS + [Receiving(1, 0, 0, "x")] + [Receiving(1, 0, 0, "y")];
            var sys := Run(TWO_CHAINS, evs);
            && DistinctDids(TWO_CHAINS) && !sys.wrapped && !NoSendTwice(TWO_CHAINS, evs)
            && TotalBalance(sys) == 20 && TotalMinted(sys) == 10
  {
    TwoChainsReceive();
    var once, twice := Account("b", Some(RECEIVED_ONCE), {}), Account("b", Some(RECEIVED_TWICE), {});
    var s4 := System([SENDER.(done := {0}), once], 0, false);
    assert RECEIVED_ONCE.receives[0].sendId == "x" != "y";
    assert RECEIVED_ONCE.receives + [Receive("y", 10)] == RECEIVED_TWICE.receives;
    assert Apply(Some(RECEIVED_ONCE), ReceiveOp("y", 10)) == Ok(RECEIVED_TWICE);
    assert Step(s4, Receiving(1, 0, 0, "y")).Ok? && {0} + {0} == {0};
    assert Step(s4, Receiving(1, 0, 0, "y")).value.accounts == [SENDER.(done := {0}), twice];
    RunSnoc(TWO_CHAINS, SENT_EVENTS + [Receiving(1, 0, 0, "x")], Receiving(1, 0, 0, "y"));
    ExcessCountsRepeats(TWO_CHAINS, SENT_EVENTS + [Receiving(1, 0, 0, "x")] + [Receiving(1, 0, 0, "y")]);
    ExampleTotals(SENDER.(done := {0}), twice);
  }

  lemma ExampleTotals(a: Account, b: Account)
    ensures SumBy(BalanceOf(), [a, b]) == BookIn(a).balance + BookIn(b).balance
    ensures SumBy(MintedOf(), [a, b]) == Minted(BookIn(a)) + Minted(BookIn(b))
    ensures BookIn(a).mints == [10] && BookIn(b).mints == [] ==> SumBy(MintedOf(), [a, b]) == 10
  {
    var none: seq<Account> := [];
    assert [a, b] == (none + [a]) + [b];
    SumBySnoc(BalanceOf(), none, a);
    SumBySnoc(BalanceOf(), none + [a], b);
    SumBySnoc(MintedOf(), none, a);
    SumBySnoc(MintedOf(), none + [a], b);
  }
}

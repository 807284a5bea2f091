/** The ledger object of consensus/tree_ledger.go: it holds a tree and replaces it. */
module TreeLedger {
  import opened Prelude
  import opened Dag
  import opened Books
  import opened TokenNames
  import T = LedgerTrees

  const TOKENS_PATH: Path := ["_tupelo", "tokens"]

  function TokenPath(name: string): Path {
    TOKENS_PATH + [name]
  }

  class TreeLedger {
    const tokenName: TokenName
    var tree: Node

    constructor (tree: Node, tokenName: TokenName)
      ensures this.tree == tree && this.tokenName == tokenName
    {
      this.tree, this.tokenName := tree, tokenName;
    }

    function Path(): Path {
      TokenPath(tokenName.ToString())
    }

    method SumTokenTransactions(cids: seq<Cid>) returns (r: Result<uint64>)
      ensures r == T.SumAmounts(cids)
    {
      var sum: uint64 := 0;
      for i := 0 to |cids|
        invariant T.SumAmounts(cids[..i]) == Ok(sum)
      {
        assert cids[..i + 1][..i] == cids[..i];
        var amount := T.AmountOf(cids[i]);
        if amount.None? {
          SumFails(cids, i);
          return Err("error fetching amount");
        }
        sum := Add64(sum, amount.value);
      }
      assert cids[..|cids|] == cids;
      r := Ok(sum);
    }

    static lemma {:induction false} SumFails(cids: seq<Cid>, i: nat)
      requires i < |cids| && T.SumAmounts(cids[..i + 1]) == Err("error fetching amount")
      ensures T.SumAmounts(cids) == Err("error fetching amount")
    {
      if i == |cids| - 1 {
        assert cids[..i + 1] == cids;
      } else {
        assert cids[..|cids| - 1][..i + 1] == cids[..i + 1];
        SumFails(cids[..|cids| - 1], i);
      }
    }

    /** The balance of the token's book; a token without a book is an error. */
    method Balance() returns (r: Result<uint64>)
      ensures r == T.BalanceAt(tree, Path())
      ensures T.TokenPlace(tree, Path()) ==>
                var book := T.BookAt(tree, Path());
                (r.Ok? <==> book.Some?) && (r.Ok? ==> r.value == book.value.balance)
    {
      if T.TokenPlace(tree, Path()) {
        T.FieldsOf(tree, Path());
      }
      r := T.BalanceAt(tree, Path());
    }

    method TokenExists() returns (found: bool)
      ensures found <==> Get(tree, Path()) != Nil
      ensures T.TokenPlace(tree, Path()) ==> (found <==> T.BookAt(tree, Path()).Some?)
    {
      found := Get(tree, Path()) != Nil;
    }

    /** Leaves an empty book at the token's place, and everything elsewhere as it was. */
    method CreateToken() returns (r: Result<Node>)
      modifies this`tree
      ensures r == T.CreateToken(old(tree), Path())
      ensures tree == if r.Ok? then r.value else old(tree)
      ensures T.TokenPlace(old(tree), Path()) ==>
                && r.Ok? && T.TokenPlace(tree, Path()) && T.BookAt(tree, Path()) == Some(EMPTY_BOOK)
                && T.SameElsewhere(old(tree), tree, Path())
    {
      if T.TokenPlace(tree, Path()) {
        T.TokenCreated(tree, Path());
      }
      r := T.CreateToken(tree, Path());
      if r.Ok? {
        tree := r.value;
      }
    }

    /** Creates the token anew, whether or not there is one. A failure to write the policy would leave the
        created token behind. */
    method EstablishToken(maximum: uint64) returns (r: Result<Node>)
      modifies this`tree
      ensures r == T.EstablishToken(old(tree), Path(), maximum)
      ensures r.Ok? ==> tree == r.value
      ensures r.Err? ==> tree == old(tree) || T.CreateToken(old(tree), Path()) == Ok(tree)
      ensures T.TokenPlace(old(tree), Path()) && Get(old(tree), Path()) == Nil ==>
                T.Refines(old(tree), Path(), r, EstablishOp(maximum))
    {
      if T.TokenPlace(tree, Path()) && Get(tree, Path()) == Nil {
        T.EstablishRefines(tree, Path(), maximum);
      }
      var created := CreateToken();
      if created.Err? {
        return created;
      }
      r := T.Written(SetAsLink(created.value, Path() + [T.POLICY], Policy(maximum)));
      if r.Ok? {
        tree := r.value;
      }
    }

    method MintToken(amount: uint64) returns (r: Result<Node>)
      modifies this`tree
      ensures r == T.MintToken(old(tree), Path(), amount)
      ensures tree == if r.Ok? then r.value else old(tree)
      ensures T.TokenPlace(old(tree), Path()) ==> T.Refines(old(tree), Path(), r, MintOp(amount))
    {
      if T.TokenPlace(tree, Path()) {
        T.MintRefines(tree, Path(), amount);
      }
      if amount == 0 {
        return Err("must mint amount greater than 0");
      }
      var maximum := T.PolicyAt(tree, Path());
      if maximum.Err? {
        return Err(maximum.error);
      }
      var mints := T.CidsAt(tree, Path(), T.MINTS);
      if mints.Err? {
        return Err(mints.error);
      }
      if maximum.value > 0 {
        var total := SumTokenTransactions(mints.value);
        if total.Err? {
          return Err(total.error);
        }
        if Add64(total.value, amount) > maximum.value {
          return Err("new mint would violate monetaryPolicy");
        }
      }
      var balance := Balance();
      if balance.Err? {
        return Err(balance.error);
      }
      r := T.Record(tree, Path(), T.MINTS, mints.value, MintRecord(amount), Add64(balance.value, amount));
      if r.Ok? {
        tree := r.value;
      }
    }

    method SendToken(id: string, destination: string, amount: uint64) returns (r: Result<Node>)
      modifies this`tree
      ensures r == T.SendToken(old(tree), Path(), id, destination, amount)
      ensures tree == if r.Ok? then r.value else old(tree)
      ensures T.TokenPlace(old(tree), Path()) ==> T.Refines(old(tree), Path(), r, SendOp(id, destination, amount))
    {
      if T.TokenPlace(tree, Path()) {
        T.SendRefines(tree, Path(), id, destination, amount);
      }
      if amount == 0 {
        return Err("must send an amount greater than 0");
      }
      var available := Balance();
      if available.Err? {
        return Err(available.error);
      }
      if available.value < amount {
        return Err("balance is too low");
      }
      var sends := T.CidsAt(tree, Path(), T.SENDS);
      if sends.Err? {
        return Err(sends.error);
      }
      r := T.Record(tree, Path(), T.SENDS, sends.value, SendRecord(id, amount, destination), available.value - amount);
      if r.Ok? {
        tree := r.value;
      }
    }

    /** Searches the receives for the send id before it adds one. */
    method ReceiveToken(sendId: string, amount: uint64) returns (r: Result<Node>)
      modifies this`tree
      ensures r == T.ReceiveToken(old(tree), Path(), sendId, amount)
      ensures r.Ok? ==> tree == r.value
      ensures r.Err? ==> tree == old(tree) || T.CreateToken(old(tree), Path()) == Ok(tree)
      ensures T.TokenPlace(old(tree), Path()) ==> T.Refines(old(tree), Path(), r, ReceiveOp(sendId, amount))
    {
      if T.TokenPlace(tree, Path()) {
        T.ReceiveRefines(tree, Path(), sendId, amount);
      }
      var tokenExists := TokenExists();
      if !tokenExists {
        var created := CreateToken();
        if created.Err? {
          return created;
        }
      }
      var receives := T.CidsAt(tree, Path(), T.RECEIVES);
      if receives.Err? {
        return Err(receives.error);
      }
      var cids := receives.value;
      for i := 0 to |cids|
        invariant T.FindReceive(cids, sendId) == T.FindReceive(cids[i..], sendId)
      {
        if !cids[i].node.ReceiveRecord? {
          return Err("error decoding token receive node");
        }
        if cids[i].node.sendId == sendId {
          return Err("transaction id already exists");
        }
      }
      var balance := Balance();
      if balance.Err? {
        return Err(balance.error);
      }
      r := T.Record(tree, Path(), T.RECEIVES, cids, ReceiveRecord(sendId, amount), Add64(balance.value, amount));
      if r.Ok? {
        tree := r.value;
      }
    }
  }
}

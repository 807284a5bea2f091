/** Replaying a block from the state that was shipped with it: the reference-tracking store
    (gossip/client/reftracking.go), the request built with it (gossip/client/processblocks.go) and the replay
    of that request (gossip/client/client.go).

    Processing a block is any deterministic program that looks blocks up and adds blocks, and decides what to
    do next by the answers so far. */
module Replay {
  import opened Prelude
  import opened Rounds

  /** What a program does next: it may end with a new tip, or with an error. */
  datatype Action = Get(id: Bytes) | Add(block: Bytes) | Done(tip: Option<Bytes>)
  datatype Answer = Block(found: Option<Bytes>) | Added | Halted
  type Program = seq<Answer> -> Action

  function Lookup(store: Store, id: Bytes): Option<Bytes> {
    if id in store then Some(store[id]) else None
  }

  // ----- Tracked execution

  /** One execution on a base store: the blocks it added, the CIDs it found in the base, those it did not find,
      and the answers it got. */
  datatype Execution = Execution(
    added: Store,
    touched: set<Bytes>,
    missed: set<Bytes>,
    answers: seq<Answer>,
    result: Option<Option<Bytes>>)

  const FRESH := Execution(map[], {}, {}, [], None)

  function Step(cidOf: Bytes -> Bytes, prog: Program, base: Store, e: Execution): Execution {
    if e.result.Some? then e.(answers := e.answers + [Halted])
    else
      match prog(e.answers)
      case Done(tip) => e.(answers := e.answers + [Halted], result := Some(tip))
      case Add(block) => e.(added := e.added[cidOf(block) := block], answers := e.answers + [Added])
      case Get(id) =>
        var found := Lookup(base + e.added, id);
        Execution(e.added,
                  if found.Some? && id !in e.added then e.touched + {id} else e.touched,
                  if found.None? then e.missed + {id} else e.missed,
                  e.answers + [Block(found)], None)
  }

  /** The execution after `n` steps. */
  function Run(cidOf: Bytes -> Bytes, prog: Program, base: Store, n: nat): Execution {
    if n == 0 then FRESH else Step(cidOf, prog, base, Run(cidOf, prog, base, n - 1))
  }

  /** The other store has what was found, and has not what was missed. */
  predicate Suffices(e: Execution, base: Store, other: Store) {
    && (forall id :: id in e.touched ==> Lookup(other, id) == Lookup(base, id))
    && (forall id :: id in e.missed ==> id !in other)
  }

  lemma {:induction false} TouchedAreBase(cidOf: Bytes -> Bytes, prog: Program, base: Store, n: nat)
    ensures var e := Run(cidOf, prog, base, n);
            && |e.answers| == n
            && (forall id :: id in e.touched ==> id in base)
            && (forall id :: id in e.missed ==> id !in base)
  {
    if n > 0 {
      TouchedAreBase(cidOf, prog, base, n - 1);
    }
  }

  /** Everything about an execution but its lookups in the base follows from its answers. */
  predicate SameRun(e: Execution, e': Execution) {
    e.answers == e'.answers && e.added == e'.added && e.result == e'.result
  }

  lemma StepAgrees(cidOf: Bytes -> Bytes, prog: Program, base: Store, other: Store, e: Execution, e': Execution)
    requires SameRun(e, e') && Suffices(e, base, other)
    ensures var (f, f') := (Step(cidOf, prog, base, e), Step(cidOf, prog, other, e'));
            && (f.answers == f'.answers <==> Suffices(f, base, other))
            && (f.answers == f'.answers ==> SameRun(f, f'))
  {
    var (f, f') := (Step(cidOf, prog, base, e), Step(cidOf, prog, other, e'));
    if e.result.None? && prog(e.answers).Get? {
      var id := prog(e.answers).id;
      assert f.answers[|e.answers|] == Block(Lookup(base + e.added, id));
      assert f'.answers[|e.answers|] == Block(Lookup(other + e.added, id));
    }
  }

  /** Once the answers differ they stay different. */
  lemma StepDiffers(cidOf: Bytes -> Bytes, prog: Program, base: Store, other: Store, e: Execution, e': Execution)
    requires |e.answers| == |e'.answers| && e.answers != e'.answers
    ensures Step(cidOf, prog, base, e).answers != Step(cidOf, prog, other, e').answers
  {
    assert Step(cidOf, prog, base, e).answers[..|e.answers|] == e.answers;
    assert Step(cidOf, prog, other, e').answers[..|e.answers|] == e'.answers;
  }

  lemma FewerAreEnough(cidOf: Bytes -> Bytes, prog: Program, base: Store, other: Store, e: Execution)
    requires Suffices(Step(cidOf, prog, base, e), base, other)
    ensures Suffices(e, base, other)
  {
  }

  /** Run again on another store, a program gets the same answers, and then adds the same blocks and ends the
      same way, exactly when that store holds what was touched and lacks what was missed. */
  lemma {:induction false} ReplayIff(cidOf: Bytes -> Bytes, prog: Program, base: Store, other: Store, n: nat)
    ensures var (e, e') := (Run(cidOf, prog, base, n), Run(cidOf, prog, other, n));
            && (e.answers == e'.answers <==> Suffices(e, base, other))
            && (e.answers == e'.answers ==> SameRun(e, e'))
  {
    if n > 0 {
      ReplayIff(cidOf, prog, base, other, n - 1);
      TouchedAreBase(cidOf, prog, base, n - 1);
      TouchedAreBase(cidOf, prog, other, n - 1);
      StepReplays(cidOf, prog, base, other, Run(cidOf, prog, base, n - 1), Run(cidOf, prog, other, n - 1));
    }
  }

  lemma StepReplays(cidOf: Bytes -> Bytes, prog: Program, base: Store, other: Store, e: Execution, e': Execution)
    requires |e.answers| == |e'.answers|
    requires e.answers == e'.answers <==> Suffices(e, base, other)
    requires e.answers == e'.answers ==> SameRun(e, e')
    ensures var (f, f') := (Step(cidOf, prog, base, e), Step(cidOf, prog, other, e'));
            && (f.answers == f'.answers <==> Suffices(f, base, other))
            && (f.answers == f'.answers ==> SameRun(f, f'))
  {
    if e.answers == e'.answers {
      StepAgrees(cidOf, prog, base, other, e, e');
    } else {
      StepDiffers(cidOf, prog, base, other, e, e');
      if Suffices(Step(cidOf, prog, base, e), base, other) {
        FewerAreEnough(cidOf, prog, base, other, e);
      }
    }
  }

  // ----- The tracking store

  class StoreWrapper {
    const cidOf: Bytes -> Bytes
    var store: Store
    var touched: set<Bytes>
    var added: set<Bytes>

    constructor (cidOf: Bytes -> Bytes, store: Store)
      ensures this.cidOf == cidOf && this.store == store && touched == {} && added == {}
    {
      this.cidOf, this.store, touched, added := cidOf, store, {}, {};
    }

    /** The wrapper is where an execution on the base store has got to. */
    ghost predicate Tracks(base: Store, e: Execution)
      reads this
    {
      store == base + e.added && touched == e.touched && added == e.added.Keys
    }

    method GetNode(id: Bytes) returns (n: Option<Bytes>)
      modifies this`touched
      ensures n == Lookup(store, id)
      ensures touched == if n.Some? && id !in added then old(touched) + {id} else old(touched)
    {
      n := Lookup(store, id);
      if n.Some? {
        if id !in added {
          touched := touched + {id};
        }
      }
    }

    method AddNode(n: Bytes)
      modifies this`store, this`added
      ensures store == old(store)[cidOf(n) := n] && added == old(added) + {cidOf(n)}
    {
      store := store[cidOf(n) := n];
      added := added + {cidOf(n)};
    }

    /** Does what the program says next. */
    method Advance(prog: Program, answers: seq<Answer>, ghost base: Store, ghost e: Execution)
      returns (answer: Answer, result: Option<Option<Bytes>>)
      requires Tracks(base, e) && answers == e.answers && e.result.None?
      modifies this
      ensures var next := Step(cidOf, prog, base, e);
              Tracks(base, next) && next.answers == answers + [answer] && next.result == result
    {
      result := None;
      match prog(answers)
      case Done(tip) =>
        result, answer := Some(tip), Halted;
      case Add(block) =>
        AddNode(block);
        answer := Added;
      case Get(id) =>
        var found := GetNode(id);
        answer := Block(found);
    }

    /** Drives a program for `n` steps. */
    method Process(prog: Program, n: nat, ghost base: Store) returns (result: Option<Option<Bytes>>)
      requires Tracks(base, FRESH)
      modifies this
      ensures Tracks(base, Run(cidOf, prog, base, n))
      ensures result == Run(cidOf, prog, base, n).result
    {
      result := None;
      var answers: seq<Answer> := [];
      for i := 0 to n
        invariant Tracks(base, Run(cidOf, prog, base, i))
        invariant answers == Run(cidOf, prog, base, i).answers
        invariant result == Run(cidOf, prog, base, i).result
      {
        if result.Some? {
          answers := answers + [Halted];
        } else {
          var answer;
          answer, result := Advance(prog, answers, base, Run(cidOf, prog, base, i));
          answers := answers + [answer];
        }
      }
    }

    /** The blocks to ship: those touched, for any but a chain's first block, and those added. */
    method State(height: uint64, ghost base: Store, ghost e: Execution) returns (r: Result<seq<Bytes>>)
      requires Tracks(base, e)
      ensures r.Ok? <==> e.added.Keys <= store.Keys && (height > 0 ==> e.touched <= store.Keys)
      ensures r.Ok? ==> forall b :: b in r.value <==> Used(base, e, height, b)
    {
      var state: seq<Bytes> := [];
      if height > 0 {
        var touchedNodes := CidToNodes(touched);
        if touchedNodes.Err? {
          return Err("error getting node");
        }
        state := touchedNodes.value;
      }
      var newNodes := CidToNodes(added);
      if newNodes.Err? {
        return Err("error getting node");
      }
      r := Ok(state + newNodes.value);
    }

    /** The blocks of a set of CIDs, in the set's own order; a CID that is gone from the store is an error. */
    method CidToNodes(ids: set<Bytes>) returns (r: Result<seq<Bytes>>)
      ensures r.Ok? <==> ids <= store.Keys
      ensures r.Ok? ==> forall b :: b in r.value <==> exists id :: id in ids && Lookup(store, id) == Some(b)
    {
      var nodes: seq<Bytes> := [];
      var rest := ids;
      while rest != {}
        invariant rest <= ids
        invariant forall id :: id in ids && id !in rest ==> id in store
        invariant forall b :: b in nodes <==> exists id :: id in ids && id !in rest && Lookup(store, id) == Some(b)
      {
        var id :| id in rest;
        var n := Lookup(store, id);
        if n.None? {
          return Err("error getting node");
        }
        nodes := nodes + [n.value];
        rest := rest - {id};
      }
      r := Ok(nodes);
    }
  }

  // ----- The request

  /** The height of the next block: one above the root's, or zero for a chain that has no block yet. */
  function GetHeight(decodeRoot: Bytes -> Option<uint64>, base: Store, tip: Bytes, genesis: bool): Result<uint64> {
    match Lookup(base, tip)
    case None => Err("missing root")
    case Some(root) =>
      match decodeRoot(root)
      case None => Err("error decoding root")
      case Some(height) => Ok(if genesis || height + 1 == TWO_TO_THE_64 then 0 else height + 1)
  }

  /** A block that was added, or found in the base store by any but a chain's first block. */
  ghost predicate Used(base: Store, e: Execution, height: uint64, block: Bytes) {
    exists id :: (id in e.added || (height > 0 && id in e.touched)) && Lookup(base + e.added, id) == Some(block)
  }

  /** The request holds the tip that its block leads to, and ships the blocks that were used and no others. */
  ghost predicate Reports(request: AddBlockRequest, base: Store, e: Execution) {
    && e.result == Some(Some(request.newTip))
    && forall b :: b in request.state <==> Used(base, e, request.height, b)
  }

  /** Signs a block of the next height, processes it on a tracked store and ships what it used. `signedBlock`
      gives the signed block of a height, `process` the program for a tip and a block, validators included;
      `n` is how long it may take. */
  method NewAddBlockRequest(
    cidOf: Bytes -> Bytes, process: (Bytes, Bytes) -> Program, decodeRoot: Bytes -> Option<uint64>,
    signedBlock: uint64 -> Option<Bytes>, base: Store, tip: Bytes, genesis: bool, chainId: Bytes, n: nat)
    returns (r: Result<AddBlockRequest>)
    ensures r.Ok? ==>
              && tip in base && decodeRoot(base[tip]).Some?
              && var rootHeight := decodeRoot(base[tip]).value;
                 && (genesis ==> r.value.height == 0)
                 && (!genesis && rootHeight + 1 < TWO_TO_THE_64 ==> r.value.height == rootHeight + 1)
                 && (!genesis && rootHeight + 1 == TWO_TO_THE_64 ==> r.value.height == 0)
    ensures var height := GetHeight(decodeRoot, base, tip, genesis);
            if height.Err? || signedBlock(height.value).None? then r.Err?
            else
              var payload := signedBlock(height.value).value;
              var e := Run(cidOf, process(tip, payload), base, n);
              && (r.Ok? <==> e.result.Some? && e.result.value.Some?)
              && (r.Ok? ==>
                    && r.value.previousTip == tip && r.value.height == height.value && r.value.payload == payload
                    && r.value.objectId == chainId && Reports(r.value, base, e))
  {
    var height := GetHeight(decodeRoot, base, tip, genesis);
    if height.Err? {
      return Err("error getting tree height");
    }
    var payload := signedBlock(height.value);
    if payload.None? {
      return Err("error signing block");
    }
    var tracker := new StoreWrapper(cidOf, base);
    var result := tracker.Process(process(tip, payload.value), n, base);
    if result.None? || result.value.None? {
      return Err("error processing block");
    }
    var state := tracker.State(height.value, base, Run(cidOf, process(tip, payload.value), base, n));
    if state.Err? {
      TouchedAreBase(cidOf, process(tip, payload.value), base, n);
      return Err("error getting node");
    }
    r := Ok(AddBlockRequest(tip, height.value, payload.value, result.value.value, chainId, state.value));
  }

  // ----- The replay

  /** A store with some blocks added. */
  function WithBlocks(cidOf: Bytes -> Bytes, store: Store, blocks: seq<Bytes>): Store {
    if |blocks| == 0 then store
    else WithBlocks(cidOf, store, blocks[..|blocks| - 1])[cidOf(blocks[|blocks| - 1]) := blocks[|blocks| - 1]]
  }

  predicate Among(cidOf: Bytes -> Bytes, blocks: seq<Bytes>, id: Bytes) {
    exists b :: b in blocks && cidOf(b) == id
  }

  lemma {:induction false} WithBlocksHas(cidOf: Bytes -> Bytes, store: Store, blocks: seq<Bytes>)
    requires ContentAddressed(cidOf, store)
    ensures ContentAddressed(cidOf, WithBlocks(cidOf, store, blocks))
    ensures forall id :: id in WithBlocks(cidOf, store, blocks) <==> id in store || Among(cidOf, blocks, id)
  {
    if |blocks| > 0 {
      var front, last := blocks[..|blocks| - 1], blocks[|blocks| - 1];
      WithBlocksHas(cidOf, store, front);
      assert blocks == front + [last];
      assert forall id :: Among(cidOf, blocks, id) <==> Among(cidOf, front, id) || id == cidOf(last);
    }
  }

  /** The store that a replay works on: the client's own blocks and the shipped ones, and for a first block
      those of the empty tree. */
  function ReplayStore(cidOf: Bytes -> Bytes, client: Store, request: AddBlockRequest, emptyTree: seq<Bytes>): Store {
    WithBlocks(cidOf, client, request.state + if request.height > 0 then [] else emptyTree)
  }

  /** `GetLatest`: saves the shipped blocks, plays the block again and compares the tips. */
  function Replayed(
    cidOf: Bytes -> Bytes, process: (Bytes, Bytes) -> Program, client: Store,
    request: AddBlockRequest, emptyTree: seq<Bytes>, emptyTip: Bytes, n: nat): Result<Bytes>
  {
    var store := ReplayStore(cidOf, client, request, emptyTree);
    var tip := if request.height > 0 then request.previousTip else emptyTip;
    match Run(cidOf, process(tip, request.payload), store, n).result
    case Some(Some(newTip)) => if newTip == request.newTip then Ok(newTip) else Err("tips did not match")
    case _ => Err("error processing block")
  }

  lemma {:induction false} WithMoreBlocks(cidOf: Bytes -> Bytes, store: Store, blocks: seq<Bytes>, more: seq<Bytes>)
    ensures WithBlocks(cidOf, WithBlocks(cidOf, store, blocks), more) == WithBlocks(cidOf, store, blocks + more)
  {
    if |more| == 0 {
      assert blocks + more == blocks;
    } else {
      WithMoreBlocks(cidOf, store, blocks, more[..|more| - 1]);
      assert (blocks + more)[..|blocks + more| - 1] == blocks + more[..|more| - 1];
    }
  }

  class Client {
    const cidOf: Bytes -> Bytes
    var store: Store

    constructor (cidOf: Bytes -> Bytes, store: Store)
      ensures this.cidOf == cidOf && this.store == store
    {
      this.cidOf, this.store := cidOf, store;
    }

    method AddMany(blocks: seq<Bytes>)
      modifies this`store
      ensures store == WithBlocks(cidOf, old(store), blocks)
    {
      for i := 0 to |blocks|
        invariant store == WithBlocks(cidOf, old(store), blocks[..i])
      {
        assert blocks[..i + 1][..i] == blocks[..i];
        store := store[cidOf(blocks[i]) := blocks[i]];
      }
      assert blocks[..|blocks|] == blocks;
    }

    /** The blocks that the replay adds stay in the client's store, whatever comes of it. */
    method GetLatest(process: (Bytes, Bytes) -> Program, request: AddBlockRequest, emptyTree: seq<Bytes>, emptyTip: Bytes, n: nat)
      returns (r: Result<Bytes>)
      modifies this`store
      ensures r == Replayed(cidOf, process, old(store), request, emptyTree, emptyTip, n)
      ensures var from := ReplayStore(cidOf, old(store), request, emptyTree);
              var tip := if request.height > 0 then request.previousTip else emptyTip;
              store == from + Run(cidOf, process(tip, request.payload), from, n).added
    {
      AddMany(request.state);
      var tip := request.previousTip;
      if request.height == 0 {
        AddMany(emptyTree);
        tip := emptyTip;
      }
      WithMoreBlocks(cidOf, old(store), request.state, if request.height > 0 then [] else emptyTree);
      var tree := new StoreWrapper(cidOf, store);
      var result := tree.Process(process(tip, request.payload), n, store);
      store := tree.store;
      if result.None? || result.value.None? {
        return Err("error processing block");
      }
      if result.value.value != request.newTip {
        return Err("tips did not match");
      }
      r := Ok(request.newTip);
    }
  }

  /** It succeeds exactly when the replay ends with the tip of the request: from the previous tip, or from the
      empty tree for a first block. */
  lemma ReplayedIff(
    cidOf: Bytes -> Bytes, process: (Bytes, Bytes) -> Program, client: Store,
    request: AddBlockRequest, emptyTree: seq<Bytes>, emptyTip: Bytes, n: nat)
    ensures var r := Replayed(cidOf, process, client, request, emptyTree, emptyTip, n);
            var tip := if request.height > 0 then request.previousTip else emptyTip;
            var e := Run(cidOf, process(tip, request.payload), ReplayStore(cidOf, client, request, emptyTree), n);
            (r.Ok? <==> e.result == Some(Some(request.newTip))) && (r.Ok? ==> r.value == request.newTip)
  {
  }

  lemma {:induction false} AddedAreAddressed(cidOf: Bytes -> Bytes, prog: Program, base: Store, n: nat)
    ensures ContentAddressed(cidOf, Run(cidOf, prog, base, n).added)
  {
    if n > 0 {
      AddedAreAddressed(cidOf, prog, base, n - 1);
    }
  }

  /** What the client itself brings to a replay: its own blocks, and the empty tree for a first block. */
  predicate Brings(cidOf: Bytes -> Bytes, client: Store, height: uint64, emptyTree: seq<Bytes>, id: Bytes) {
    id in client || (height == 0 && Among(cidOf, emptyTree, id))
  }

  /** The blocks of a replay: what the client brings, what was added, and for a later block what was touched. */
  lemma ReplayStoreHas(
    cidOf: Bytes -> Bytes, prog: Program, base: Store, client: Store, request: AddBlockRequest,
    emptyTree: seq<Bytes>, n: nat)
    requires ContentAddressed(cidOf, base) && ContentAddressed(cidOf, client)
    requires Reports(request, base, Run(cidOf, prog, base, n))
    ensures var e := Run(cidOf, prog, base, n);
            var store := ReplayStore(cidOf, client, request, emptyTree);
            && ContentAddressed(cidOf, store)
            && forall id :: id in store <==>
                              Brings(cidOf, client, request.height, emptyTree, id) || id in e.added
                              || (request.height > 0 && id in e.touched)
  {
    var e := Run(cidOf, prog, base, n);
    var blocks := request.state + if request.height > 0 then [] else emptyTree;
    WithBlocksHas(cidOf, client, blocks);
    TouchedAreBase(cidOf, prog, base, n);
    AddedAreAddressed(cidOf, prog, base, n);
    forall id
      ensures Among(cidOf, request.state, id) <==> id in e.added || (request.height > 0 && id in e.touched)
    {
      if Among(cidOf, request.state, id) {
        var b :| b in request.state && cidOf(b) == id;
        assert Used(base, e, request.height, b);
      }
      if id in e.added || (request.height > 0 && id in e.touched) {
        var b := (base + e.added)[id];
        assert Lookup(base + e.added, id) == Some(b);
        assert Used(base, e, request.height, b);
      }
    }
    assert forall id :: Among(cidOf, blocks, id) <==>
                          Among(cidOf, request.state, id) || (request.height == 0 && Among(cidOf, emptyTree, id));
  }

  /** What was looked up in vain is neither added later nor brought by the client; and a first block touched
      only what the client brings or the block adds itself. */
  predicate Replayable(
    cidOf: Bytes -> Bytes, e: Execution, client: Store, height: uint64, emptyTree: seq<Bytes>)
  {
    && (forall id :: id in e.missed ==> id !in e.added && !Brings(cidOf, client, height, emptyTree, id))
    && (height == 0 ==> forall id :: id in e.touched ==> id in e.added || Brings(cidOf, client, height, emptyTree, id))
  }

  /** Any program, run again by a client from the shipped state, gets the same answers, adds the same blocks
      and ends the same way exactly when it is replayable there; and then the client reaches the tip of the
      request. */
  lemma ShippedStateReplays(
    cidOf: Bytes -> Bytes, process: (Bytes, Bytes) -> Program, base: Store, client: Store,
    request: AddBlockRequest, emptyTree: seq<Bytes>, emptyTip: Bytes, n: nat)
    requires CollisionFree(cidOf) && ContentAddressed(cidOf, base) && ContentAddressed(cidOf, client)
    requires Reports(request, base, Run(cidOf, process(request.previousTip, request.payload), base, n))
    ensures var prog := process(request.previousTip, request.payload);
            var e := Run(cidOf, prog, base, n);
            && (SameRun(e, Run(cidOf, prog, ReplayStore(cidOf, client, request, emptyTree), n))
                <==> Replayable(cidOf, e, client, request.height, emptyTree))
            && (Replayable(cidOf, e, client, request.height, emptyTree)
                && (request.height > 0 || emptyTip == request.previousTip)
                ==> Replayed(cidOf, process, client, request, emptyTree, emptyTip, n) == Ok(request.newTip))
  {
    var prog := process(request.previousTip, request.payload);
    var e := Run(cidOf, prog, base, n);
    var store := ReplayStore(cidOf, client, request, emptyTree);
    ReplayStoreHas(cidOf, prog, base, client, request, emptyTree, n);
    TouchedAreBase(cidOf, prog, base, n);
    ReplayIff(cidOf, prog, base, store, n);
    assert forall id :: id in e.touched && id in store ==> Lookup(store, id) == Lookup(base, id);
    assert Suffices(e, base, store) <==> Replayable(cidOf, e, client, request.height, emptyTree);
  }

  /** After a replay the client has everything that the first run added, so it can go on from the new tip. */
  lemma ReplayBringsNewBlocks(
    cidOf: Bytes -> Bytes, prog: Program, base: Store, client: Store, request: AddBlockRequest,
    emptyTree: seq<Bytes>, n: nat, id: Bytes)
    requires CollisionFree(cidOf) && ContentAddressed(cidOf, base) && ContentAddressed(cidOf, client)
    requires var e := Run(cidOf, prog, base, n);
             && Reports(request, base, e) && Replayable(cidOf, e, client, request.height, emptyTree)
             && (id in e.added || id in e.touched)
    ensures var e := Run(cidOf, prog, base, n);
            var from := ReplayStore(cidOf, client, request, emptyTree);
            Lookup(from + Run(cidOf, prog, from, n).added, id) == Lookup(base + e.added, id)
  {
    var e := Run(cidOf, prog, base, n);
    var from := ReplayStore(cidOf, client, request, emptyTree);
    ReplayStoreHas(cidOf, prog, base, client, request, emptyTree, n);
    TouchedAreBase(cidOf, prog, base, n);
    AddedAreAddressed(cidOf, prog, base, n);
    AddedAreAddressed(cidOf, prog, from, n);
    assert cidOf((base + e.added)[id]) == id && id in from;
    assert cidOf((from + Run(cidOf, prog, from, n).added)[id]) == id;
  }

  /** A block that looks up nothing in vain replays on every client's store: a later block always, a first
      block when it touched only the empty tree. */
  lemma NothingMissedReplays(
    cidOf: Bytes -> Bytes, process: (Bytes, Bytes) -> Program, base: Store, client: Store,
    request: AddBlockRequest, emptyTree: seq<Bytes>, emptyTip: Bytes, n: nat)
    requires CollisionFree(cidOf) && ContentAddressed(cidOf, base) && ContentAddressed(cidOf, client)
    requires var e := Run(cidOf, process(request.previousTip, request.payload), base, n);
             && Reports(request, base, e) && e.missed == {}
             && (request.height == 0 ==>
                   emptyTip == request.previousTip && forall id :: id in e.touched ==> Among(cidOf, emptyTree, id))
    ensures Replayed(cidOf, process, client, request, emptyTree, emptyTip, n) == Ok(request.newTip)
  {
    ShippedStateReplays(cidOf, process, base, client, request, emptyTree, emptyTip, n);
  }

  /** Looks a block up, and adds it if it is not there; the tip it ends with tells which. */
  function AddIfMissing(block: Bytes): Program {
    (answers: seq<Answer>) =>
      if |answers| == 0 then Get(block)
      else if answers[0] != Block(None) then Done(Some([2]))
      else if |answers| == 1 then Add(block)
      else Done(Some([1]))
  }

  /** Where it is there, the tip is [2]; where it is not, it is added and the tip is [1]. */
  lemma PresentIsFound(cidOf: Bytes -> Bytes, block: Bytes, store: Store)
    requires block in store
    ensures Run(cidOf, AddIfMissing(block), store, 3).result == Some(Some([2]))
  {
    var prog := AddIfMissing(block);
    var e1 := Step(cidOf, prog, store, FRESH);
    assert e1.answers == [Block(Some(store[block]))];
    var e2 := Step(cidOf, prog, store, e1);
    assert e2.result == Some(Some([2]));
    ThreeSteps(cidOf, prog, store);
  }

  lemma MissingIsAdded(cidOf: Bytes -> Bytes, block: Bytes, store: Store)
    requires cidOf(block) == block && block !in store
    ensures var e := Run(cidOf, AddIfMissing(block), store, 3);
            e.result == Some(Some([1])) && e.added == map[block := block] && e.touched == {}
  {
    var prog := AddIfMissing(block);
    var e1 := Step(cidOf, prog, store, FRESH);
    assert e1 == Execution(map[], {}, {block}, [Block(None)], None);
    var e2 := Step(cidOf, prog, store, e1);
    assert e2 == Execution(map[block := block], {}, {block}, [Block(None), Added], None);
    ThreeSteps(cidOf, prog, store);
  }

  lemma ThreeSteps(cidOf: Bytes -> Bytes, prog: Program, store: Store)
    ensures Run(cidOf, prog, store, 3) ==
            Step(cidOf, prog, store, Step(cidOf, prog, store, Step(cidOf, prog, store, FRESH)))
  {
    assert Run(cidOf, prog, store, 1) == Step(cidOf, prog, store, FRESH);
    assert Run(cidOf, prog, store, 2) == Step(cidOf, prog, store, Run(cidOf, prog, store, 1));
  }

  /** Where blocks are their own CIDs and the base store is empty, such a program is not replayable: the
      request ships the block that was added, so the replay finds what the first run missed. */
  lemma AddedAfterMissIsFound(request: AddBlockRequest, client: Store, emptyTree: seq<Bytes>, emptyTip: Bytes)
    requires request.height > 0 && request.newTip == [1] && request.state == [[7]]
    requires ContentAddressed((b: Bytes) => b, client)
    ensures var cidOf := (b: Bytes) => b;
            var process := (tip: Bytes, payload: Bytes) => AddIfMissing([7]);
            && CollisionFree(cidOf) && Reports(request, map[], Run(cidOf, AddIfMissing([7]), map[], 3))
            && Replayed(cidOf, process, client, request, emptyTree, emptyTip, 3).Err?
  {
    var cidOf, block := (b: Bytes) => b, [7];
    var base: Store := map[];
    var e := Run(cidOf, AddIfMissing(block), base, 3);
    MissingIsAdded(cidOf, block, base);
    forall b
      ensures b in request.state <==> Used(base, e, request.height, b)
    {
      if b == block {
        assert Lookup(base + e.added, block) == Some(b);
      }
    }
    WithBlocksHas(cidOf, client, request.state + []);
    assert block in request.state + [] && Among(cidOf, request.state + [], block);
    PresentIsFound(cidOf, block, ReplayStore(cidOf, client, request, emptyTree));
  }

  /** Shipping the touched blocks alone is already enough, whatever was looked up in vain. */
  lemma TouchedBlocksReplay(cidOf: Bytes -> Bytes, prog: Program, base: Store, n: nat)
    ensures var e := Run(cidOf, prog, base, n);
            var only: Store := map id | id in base && id in e.touched :: base[id];
            SameRun(e, Run(cidOf, prog, only, n))
  {
    var e := Run(cidOf, prog, base, n);
    var only: Store := map id | id in base && id in e.touched :: base[id];
    TouchedAreBase(cidOf, prog, base, n);
    ReplayIff(cidOf, prog, base, only, n);
  }
}

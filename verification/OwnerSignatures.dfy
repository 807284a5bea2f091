/** Owners' signatures on a block (consensus/consensus.go, gossip/types/validators.go). */
module OwnerSignatures {
  import opened Prelude
  import opened Dag
  import opened TokenNames
  import opened TreeLedger
  import opened Transactions
  import opened Signatures
  import T = LedgerTrees

  /** The foreign code: signing, recovering the public key from a signature, checking one, and hashing. */
  datatype Ecdsa = Ecdsa(
    sign: (nat, Bytes) -> Bytes,
    publicKey: nat -> Bytes,
    recover: (Bytes, Bytes) -> Option<Bytes>,
    verify: (Bytes, Bytes, Bytes) -> bool,
    address: Bytes -> string,
    hash: Bytes -> Bytes)
  {
    /** A signature gives away its key and verifies under it. */
    ghost predicate Sound() {
      forall key, h :: recover(h, sign(key, h)) == Some(publicKey(key)) && verify(publicKey(key), h, sign(key, h))
    }

    function AddressOf(key: nat): string {
      address(publicKey(key))
    }
  }

  datatype HeaderSignature = HeaderSignature(keyType: KeyType, signature: Bytes)

  type SignatureMap = map<string, HeaderSignature>

  /** A signature counts for the address it is filed under only if its key has that address. */
  function SignedBy(ec: Ecdsa, block: Bytes, sigs: SignatureMap, addr: string): Result<bool> {
    if addr !in sigs then Ok(false)
    else if sigs[addr].keyType != KeyTypeSecp256k1 then Err("unknown signature type")
    else
      var h := ec.hash(block);
      match ec.recover(h, sigs[addr].signature)
      case None => Err("error restoring public key")
      case Some(pub) =>
        if ec.address(pub) != addr then Err("unsigned by address")
        else Ok(ec.verify(pub, h, sigs[addr].signature))
  }

  /** The signature filed under an address gives away a key with that address, and verifies under it. */
  ghost predicate Genuine(ec: Ecdsa, block: Bytes, sigs: SignatureMap, addr: string) {
    && addr in sigs && sigs[addr].keyType == KeyTypeSecp256k1
    && exists pub :: ec.recover(ec.hash(block), sigs[addr].signature) == Some(pub) && ec.address(pub) == addr
                     && ec.verify(pub, ec.hash(block), sigs[addr].signature)
  }

  /** There is one, but it is of a foreign type, gives away no key, or a key with another address. */
  ghost predicate Misfiled(ec: Ecdsa, block: Bytes, sigs: SignatureMap, addr: string) {
    && addr in sigs
    && (sigs[addr].keyType == KeyTypeSecp256k1 ==>
          forall pub :: ec.recover(ec.hash(block), sigs[addr].signature) == Some(pub) ==> ec.address(pub) != addr)
  }

  /** Whatever the headers hold: a genuine signature is recognised, a misfiled one is an error, and anything else
      is not a signature of the address. */
  lemma SignedByMeans(ec: Ecdsa, block: Bytes, sigs: SignatureMap, addr: string)
    ensures SignedBy(ec, block, sigs, addr) == Ok(true) <==> Genuine(ec, block, sigs, addr)
    ensures SignedBy(ec, block, sigs, addr).Err? <==> Misfiled(ec, block, sigs, addr)
  {
    if addr in sigs && sigs[addr].keyType == KeyTypeSecp256k1 {
      var recovered := ec.recover(ec.hash(block), sigs[addr].signature);
      assert recovered.Some? ==> recovered == Some(recovered.value);
    }
  }

  /** So a signature made by a key and filed under the address of another is an error, wherever it came from. */
  lemma ForeignSignatureIsAnError(ec: Ecdsa, block: Bytes, sigs: SignatureMap, addr: string, key: nat)
    requires ec.Sound() && addr in sigs && sigs[addr] == Entry(ec, block, key) && ec.AddressOf(key) != addr
    ensures SignedBy(ec, block, sigs, addr).Err?
  {
    assert ec.recover(ec.hash(block), ec.sign(key, ec.hash(block))) == Some(ec.publicKey(key));
    assert Misfiled(ec, block, sigs, addr);
    SignedByMeans(ec, block, sigs, addr);
  }

  class Block {
    const content: Bytes
    var signatures: SignatureMap

    constructor (content: Bytes)
      ensures this.content == content && signatures == map[]
    {
      this.content, signatures := content, map[];
    }

    /** Adds a signature under the key's address; the hash leaves the headers out. */
    method SignBlock(ec: Ecdsa, key: nat)
      modifies this
      ensures signatures == old(signatures)[ec.AddressOf(key) := Entry(ec, content, key)]
    {
      var sig := ec.sign(key, ec.hash(content));
      signatures := signatures[ec.AddressOf(key) := HeaderSignature(KeyTypeSecp256k1, sig)];
    }

    /** Signs with many keys, one after another. */
    method SignAll(ec: Ecdsa, keys: seq<nat>)
      requires signatures == map[]
      modifies this
      ensures signatures == Signed(ec, content, keys)
    {
      for i := 0 to |keys|
        invariant signatures == Signed(ec, content, keys[..i])
      {
        assert keys[..i + 1][..i] == keys[..i];
        SignBlock(ec, keys[i]);
      }
      assert keys[..|keys|] == keys;
    }
  }

  function Entry(ec: Ecdsa, content: Bytes, key: nat): HeaderSignature {
    HeaderSignature(KeyTypeSecp256k1, ec.sign(key, ec.hash(content)))
  }

  function Signed(ec: Ecdsa, content: Bytes, keys: seq<nat>): SignatureMap {
    if |keys| == 0 then map[]
    else
      var key := keys[|keys| - 1];
      Signed(ec, content, keys[..|keys| - 1])[ec.AddressOf(key) := Entry(ec, content, key)]
  }

  /** The addresses that signed. */
  function Addresses(ec: Ecdsa, keys: seq<nat>): set<string> {
    set i | 0 <= i < |keys| :: ec.AddressOf(keys[i])
  }

  lemma {:induction false} SignedEntries(ec: Ecdsa, content: Bytes, keys: seq<nat>)
    ensures Signed(ec, content, keys).Keys == Addresses(ec, keys)
    ensures forall addr :: addr in Signed(ec, content, keys) ==>
              exists i :: 0 <= i < |keys| && ec.AddressOf(keys[i]) == addr
                          && Signed(ec, content, keys)[addr] == Entry(ec, content, keys[i])
  {
    if |keys| > 0 {
      var front := keys[..|keys| - 1];
      SignedEntries(ec, content, front);
      assert Addresses(ec, keys) == Addresses(ec, front) + {ec.AddressOf(keys[|keys| - 1])};
      forall addr | addr in Signed(ec, content, keys)
        ensures exists i :: 0 <= i < |keys| && ec.AddressOf(keys[i]) == addr
                            && Signed(ec, content, keys)[addr] == Entry(ec, content, keys[i])
      {
        if addr == ec.AddressOf(keys[|keys| - 1]) {
          assert Signed(ec, content, keys)[addr] == Entry(ec, content, keys[|keys| - 1]);
        } else {
          var i :| 0 <= i < |front| && ec.AddressOf(front[i]) == addr
                   && Signed(ec, content, front)[addr] == Entry(ec, content, front[i]);
          assert keys[i] == front[i];
        }
      }
    }
  }

  /** After any keys have signed, exactly their addresses are recognised, and no address is an error. */
  lemma SignersAreRecognised(ec: Ecdsa, content: Bytes, keys: seq<nat>, addr: string)
    requires ec.Sound()
    ensures SignedBy(ec, content, Signed(ec, content, keys), addr) == Ok(addr in Addresses(ec, keys))
  {
    SignedEntries(ec, content, keys);
    var sigs := Signed(ec, content, keys);
    if addr in sigs {
      var i :| 0 <= i < |keys| && ec.AddressOf(keys[i]) == addr && sigs[addr] == Entry(ec, content, keys[i]);
      assert ec.recover(ec.hash(content), ec.sign(keys[i], ec.hash(content))) == Some(ec.publicKey(keys[i]));
    }
  }

  // ----- Owners

  function AddrToDid(addr: string): string {
    DID_PREFIX + addr
  }

  function DidToAddr(did: string): string {
    var segs := Split(did, ':');
    segs[|segs| - 1]
  }

  lemma DidRoundTrip(addr: string)
    ensures DidToAddr(AddrToDid(addr)) == addr <==> ':' !in addr
  {
    SplitPartsAreClean(AddrToDid(addr), ':');
    if ':' !in addr {
      LastPart("did:tupelo", addr);
      assert AddrToDid(addr) == "did:tupelo" + ":" + addr;
    }
  }

  /** The authorised addresses: the list in the tree, or the key that the chain's id names. */
  function Owners(did: string, tree: Node): Result<seq<string>> {
    match Get(tree, AUTHENTICATIONS_PATH)
    case Nil => Ok([DidToAddr(did)])
    case Texts(addrs) => Ok(addrs)
    case _ => Err("err casting")
  }

  /** The first authorised address that signed decides; an error before it is an error. */
  function FirstSigned(ec: Ecdsa, block: Bytes, sigs: SignatureMap, addrs: seq<string>): Result<bool> {
    if |addrs| == 0 then Ok(false)
    else
      var signed :- SignedBy(ec, block, sigs, addrs[0]);
      if signed then Ok(true) else FirstSigned(ec, block, sigs, addrs[1..])
  }

  ghost function GenuineFor(ec: Ecdsa, block: Bytes, sigs: SignatureMap): string -> bool {
    (addr: string) => Genuine(ec, block, sigs, addr)
  }

  ghost function MisfiledFor(ec: Ecdsa, block: Bytes, sigs: SignatureMap): string -> bool {
    (addr: string) => Misfiled(ec, block, sigs, addr)
  }

  /** Some authorised address has a genuine signature, and none before it a misfiled one. */
  ghost predicate OwnerSigned(ec: Ecdsa, block: Bytes, sigs: SignatureMap, addrs: seq<string>) {
    ComesFirst(addrs, GenuineFor(ec, block, sigs), MisfiledFor(ec, block, sigs))
  }

  /** Some authorised address has a misfiled signature, and none before it a genuine one. */
  ghost predicate OwnerUnclear(ec: Ecdsa, block: Bytes, sigs: SignatureMap, addrs: seq<string>) {
    ComesFirst(addrs, MisfiledFor(ec, block, sigs), GenuineFor(ec, block, sigs))
  }

  /** Whatever the headers hold, the block is accepted exactly when an owner's own signature comes first, and an
      error exactly when a misfiled one does. */
  method IsOwner(ec: Ecdsa, did: string, tree: Node, block: Block) returns (r: Result<bool>)
    ensures var auths := Get(tree, AUTHENTICATIONS_PATH);
            if auths.Nil? || auths.Texts? then
              var addrs := if auths.Nil? then [DidToAddr(did)] else auths.ss;
              && r == FirstSigned(ec, block.content, block.signatures, addrs)
              && (r == Ok(true) <==> OwnerSigned(ec, block.content, block.signatures, addrs))
              && (r.Err? <==> OwnerUnclear(ec, block.content, block.signatures, addrs))
            else r.Err?
  {
    var owners := Owners(did, tree);
    if owners.Err? {
      return Err(owners.error);
    }
    var addrs := owners.value;
    FirstSignedMeans(ec, block.content, block.signatures, addrs);
    for i := 0 to |addrs|
      invariant FirstSigned(ec, block.content, block.signatures, addrs)
             == FirstSigned(ec, block.content, block.signatures, addrs[i..])
    {
      var signed := SignedBy(ec, block.content, block.signatures, addrs[i]);
      if signed.Err? || signed.value {
        return signed;
      }
    }
    r := Ok(false);
  }

  lemma {:induction false} FirstSignedMeans(ec: Ecdsa, block: Bytes, sigs: SignatureMap, addrs: seq<string>)
    ensures FirstSigned(ec, block, sigs, addrs) == Ok(true) <==> OwnerSigned(ec, block, sigs, addrs)
    ensures FirstSigned(ec, block, sigs, addrs).Err? <==> OwnerUnclear(ec, block, sigs, addrs)
  {
    if |addrs| > 0 {
      FirstSignedMeans(ec, block, sigs, addrs[1..]);
      SignedByMeans(ec, block, sigs, addrs[0]);
      if !Genuine(ec, block, sigs, addrs[0]) && !Misfiled(ec, block, sigs, addrs[0]) {
        NextOwner(ec, block, sigs, addrs);
      } else {
        assert !(Genuine(ec, block, sigs, addrs[0]) && Misfiled(ec, block, sigs, addrs[0]));
      }
    }
  }

  /** An address that decides nothing can be left out. */
  lemma NextOwner(ec: Ecdsa, block: Bytes, sigs: SignatureMap, addrs: seq<string>)
    requires |addrs| > 0 && !Genuine(ec, block, sigs, addrs[0]) && !Misfiled(ec, block, sigs, addrs[0])
    ensures OwnerSigned(ec, block, sigs, addrs) <==> OwnerSigned(ec, block, sigs, addrs[1..])
    ensures OwnerUnclear(ec, block, sigs, addrs) <==> OwnerUnclear(ec, block, sigs, addrs[1..])
  {
    var genuine, misfiled := GenuineFor(ec, block, sigs), MisfiledFor(ec, block, sigs);
    ComesFirstTail(addrs, genuine, misfiled);
    ComesFirstTail(addrs, misfiled, genuine);
  }

  /** The owner check over many signatures: a block signed by any keys is accepted exactly when one of their
      addresses is authorised, and is never an error. */
  lemma OwnerIffAddressesMeet(ec: Ecdsa, content: Bytes, keys: seq<nat>, addrs: seq<string>)
    requires ec.Sound()
    ensures FirstSigned(ec, content, Signed(ec, content, keys), addrs) ==
            Ok(exists i :: 0 <= i < |addrs| && addrs[i] in Addresses(ec, keys))
  {
    if |addrs| > 0 {
      SignersAreRecognised(ec, content, keys, addrs[0]);
      OwnerIffAddressesMeet(ec, content, keys, addrs[1..]);
      assert forall i :: 0 <= i < |addrs[1..]| ==> addrs[1..][i] == addrs[i + 1];
      if i :| 0 <= i < |addrs| && addrs[i] in Addresses(ec, keys) {
        assert i > 0 ==> addrs[1..][i - 1] in Addresses(ec, keys);
      }
    }
  }

  // ----- Ownership over the life of a chain

  /** On a chain that grew by transactions the owner list can always be set. */
  lemma SetOwnershipSucceeds(did: string, txs: seq<Transaction>, auths: seq<string>)
    ensures Transactions.Apply(did, Transactions.Run(did, txs), SetOwnership(auths)).Ok?
  {
    var tree := Transactions.Run(did, txs);
    RunIsHealthy(did, txs);
    assert T.TokenPlace(tree, TokenPath(""));
    var top: Path := ["_tupelo"];
    assert TokenPath("") == top + ["tokens"] + [""];
    assert AUTHENTICATIONS_PATH == top + ["authentications"];
    EntryWritable(tree, top + ["tokens"], "");
    EntryWritable(tree, top, "tokens");
    EntryWritable(tree, top, "authentications");
    SetSucceeds(tree, AUTHENTICATIONS_PATH, Link(CidOf(Texts(auths))));
  }

  /** Once set, the owners stay the owners through every later transaction that does not set them again: the
      check then accepts a block exactly when one of the signers is among them. */
  lemma OwnersLast(
    ec: Ecdsa, did: string, txs: seq<Transaction>, auths: seq<string>, more: seq<Transaction>,
    content: Bytes, keys: seq<nat>)
    requires ec.Sound() && forall i :: 0 <= i < |more| ==> !more[i].SetOwnership?
    ensures Owners(did, Transactions.Run(did, txs + [SetOwnership(auths)] + more)) == Ok(auths)
    ensures FirstSigned(ec, content, Signed(ec, content, keys), auths) == Ok(true) <==>
            exists i :: 0 <= i < |auths| && auths[i] in Addresses(ec, keys)
  {
    var changed := txs + [SetOwnership(auths)];
    assert changed[..|changed| - 1] == txs;
    SetOwnershipSucceeds(did, txs, auths);
    GetSet(Transactions.Run(did, txs), AUTHENTICATIONS_PATH, Link(CidOf(Texts(auths))));
    assert Deref(Link(CidOf(Texts(auths)))) == Deref(Texts(auths)) == Texts(auths);
    OwnersChangeOnlyBySetOwnership(did, changed, more);
    OwnerIffAddressesMeet(ec, content, keys, auths);
  }

  /** Until then the owner is the key that the chain's id names. */
  lemma GenesisKeyOwns(ec: Ecdsa, key: nat, txs: seq<Transaction>, content: Bytes, keys: seq<nat>)
    requires ec.Sound() && ':' !in ec.AddressOf(key) && forall i :: 0 <= i < |txs| ==> !txs[i].SetOwnership?
    ensures var did := AddrToDid(ec.AddressOf(key));
            var owners := Owners(did, Transactions.Run(did, txs));
            && owners == Ok([ec.AddressOf(key)])
            && (FirstSigned(ec, content, Signed(ec, content, keys), owners.value) == Ok(true)
                <==> ec.AddressOf(key) in Addresses(ec, keys))
  {
    var did, addr := AddrToDid(ec.AddressOf(key)), ec.AddressOf(key);
    DidRoundTrip(addr);
    var none: seq<Transaction> := [];
    assert none + txs == txs;
    OwnersChangeOnlyBySetOwnership(did, none, txs);
    assert Get(EMPTY_TREE, AUTHENTICATIONS_PATH) == Nil;
    OwnerIffAddressesMeet(ec, content, keys, [addr]);
    assert [addr][0] == addr;
  }
}

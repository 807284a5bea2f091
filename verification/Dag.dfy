/** The persistent, content-addressed tree under a chain: values under paths, with links between blocks.

    A CID is modelled by the block it names, so CIDs are injective, and a tree whose blocks are all in its
    store is just the block at its root. Resolving follows links without mentioning them. */
module Dag {
  import opened Prelude

  datatype Cid = CidOf(node: Node)

  datatype Node =
    | Nil
    | Num(n: uint64)
    | Text(s: string)
    | Texts(ss: seq<string>)
    | Blob(bytes: Bytes)
    | Cids(cids: seq<Cid>)
    | Dir(entries: map<string, Node>)
    | Link(cid: Cid)
    | Policy(maximum: uint64)
    | MintRecord(minted: uint64)
    | SendRecord(id: string, sent: uint64, destination: string)
    | ReceiveRecord(sendId: string, received: uint64)

  type Path = seq<string>

  function Deref(n: Node): (d: Node)
    ensures !d.Link?
  {
    match n
    case Link(c) => Deref(c.node)
    case _ => n
  }

  function Entries(n: Node): map<string, Node> {
    if n.Dir? then n.entries else map[]
  }

  function Child(n: Node, key: string): Node {
    if key in Entries(n) then Entries(n)[key] else Nil
  }

  /** The value at a path and the part of the path that could not be followed. */
  function Resolve(n: Node, path: Path): (Node, Path)
    decreases |path|
  {
    var d := Deref(n);
    if path == [] then (d, [])
    else if path[0] in Entries(d) then Resolve(Entries(d)[path[0]], path[1..])
    else (Nil, path)
  }

  function Get(n: Node, path: Path): Node {
    Resolve(n, path).0
  }

  predicate Has(n: Node, path: Path) {
    Resolve(n, path).1 == []
  }

  /** A rewritten block replaces the old one where that was inline, and is linked otherwise. */
  function Relink(was: Node, n: Node): Node {
    if was.Dir? then n else Link(CidOf(n))
  }

  /** Writes an item at a path, making directories on the way; a value in the way is an error. */
  function Set(n: Node, path: Path, item: Node): Option<Node>
    decreases |path|
  {
    if path == [] then Some(item)
    else
      var d := Deref(n);
      if !(d.Dir? || d.Nil?) then None
      else
        match Set(Child(d, path[0]), path[1..], item)
        case None => None
        case Some(c) =>
          var entry := if |path| == 1 then c else Relink(Child(d, path[0]), c);
          Some(Dir(Entries(d)[path[0] := entry]))
  }

  function SetAsLink(n: Node, path: Path, value: Node): Option<Node> {
    Set(n, path, Link(CidOf(value)))
  }

  /** No value is in the way of the path. */
  predicate Writable(n: Node, path: Path)
    decreases |path|
  {
    path == [] || ((Deref(n).Dir? || Deref(n).Nil?) && Writable(Child(Deref(n), path[0]), path[1..]))
  }

  /** Neither path leads through the other. */
  predicate Apart(p: Path, q: Path) {
    |p| > 0 && |q| > 0 && (p[0] != q[0] || Apart(p[1..], q[1..]))
  }

  lemma {:induction false} SetSucceeds(n: Node, p: Path, item: Node)
    ensures Set(n, p, item).Some? <==> Writable(n, p)
    decreases |p|
  {
    if p != [] {
      SetSucceeds(Child(Deref(n), p[0]), p[1..], item);
    }
  }

  /** What was written is what is read. */
  lemma {:induction false} GetSet(n: Node, p: Path, item: Node)
    requires Set(n, p, item).Some?
    ensures Get(Set(n, p, item).value, p) == Deref(item) && Has(Set(n, p, item).value, p)
    decreases |p|
  {
    if p != [] {
      GetSet(Child(Deref(n), p[0]), p[1..], item);
      if |p| > 1 {
        RelinkResolves(Child(Deref(n), p[0]), Set(Child(Deref(n), p[0]), p[1..], item).value, p[1..]);
      }
    }
  }

  lemma RelinkResolves(was: Node, n: Node, q: Path)
    ensures Deref(Relink(was, n)) == Deref(n)
    ensures Resolve(Relink(was, n), q) == Resolve(n, q)
    ensures Writable(Relink(was, n), q) == Writable(n, q)
  {
  }

  /** A write leaves every path that is apart from it alone. */
  lemma {:induction false} SetFrame(n: Node, p: Path, item: Node, q: Path)
    requires Set(n, p, item).Some? && Apart(p, q)
    ensures var n' := Set(n, p, item).value;
            Get(n', q) == Get(n, q) && Has(n', q) == Has(n, q) && Writable(n', q) == Writable(n, q)
    decreases |p|
  {
    var d := Deref(n);
    var child := Child(d, p[0]);
    if p[0] == q[0] {
      SetFrame(child, p[1..], item, q[1..]);
      RelinkResolves(child, Set(child, p[1..], item).value, q[1..]);
    }
  }

  /** Reading one step further is reading an entry. */
  lemma {:induction false} GetStep(n: Node, p: Path, key: string)
    ensures Get(n, p + [key]) == Deref(Child(Get(n, p), key))
    decreases |p|
  {
    if p == [] {
      assert p + [key] == [key];
      if key in Entries(Deref(n)) {
        calc {
          Resolve(n, [key]);
          Resolve(Entries(Deref(n))[key], [key][1..]);
          { assert [key][1..] == []; }
          Resolve(Entries(Deref(n))[key], []);
        }
      }
    } else {
      assert (p + [key])[1..] == p[1..] + [key];
      if p[0] in Entries(Deref(n)) {
        GetStep(Entries(Deref(n))[p[0]], p[1..], key);
      }
    }
  }

  /** Writing one entry of a directory changes just that entry. */
  lemma {:induction false} SetEntry(n: Node, p: Path, key: string, item: Node)
    requires Set(n, p + [key], item).Some?
    ensures Get(Set(n, p + [key], item).value, p) == Dir(Entries(Get(n, p))[key := item])
    decreases |p|
  {
    if p == [] {
      assert p + [key] == [key];
    } else {
      var child := Child(Deref(n), p[0]);
      assert (p + [key])[1..] == p[1..] + [key];
      SetEntry(child, p[1..], key, item);
      RelinkResolves(child, Set(child, p[1..] + [key], item).value, p[1..]);
      assert Get(n, p) == Get(child, p[1..]);
    }
  }

  /** Writing below an entry of a directory replaces that entry by the rewritten block. */
  lemma {:induction false} SetBelowEntry(n: Node, p: Path, key: string, field: string, item: Node)
    requires Set(n, p + [key] + [field], item).Some?
    ensures var was := Child(Get(n, p), key);
            Get(Set(n, p + [key] + [field], item).value, p) ==
            Dir(Entries(Get(n, p))[key := Relink(was, Dir(Entries(Deref(was))[field := item]))])
    decreases |p|
  {
    var path := p + [key] + [field];
    if p == [] {
      var child := Child(Deref(n), key);
      assert path == [key, field] && path[1..] == [field] && [field][1..] == [];
      assert Set(child, [field], item) == Some(Dir(Entries(Deref(child))[field := item])) by {
        assert Set(Child(Deref(child), field), [field][1..], item) == Some(item);
      }
    } else {
      var child := Child(Deref(n), p[0]);
      assert path[1..] == p[1..] + [key] + [field];
      SetBelowEntry(child, p[1..], key, field, item);
      RelinkResolves(child, Set(child, p[1..] + [key] + [field], item).value, p[1..]);
      assert Get(n, p) == Get(child, p[1..]);
    }
  }

  /** Any entry of a directory can be written, and of a path that can be made. */
  lemma {:induction false} EntryWritable(n: Node, p: Path, key: string)
    ensures Writable(n, p + [key]) <==> Writable(n, p) && (Get(n, p).Dir? || Get(n, p).Nil?)
    decreases |p|
  {
    if p == [] {
      assert p + [key] == [key];
    } else {
      assert (p + [key])[1..] == p[1..] + [key];
      EntryWritable(Child(Deref(n), p[0]), p[1..], key);
      if p[0] !in Entries(Deref(n)) {
        assert Child(Deref(n), p[0]) == Nil;
        assert Get(Nil, p[1..]).Nil?;
      }
    }
  }

  /** After a write the path above it is a directory, and stays writable. */
  lemma {:induction false} SetWritable(n: Node, p: Path, key: string, item: Node)
    requires Set(n, p + [key], item).Some?
    ensures Writable(Set(n, p + [key], item).value, p)
    decreases |p|
  {
    if p == [] {
    } else {
      var child := Child(Deref(n), p[0]);
      assert (p + [key])[1..] == p[1..] + [key];
      SetWritable(child, p[1..], key, item);
      RelinkResolves(child, Set(child, p[1..] + [key], item).value, p[1..]);
    }
  }

  /** What was written can be written again. */
  lemma {:induction false} SetAgain(n: Node, p: Path, item: Node)
    requires Set(n, p, item).Some?
    ensures Writable(Set(n, p, item).value, p)
    decreases |p|
  {
    if |p| > 1 {
      var child := Child(Deref(n), p[0]);
      SetAgain(child, p[1..], item);
      RelinkResolves(child, Set(child, p[1..], item).value, p[1..]);
    }
  }

  lemma {:induction false} ApartExtends(p: Path, q: Path, more: Path)
    requires Apart(p, q)
    ensures Apart(p + more, q) && Apart(p, q + more) && Apart(q, p)
  {
    assert (p + more)[1..] == p[1..] + more;
    assert (q + more)[1..] == q[1..] + more;
    if p[0] == q[0] {
      ApartExtends(p[1..], q[1..], more);
    }
  }
}

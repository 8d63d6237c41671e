/** The trie object: a root node over a content-addressed database. */
module Trie {
  import opened Options
  import opened HexKeys
  import opened PatriciaTree
  import opened TreeUpdate
  import opened NodeCodec
  import opened TrieNode
  import opened TrieOps
  import opened Hasher

  /** Only encodings of byte keys occur as paths. */
  ghost predicate ByteKeyed(t: Tree) {
    forall k: Bytes :: Lookup(t, k).Some? ==> IsPath(k) && |k| % 2 == 1
  }

  lemma {:induction false} ByteKeyedUpdate(t: Tree, t': Tree, key: Bytes, ov: Option<Bytes>)
    requires ByteKeyed(t) && Updated(t, t', KeyToHex(key), ov)
    ensures ByteKeyed(t')
  {
    forall k: Bytes | Lookup(t', k).Some? ensures IsPath(k) && |k| % 2 == 1 {
      assert k != KeyToHex(key) ==> Lookup(t, k).Some?;
    }
  }

  function ValueAt(t: Tree, key: Bytes): Option<Bytes> {
    Lookup(t, KeyToHex(key))
  }

  lemma {:induction false} ValueUpdate(t: Tree, t': Tree, key: Bytes, ov: Option<Bytes>)
    requires Updated(t, t', KeyToHex(key), ov)
    ensures forall k :: ValueAt(t', k) == if k == key then ov else ValueAt(t, k)
  {
    forall k ensures ValueAt(t', k) == if k == key then ov else ValueAt(t, k) {
      if KeyToHex(k) == KeyToHex(key) {
        KeyToHexInjective(k, key);
      }
    }
  }

  lemma {:induction false} PathOfKey(k: Bytes) returns (key: Bytes)
    requires IsPath(k) && |k| % 2 == 1
    ensures KeyToHex(key) == k
  {
    key := HexToKey(k);
    UnpackPack(StripTerm(k));
    assert KeyToHex(key) == Unpack(key) + [TERM];
  }

  /** Tries that answer every key alike are the same tree, and have the same root. */
  lemma {:induction false} ValuesDetermineRoot(a: Tree, b: Tree)
    requires WF(a) && WF(b) && ByteKeyed(a) && ByteKeyed(b)
    ensures (forall key :: ValueAt(a, key) == ValueAt(b, key)) <==> RootHash(a) == RootHash(b)
  {
    if forall key :: ValueAt(a, key) == ValueAt(b, key) {
      forall k | IsPath(k) ensures Lookup(a, k) == Lookup(b, k) {
        if Lookup(a, k).Some? || Lookup(b, k).Some? {
          var key := PathOfKey(k);
          assert ValueAt(a, key) == ValueAt(b, key);
        }
      }
    }
    RootHashIsContents(a, b);
    if RootHash(a) == RootHash(b) {
      RootHashInjective(a, b);
    }
  }

  /** The root hash of t loads as t. */
  lemma {:induction false} Loads(d: Digest, t: Tree, db: Store)
    requires ContentAddressed(db) && WF(t) && t != Nil && d == RootHash(t)
    ensures var r := Resolve(d, db, 0);
            && (r.Missing? <==> d !in db)
            && (r.Ok? ==> Expand(r.value) == t && HashesOk(r.value, true))
            && (Closed(BHash(d), db) ==> r.Ok? && Backed(r.value, db))
  {
    TreeOfBlob(t);
    ResolveOk(d, true, db, 0);
  }

  class Trie {
    const db: Database
    var root: Node
    var cachegen: nat
    var cachelimit: nat

    ghost predicate Valid()
      reads this, db
    {
      ContentAddressed(db.store) && HashesOk(root, true) && WF(Expand(root)) && ByteKeyed(Expand(root))
    }

    /** Nothing the trie may have to load, or claims to have stored, is absent from the database. */
    ghost predicate Retrievable()
      reads this, db
    {
      Backed(root, db.store)
    }

    ghost function Contents(): Tree
      reads this
    {
      Expand(root)
    }

    constructor (db: Database, n: Node)
      ensures this.db == db && root == n && cachegen == 0 && cachelimit == 0
    {
      this.db, root, cachegen, cachelimit := db, n, 0, 0;
    }

    /** Reopens the trie with tree t from its root hash; null stands for a missing-node error. */
    static method Open(d: Digest, db: Database, ghost t: Tree) returns (trie: Trie?)
      requires ContentAddressed(db.store) && WF(t) && ByteKeyed(t) && (d == RootHash(t) || (d == ZeroHash && t == Nil))
      ensures trie == null <==> d.Keccak? && d !in db.store
      ensures trie != null ==> fresh(trie) && trie.db == db && trie.Valid() && trie.Contents() == t
      ensures t == Nil || Closed(BHash(d), db.store) ==> trie != null && trie.Retrievable()
    {
      if d != ZeroHash && d != EmptyRoot {
        Loads(d, t, db.store);
        var r := Resolve(d, db.store, 0);
        if r.Missing? {
          return null;
        }
        trie := new Trie(db, r.value);
      } else {
        trie := new Trie(db, NNil);
      }
    }

    method SetCacheLimit(l: nat)
      modifies this`cachelimit
      ensures cachelimit == l
    {
      cachelimit := l;
    }

    method TryGet(key: Bytes) returns (r: Result<Option<Bytes>>)
      requires Valid()
      modifies this`root
      ensures Valid() && Contents() == old(Contents())
      ensures r.Ok? ==> r.value == ValueAt(Contents(), key)
      ensures r.Missing? ==> r.d !in db.store && !old(Retrievable())
      ensures old(Retrievable()) ==> Retrievable()
    {
      var k := ComputeKeyToHex(key);
      GetCorrect(root, k, true, db.store, cachegen);
      match Get(root, k, true, db.store, cachegen)
      case Missing(d) => r := Missing(d);
      case Ok(f) =>
        r := Ok(f.value);
        if f.resolved {
          root := f.node;
        }
    }

    /** An empty value means deletion; a failed update changes nothing. */
    method TryUpdate(key: Bytes, value: Bytes) returns (r: Result<()>)
      requires Valid()
      modifies this`root
      ensures Valid()
      ensures r.Missing? ==> root == old(root) && r.d !in db.store && !old(Retrievable())
      ensures var ov := if value == [] then None else Some(value);
              r.Ok? ==> forall k :: ValueAt(Contents(), k) == if k == key then ov else ValueAt(old(Contents()), k)
      ensures old(Retrievable()) ==> Retrievable()
    {
      if value == [] {
        r := TryDelete(key);
      } else {
        var k := ComputeKeyToHex(key);
        InsertCorrect(root, k, value, true, db.store, cachegen);
        match Insert(root, k, NVal(value), true, db.store, cachegen)
        case Missing(d) => r := Missing(d);
        case Ok(e) =>
          ByteKeyedUpdate(Expand(root), Expand(e.node), key, Some(value));
          ValueUpdate(Expand(root), Expand(e.node), key, Some(value));
          root := e.node;
          r := Ok(());
      }
    }

    method TryDelete(key: Bytes) returns (r: Result<()>)
      requires Valid()
      modifies this`root
      ensures Valid()
      ensures r.Missing? ==> root == old(root) && r.d !in db.store && !old(Retrievable())
      ensures r.Ok? ==> forall k :: ValueAt(Contents(), k) == if k == key then None else ValueAt(old(Contents()), k)
      ensures old(Retrievable()) ==> Retrievable()
    {
      var k := ComputeKeyToHex(key);
      DeleteCorrect(root, k, true, db.store, cachegen);
      match Delete(root, k, true, db.store, cachegen)
      case Missing(d) => r := Missing(d);
      case Ok(e) =>
        ByteKeyedUpdate(Expand(root), Expand(e.node), key, None);
        ValueUpdate(Expand(root), Expand(e.node), key, None);
        root := e.node;
        r := Ok(());
    }

    /** The root hash, computed without touching the database. */
    method Hash() returns (d: Digest)
      requires Valid()
      modifies this`root
      ensures Valid() && Contents() == old(Contents())
      ensures d == RootHash(Contents()) && Labelled(root)
      ensures old(Retrievable()) ==> Retrievable()
    {
      if root == NNil {
        return EmptyRoot;
      }
      NilExpand(root, true);
      var hashed, cached, _ := Hasher.Hash(root, null, true, cachegen, cachelimit, db.store);
      root := cached;
      d := hashed.d;
    }

    /** Stores every node that is not stored yet; afterwards the root hash alone recovers the trie. */
    method Commit() returns (d: Digest)
      requires Valid()
      modifies this`root, this`cachegen, db
      ensures Valid() && Contents() == old(Contents())
      ensures d == RootHash(Contents()) && cachegen == (old(cachegen) + 1) % 65536
      ensures old(db.store).Keys <= db.store.Keys
      ensures old(Retrievable()) ==> Retrievable() && (Contents() == Nil || Closed(BHash(d), db.store))
    {
      if root == NNil {
        d := EmptyRoot;
      } else {
        NilExpand(root, true);
        var hashed, cached, _ := Hasher.Hash(root, db, true, cachegen, cachelimit, db.store);
        root := cached;
        d := hashed.d;
      }
      cachegen := (cachegen + 1) % 65536;
    }
  }

  /** Committing and reopening gives back the same trie, whatever was unloaded meanwhile. */
  method Reopen(t: Trie) returns (u: Trie)
    requires t.Valid() && t.Retrievable()
    modifies t, t.db
    ensures t.Valid() && t.Retrievable() && t.Contents() == old(t.Contents())
    ensures fresh(u) && u.db == t.db && u.Valid() && u.Retrievable() && u.Contents() == t.Contents()
  {
    var d := t.Commit();
    u := Trie.Open(d, t.db, t.Contents());
  }

  // ---- whole runs ----

  datatype Op = Update(key: Bytes, value: Bytes) | Read(key: Bytes) | HashRoot | CommitAll | CacheLimit(l: nat)

  /** The finite map a run of operations leaves behind. */
  function Model(ops: seq<Op>): map<Bytes, Bytes> {
    if ops == [] then map[]
    else Changed(Model(ops[..|ops| - 1]), ops[|ops| - 1])
  }

  function At(m: map<Bytes, Bytes>, key: Bytes): Option<Bytes> {
    if key in m then Some(m[key]) else None
  }

  /** Every run on a fresh trie succeeds and ends in a trie with exactly the contents of its model. */
  method Replay(ops: seq<Op>) returns (t: Trie)
    ensures fresh(t) && fresh(t.db) && t.Valid() && t.Retrievable()
    ensures forall key :: ValueAt(t.Contents(), key) == At(Model(ops), key)
  {
    var db := new Database();
    t := new Trie(db, NNil);
    for i := 0 to |ops|
      invariant fresh(t) && t.db == db && fresh(db) && t.Valid() && t.Retrievable()
      invariant forall key :: ValueAt(t.Contents(), key) == At(Model(ops[..i]), key)
    {
      assert ops[..i + 1][..i] == ops[..i];
      Apply(t, ops[i], Model(ops[..i]));
    }
    assert ops[..|ops|] == ops;
  }

  function Changed(m: map<Bytes, Bytes>, op: Op): map<Bytes, Bytes> {
    match op
    case Update(key, value) => if value == [] then m - {key} else m[key := value]
    case _ => m
  }

  method Apply(t: Trie, op: Op, ghost m: map<Bytes, Bytes>)
    requires t.Valid() && t.Retrievable() && forall key :: ValueAt(t.Contents(), key) == At(m, key)
    modifies t, t.db
    ensures t.Valid() && t.Retrievable() && forall key :: ValueAt(t.Contents(), key) == At(Changed(m, op), key)
  {
    hide ValueAt;
    match op
    case Update(key, value) => var _ := t.TryUpdate(key, value);
    case Read(key) => var _ := t.TryGet(key);
    case HashRoot => var _ := t.Hash();
    case CommitAll => var _ := t.Commit();
    case CacheLimit(l) => t.SetCacheLimit(l);
  }

  /** The root depends on the contents only: not on the order of the operations, nor on what was
      read, hashed, committed or unloaded in between. */
  method HistoryIndependence(a: seq<Op>, b: seq<Op>) returns (x: Digest, y: Digest)
    ensures x == y <==> Model(a) == Model(b)
  {
    var s := Replay(a);
    x := s.Hash();
    var t := Replay(b);
    y := t.Hash();
    ValuesDetermineRoot(s.Contents(), t.Contents());
    SameModel(s.Contents(), t.Contents(), Model(a), Model(b));
  }

  lemma {:induction false} SameModel(s: Tree, t: Tree, m: map<Bytes, Bytes>, n: map<Bytes, Bytes>)
    requires forall key :: ValueAt(s, key) == At(m, key)
    requires forall key :: ValueAt(t, key) == At(n, key)
    ensures m == n <==> forall key :: ValueAt(s, key) == ValueAt(t, key)
  {
    hide ValueAt;
    if forall key :: ValueAt(s, key) == ValueAt(t, key) {
      forall key ensures (key in m <==> key in n) && (key in m ==> m[key] == n[key]) {
        assert At(m, key) == ValueAt(s, key) == At(n, key);
      }
    }
  }
}

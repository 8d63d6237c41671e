/** In-memory trie nodes: partially loaded, with cached hashes and dirty marks. */
module TrieNode {
  import opened Options
  import opened HexKeys
  import opened PatriciaTree
  import opened NodeCodec

  datatype Flags = Flags(hash: Option<Digest>, gen: nat, dirty: bool)

  datatype Node =
    | NNil
    | NShort(key: Bytes, val: Node, flags: Flags)
    | NFull(ch: seq<Node>, flags: Flags)
    | NHash(d: Digest)
    | NVal(v: Bytes)

  /** The tree a node stands for, whatever part of it is loaded. */
  function Expand(n: Node): Tree {
    match n
    case NNil => Nil
    case NShort(key, val, _) => Short(key, Expand(val))
    case NFull(ch, _) => Full(seq(|ch|, i requires 0 <= i < |ch| => Expand(ch[i])))
    case NHash(d) => TreeOf(BHash(d))
    case NVal(v) => Val(v)
  }

  /** Decodes a stored node; only the outermost node carries its hash. */
  function Decode(b: Blob, hash: Option<Digest>, gen: nat): Node {
    match b
    case BVal(v) => if v == [] then NNil else NVal(v)
    case BHash(d) => NHash(d)
    case BShort(ckey, val) =>
      if ckey == [] then NNil
      else NShort(CompactToHex(ckey), Decode(val, None, gen), Flags(hash, gen, false))
    case BFull(ch) =>
      NFull(seq(|ch|, i requires 0 <= i < |ch| => Decode(ch[i], None, gen)), Flags(hash, gen, false))
    case BRaw(_) => NNil
  }

  lemma {:induction false} ExpandDecode(b: Blob, hash: Option<Digest>, gen: nat)
    ensures Expand(Decode(b, hash, gen)) == TreeOf(b)
  {
    match b
    case BVal(_) =>
    case BHash(_) =>
    case BRaw(_) =>
    case BShort(_, val) => ExpandDecode(val, None, gen);
    case BFull(ch) =>
      forall i | 0 <= i < |ch| ensures Expand(Decode(ch[i], None, gen)) == TreeOf(ch[i]) {
        ExpandDecode(ch[i], None, gen);
      }
      assert Expand(Decode(b, hash, gen)).ch == TreeOf(b).ch;
  }

  // ---- consistency of cached hashes ----

  /** d names the encoding of t; below the root only nodes too large to embed have names. */
  ghost predicate Names(d: Digest, t: Tree, top: bool) {
    && WF(t) && t != Nil
    && d == Keccak(BlobOf(t))
    && (top || !Small(BlobOf(t)))
  }

  /** A cached hash is the right one, and a clean node without one is embedded in its parent. */
  ghost predicate FlagsOk(flags: Flags, t: Tree, top: bool) {
    if flags.hash.Some? then Names(flags.hash.value, t, top)
    else !flags.dirty ==> !top && Subtree(t) && Small(BlobOf(t))
  }

  /** Every loaded node that is not embedded in its parent has its hash at hand. */
  ghost predicate Labelled(n: Node) {
    match n
    case NNil => true
    case NVal(_) => true
    case NHash(_) => true
    case NShort(_, val, flags) => HasLabel(flags, Expand(n)) && Labelled(val)
    case NFull(ch, flags) => HasLabel(flags, Expand(n)) && forall i :: 0 <= i < |ch| ==> Labelled(ch[i])
  }

  ghost predicate HasLabel(flags: Flags, t: Tree) {
    flags.hash.Some? || (Subtree(t) && Small(BlobOf(t)))
  }

  ghost predicate ChildrenLabelled(n: Node) {
    && (n.NShort? ==> Labelled(n.val))
    && (n.NFull? ==> forall i :: 0 <= i < |n.ch| ==> Labelled(n.ch[i]))
  }

  /** Cached hashes are right throughout, and below a cached hash nothing is left unhashed. */
  ghost predicate HashesOk(n: Node, top: bool) {
    match n
    case NNil => true
    case NVal(_) => true
    case NHash(d) => Names(d, Expand(n), top)
    case NShort(_, val, flags) =>
      && FlagsOk(flags, Expand(n), top)
      && HashesOk(val, false)
      && (flags.hash.Some? ==> ChildrenLabelled(n))
    case NFull(ch, flags) =>
      && FlagsOk(flags, Expand(n), top)
      && (forall i :: 0 <= i < |ch| ==> HashesOk(ch[i], false))
      && (flags.hash.Some? ==> ChildrenLabelled(n))
  }

  /** Whatever is not in memory, or is claimed clean under a cached hash, is in the store. */
  ghost predicate Backed(n: Node, db: Store) {
    match n
    case NNil => true
    case NVal(_) => true
    case NHash(d) => Closed(BHash(d), db)
    case NShort(_, val, flags) => CleanBacked(flags, db) && Backed(val, db)
    case NFull(ch, flags) =>
      CleanBacked(flags, db) && forall i :: 0 <= i < |ch| ==> Backed(ch[i], db)
  }

  ghost predicate CleanBacked(flags: Flags, db: Store) {
    flags.hash.Some? && !flags.dirty ==> Closed(BHash(flags.hash.value), db)
  }

  lemma {:induction false} BackedMono(n: Node, db: Store, db': Store)
    requires Backed(n, db) && db.Keys <= db'.Keys
    ensures Backed(n, db')
  {
    match n
    case NNil =>
    case NVal(_) =>
    case NHash(d) => ClosedMono(BHash(d), db, db');
    case NShort(_, val, flags) =>
      BackedMono(val, db, db');
      CleanBackedMono(flags, db, db');
    case NFull(ch, flags) =>
      forall i | 0 <= i < |ch| ensures Backed(ch[i], db') {
        BackedMono(ch[i], db, db');
      }
      CleanBackedMono(flags, db, db');
  }

  lemma {:induction false} CleanBackedMono(flags: Flags, db: Store, db': Store)
    requires CleanBacked(flags, db) && db.Keys <= db'.Keys
    ensures CleanBacked(flags, db')
  {
    if flags.hash.Some? && !flags.dirty {
      ClosedMono(BHash(flags.hash.value), db, db');
    }
  }

  // ---- decoded nodes are consistent ----

  lemma {:induction false} DecodeRef(t: Tree, gen: nat)
    requires Subtree(t)
    ensures HashesOk(Decode(Ref(t), None, gen), false) && Labelled(Decode(Ref(t), None, gen))
    decreases t, 1
  {
    TreeOfBlob(t);
    if Ref(t) == BlobOf(t) {
      DecodeBlob(t, None, false, gen);
    }
  }

  lemma {:induction false} DecodeBlob(t: Tree, hash: Option<Digest>, top: bool, gen: nat)
    requires Subtree(t)
    requires FlagsOk(Flags(hash, gen, false), t, top) || t.Nil? || t.Val?
    ensures HashesOk(Decode(BlobOf(t), hash, gen), top) && Labelled(Decode(BlobOf(t), hash, gen))
    decreases t, 0
  {
    TreeOfBlob(t);
    ExpandDecode(BlobOf(t), hash, gen);
    match t
    case Nil =>
    case Val(_) =>
    case Short(key, val) => DecodeRef(val, gen);
    case Full(ch) => DecodeFull(t, hash, top, gen);
  }

  lemma {:induction false} DecodeFull(t: Tree, hash: Option<Digest>, top: bool, gen: nat)
    requires t.Full? && WF(t)
    requires FlagsOk(Flags(hash, gen, false), t, top)
    ensures HashesOk(Decode(BlobOf(t), hash, gen), top) && Labelled(Decode(BlobOf(t), hash, gen))
    decreases t, -1
  {
    var n := Decode(BlobOf(t), hash, gen);
    forall i | 0 <= i < 17 ensures HashesOk(n.ch[i], false) && Labelled(n.ch[i]) {
      assert n.ch[i] == Decode(Ref(t.ch[i]), None, gen);
      DecodeRef(t.ch[i], gen);
    }
    TreeOfBlob(t);
    ExpandDecode(BlobOf(t), hash, gen);
  }

  lemma {:induction false} DecodeBacked(b: Blob, hash: Option<Digest>, gen: nat, db: Store)
    requires Closed(b, db)
    requires hash.Some? ==> Closed(BHash(hash.value), db)
    ensures Backed(Decode(b, hash, gen), db)
  {
    match b
    case BVal(_) =>
    case BHash(_) =>
    case BRaw(_) =>
    case BShort(_, val) => DecodeBacked(val, None, gen, db);
    case BFull(ch) =>
      forall i | 0 <= i < |ch| ensures Backed(Decode(ch[i], None, gen), db) {
        DecodeBacked(ch[i], None, gen, db);
      }
  }

  // ---- resolving ----

  datatype Result<+T> = Ok(value: T) | Missing(d: Digest)

  function Resolve(d: Digest, db: Store, gen: nat): Result<Node> {
    if d in db then Ok(Decode(db[d], Some(d), gen)) else Missing(d)
  }

  /** Resolving a hash node never changes the tree, and cannot fail when the node is backed. */
  lemma {:induction false} ResolveOk(d: Digest, top: bool, db: Store, gen: nat)
    requires ContentAddressed(db) && HashesOk(NHash(d), top)
    ensures Resolve(d, db, gen).Missing? <==> d !in db
    ensures Resolve(d, db, gen).Ok? ==>
              var n := Resolve(d, db, gen).value;
              && Expand(n) == Expand(NHash(d)) && (n.NShort? || n.NFull?)
              && HashesOk(n, top) && Labelled(n)
              && (Backed(NHash(d), db) ==> Backed(n, db))
    ensures Backed(NHash(d), db) ==> Resolve(d, db, gen).Ok?
  {
    var t := Expand(NHash(d));
    TreeOfBlob(t);
    DecodeBlob(t, Some(d), top, gen);
    ExpandDecode(d.blob, Some(d), gen);
    if Backed(NHash(d), db) {
      DecodeBacked(d.blob, Some(d), gen, db);
    }
  }
}

/** The stored form of trie nodes. A digest is a free constructor over the encoded node, so it
    is collision free and never part of its own preimage. */
module NodeCodec {
  import opened HexKeys
  import opened PatriciaTree

  datatype Digest = ZeroHash | EmptyRoot | Keccak(blob: Blob)

  /** Encoded data: a node in collapsed form, or bytes that do not decode as a node. */
  datatype Blob =
    | BShort(ckey: Bytes, val: Blob)
    | BFull(ch: seq<Blob>)
    | BHash(d: Digest)
    | BVal(v: Bytes)
    | BRaw(data: Bytes)

  type Store = map<Digest, Blob>

  // ---- length of the MessagePack encoding ----

  function BinLen(n: nat): nat {
    n + if n < 256 then 2 else if n < 65536 then 3 else 5
  }

  function EncLen(b: Blob): nat {
    match b
    case BVal(v) => BinLen(2 + BinLen(|v|))
    case BHash(_) => BinLen(2 + BinLen(32))
    case BShort(ckey, val) => BinLen(2 + 1 + 4 + BinLen(|ckey|) + 4 + EncLen(val))
    case BFull(ch) => BinLen(2 + 10 + 3 + EncLens(ch))
    case BRaw(data) => |data|
  }

  function EncLens(ch: seq<Blob>): nat {
    if ch == [] then 0 else EncLen(ch[0]) + EncLens(ch[1..])
  }

  /** Nodes shorter than a hash are stored inside their parent. */
  predicate Small(b: Blob) {
    EncLen(b) < 32
  }

  // ---- collapsing a tree ----

  ghost predicate Subtree(t: Tree) {
    WF(t) || IsLeaf(t)
  }

  /** How a parent refers to t: embedded, or by hash. */
  function Ref(t: Tree): Blob
    requires Subtree(t)
    decreases t, 1
  {
    if t.Nil? || t.Val? || Small(BlobOf(t)) then BlobOf(t) else BHash(Keccak(BlobOf(t)))
  }

  function BlobOf(t: Tree): Blob
    requires Subtree(t)
    decreases t, 0
  {
    match t
    case Nil => BVal([])
    case Val(v) => BVal(v)
    case Short(key, val) => BShort(HexToCompact(key), Ref(val))
    case Full(ch) => BFull(seq(17, i requires 0 <= i < 17 => Ref(ch[i])))
  }

  /** A node whose encoding is shorter than a hash, 32 bytes, is part of its parent; any other is referred to by hash. */
  lemma {:induction false} RefForm(t: Tree)
    requires WF(t) && t != Nil
    ensures Ref(t) == if EncLen(BlobOf(t)) < 32 then BlobOf(t) else BHash(Keccak(BlobOf(t)))
  {
    assert t.Short? || t.Full?;
  }

  function RootHash(t: Tree): Digest
    requires WF(t)
  {
    if t.Nil? then EmptyRoot else Keccak(BlobOf(t))
  }

  // ---- expanding a blob ----

  function TreeOf(b: Blob): Tree {
    match b
    case BVal(v) => if v == [] then Nil else Val(v)
    case BHash(d) => if d.Keccak? then TreeOf(d.blob) else Nil
    case BShort(ckey, val) => if ckey == [] then Nil else Short(CompactToHex(ckey), TreeOf(val))
    case BFull(ch) => Full(seq(|ch|, i requires 0 <= i < |ch| => TreeOf(ch[i])))
    case BRaw(_) => Nil
  }

  lemma {:induction false} TreeOfBlob(t: Tree)
    requires Subtree(t)
    ensures TreeOf(BlobOf(t)) == t
    ensures TreeOf(Ref(t)) == t
  {
    match t
    case Nil =>
    case Val(_) =>
    case Short(key, val) =>
      TreeOfBlob(val);
      CompactToHexInverse(key);
    case Full(ch) =>
      forall i | 0 <= i < 17 ensures TreeOf(Ref(ch[i])) == ch[i] {
        TreeOfBlob(ch[i]);
      }
      assert TreeOf(BlobOf(t)).ch == ch;
  }

  lemma {:induction false} RootHashInjective(a: Tree, b: Tree)
    requires WF(a) && WF(b) && RootHash(a) == RootHash(b)
    ensures a == b
  {
    TreeOfBlob(a);
    TreeOfBlob(b);
  }

  /** The root commits to the contents and to nothing else. */
  lemma {:induction false} RootHashIsContents(a: Tree, b: Tree)
    requires WF(a) && WF(b)
    ensures RootHash(a) == RootHash(b) <==> SameContents(a, b)
  {
    if RootHash(a) == RootHash(b) {
      RootHashInjective(a, b);
    }
    if SameContents(a, b) {
      Canonical(a, b);
    }
  }

  // ---- stores ----

  ghost predicate ContentAddressed(db: Store) {
    forall d | d in db :: d == Keccak(db[d])
  }

  /** Every hash reference below b can be followed in db, all the way down. */
  ghost predicate Closed(b: Blob, db: Store) {
    match b
    case BShort(_, val) => Closed(val, db)
    case BFull(ch) => forall i :: 0 <= i < |ch| ==> Closed(ch[i], db)
    case BHash(d) => d.Keccak? && d in db && Closed(d.blob, db)
    case BVal(_) => true
    case BRaw(_) => true
  }

  lemma {:induction false} ClosedMono(b: Blob, db: Store, db': Store)
    requires Closed(b, db) && db.Keys <= db'.Keys
    ensures Closed(b, db')
  {
    match b
    case BShort(_, val) => ClosedMono(val, db, db');
    case BFull(ch) =>
      forall i | 0 <= i < |ch| ensures Closed(ch[i], db') {
        ClosedMono(ch[i], db, db');
      }
    case BHash(d) => ClosedMono(d.blob, db, db');
    case BVal(_) =>
    case BRaw(_) =>
  }
}

/** The Merkle Patricia trie as a value: its shape once every hash reference is expanded,
    its lookup function, and the theorem that the shape is determined by the contents. */
module PatriciaTree {
  import opened Options
  import opened HexKeys

  datatype Tree = Nil | Short(key: Bytes, val: Tree) | Full(ch: seq<Tree>) | Val(v: Bytes)

  /** Minimal form: no short node under a short node, at least two children in a full node,
      a terminator exactly where a value sits, no empty value. */
  ghost predicate WF(t: Tree) {
    match t
    case Nil => true
    case Val(_) => false
    case Short(key, val) =>
      if HasTerm(key) then IsPath(key) && IsLeaf(val)
      else key != [] && Nibbles(key) && val.Full? && WF(val)
    case Full(ch) =>
      && |ch| == 17
      && (ch[16].Nil? || IsLeaf(ch[16]))
      && (forall i :: 0 <= i < 16 ==> WF(ch[i]))
      && TwoChildren(ch)
  }

  ghost predicate IsLeaf(t: Tree) {
    t.Val? && t.v != []
  }

  ghost predicate TwoChildren(ch: seq<Tree>) {
    exists i, j :: 0 <= i < j < |ch| && ch[i] != Nil && ch[j] != Nil
  }

  function Lookup(t: Tree, k: Bytes): Option<Bytes> {
    match t
    case Nil => None
    case Val(v) => if k == [] then Some(v) else None
    case Short(key, val) => if key <= k then Lookup(val, k[|key|..]) else None
    case Full(ch) => if k != [] && k[0] < |ch| then Lookup(ch[k[0]], k[1..]) else None
  }

  ghost predicate SameContents(a: Tree, b: Tree) {
    forall k | IsPath(k) :: Lookup(a, k) == Lookup(b, k)
  }

  // ---- paths ----

  lemma {:induction false} PathPrepend(p: Bytes, k: Bytes)
    requires Nibbles(p) && IsPath(k)
    ensures IsPath(p + k)
    ensures (p + k)[|p|..] == k
  {
    assert StripTerm(p + k) == p + StripTerm(k);
  }

  lemma {:induction false} PathSuffix(k: Bytes, n: nat)
    requires IsPath(k) && n < |k|
    ensures IsPath(k[n..])
    ensures n > 0 ==> Nibbles(k[..n])
  {
    assert StripTerm(k[n..]) == StripTerm(k)[n..];
    assert k[..n] == StripTerm(k)[..n];
  }

  lemma {:induction false} LookupShort(key: Bytes, val: Tree, k: Bytes)
    ensures Lookup(Short(key, val), key + k) == Lookup(val, k)
  {
    assert (key + k)[|key|..] == k;
  }

  lemma {:induction false} LookupFull(ch: seq<Tree>, i: Byte, k: Bytes)
    requires i < |ch|
    ensures Lookup(Full(ch), [i] + k) == Lookup(ch[i], k)
  {
    assert ([i] + k)[1..] == k;
  }

  // ---- every non-empty subtree holds a key ----

  lemma {:induction false} SomeKey(t: Tree) returns (k: Bytes)
    requires WF(t) && t != Nil
    ensures IsPath(k) && Lookup(t, k).Some?
  {
    match t
    case Short(key, val) =>
      if HasTerm(key) {
        k := key;
      } else {
        var r := SomeKey(val);
        PathPrepend(key, r);
        LookupShort(key, val, r);
        k := key + r;
      }
    case Full(ch) =>
      var i :| 0 <= i < |ch| && ch[i] != Nil;
      k := ChildKey(t, i);
  }

  /** A key that passes through child i. */
  lemma {:induction false} ChildKey(t: Tree, i: Byte) returns (k: Bytes)
    requires WF(t) && t.Full? && i < 17 && t.ch[i] != Nil
    ensures IsPath(k) && k[0] == i && Lookup(t, k).Some?
    decreases t, 0
  {
    if i == 16 {
      k := [TERM];
    } else {
      var r := SomeKey(t.ch[i]);
      PathPrepend([i], r);
      LookupFull(t.ch, i, r);
      k := [i] + r;
    }
  }

  // ---- canonical form ----

  lemma {:induction false} Canonical(a: Tree, b: Tree)
    requires WF(a) && WF(b) && SameContents(a, b)
    ensures a == b
    decreases a
  {
    if a == Nil || b == Nil {
      if a != b {
        var k := SomeKey(if a == Nil then b else a);
      }
    } else if a.Short? && b.Short? {
      CanonicalShort(a, b);
    } else if a.Full? && b.Full? {
      CanonicalFull(a, b);
    } else if a.Short? {
      BranchIsNotShort(b, a);
    } else {
      BranchIsNotShort(a, b);
    }
  }

  /** A full node branches at its first nibble, a short node does not. */
  lemma {:induction false} BranchIsNotShort(f: Tree, s: Tree)
    requires WF(f) && WF(s) && f.Full? && s.Short?
    ensures !SameContents(f, s)
  {
    var i, j :| 0 <= i < j < |f.ch| && f.ch[i] != Nil && f.ch[j] != Nil;
    var ki := ChildKey(f, i);
    var kj := ChildKey(f, j);
    if SameContents(f, s) {
      ShortStart(s, ki);
      ShortStart(s, kj);
    }
  }

  lemma {:induction false} ShortStart(s: Tree, k: Bytes)
    requires WF(s) && s.Short? && Lookup(s, k).Some?
    ensures k != [] && k[0] == s.key[0]
  {
  }

  /** Below a proper prefix of b's key, a would have to branch. */
  lemma {:induction false} ShortKeysEqual(a: Tree, b: Tree)
    requires WF(a) && WF(b) && a.Short? && b.Short? && SameContents(a, b)
    requires |a.key| <= |b.key|
    ensures a.key == b.key
  {
    var k := SomeKey(b);
    assert a.key <= k && b.key <= k;
    assert a.key == b.key[..|a.key|];
    if HasTerm(a.key) {
      PathsPrefixFree(a.key, k);
    } else {
      var i, j :| 0 <= i < j < |a.val.ch| && a.val.ch[i] != Nil && a.val.ch[j] != Nil;
      if |a.key| < |b.key| {
        ShortThrough(a, b, i);
        ShortThrough(a, b, j);
      }
    }
  }

  lemma {:induction false} ShortThrough(a: Tree, b: Tree, i: Byte)
    requires WF(a) && WF(b) && a.Short? && b.Short? && SameContents(a, b)
    requires |a.key| < |b.key| && a.val.Full? && i < |a.val.ch| && a.val.ch[i] != Nil
    ensures b.key[|a.key|] == i
  {
    var r := ChildKey(a.val, i);
    PathPrepend(a.key, r);
    LookupShort(a.key, a.val, r);
    assert b.key <= a.key + r;
  }

  lemma {:induction false} LeafValue(t: Tree)
    requires WF(t) && t.Short? && HasTerm(t.key)
    ensures t.val.Val? && IsPath(t.key) && Lookup(t, t.key) == Some(t.val.v)
  {
    assert t.key[|t.key|..] == [];
  }

  lemma {:induction false} CanonicalShort(a: Tree, b: Tree)
    requires WF(a) && WF(b) && a.Short? && b.Short? && SameContents(a, b)
    ensures a == b
    decreases a, 0
  {
    if |a.key| <= |b.key| {
      ShortKeysEqual(a, b);
    } else {
      ShortKeysEqual(b, a);
    }
    if HasTerm(a.key) {
      LeafValue(a);
      LeafValue(b);
      assert Lookup(a, a.key) == Lookup(b, a.key);
    } else {
      forall k | IsPath(k) ensures Lookup(a.val, k) == Lookup(b.val, k) {
        PathPrepend(a.key, k);
        LookupShort(a.key, a.val, k);
        LookupShort(b.key, b.val, k);
      }
      Canonical(a.val, b.val);
    }
  }

  lemma {:induction false} CanonicalFull(a: Tree, b: Tree)
    requires WF(a) && WF(b) && a.Full? && b.Full? && SameContents(a, b)
    ensures a == b
    decreases a, 1
  {
    forall i | 0 <= i < 17 ensures a.ch[i] == b.ch[i] {
      CanonicalChild(a, b, i);
    }
  }

  lemma {:induction false} CanonicalChild(a: Tree, b: Tree, i: Byte)
    requires WF(a) && WF(b) && a.Full? && b.Full? && SameContents(a, b) && i < 17
    ensures a.ch[i] == b.ch[i]
    decreases a, 0
  {
    if i == 16 {
      assert IsPath([TERM]);
      assert Lookup(a, [TERM]) == Lookup(b, [TERM]);
      LookupFull(a.ch, 16, []);
      LookupFull(b.ch, 16, []);
    } else {
      forall k | IsPath(k) ensures Lookup(a.ch[i], k) == Lookup(b.ch[i], k) {
        PathPrepend([i], k);
        LookupFull(a.ch, i, k);
        LookupFull(b.ch, i, k);
      }
      Canonical(a.ch[i], b.ch[i]);
    }
  }
}

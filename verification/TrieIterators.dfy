/** Iterators over tries: the root is hashed first, then nodes are loaded as they are reached. */
module TrieIterators {
  import opened HexKeys
  import opened NodeCodec
  import opened TrieNode
  import opened Traversal
  import opened Iteration
  import opened Difference
  import It = NodeIterator
  import Tries = Trie

  method NewNodeIterator(t: Tries.Trie) returns (it: It.NodeIterator)
    requires t.Valid() && t.Retrievable()
    modifies t`root
    ensures t.Valid() && t.Retrievable() && t.Contents() == old(t.Contents())
    ensures fresh(it) && it.Valid() && it.Fresh() && it.status == It.Running
    ensures Expand(it.root) == t.Contents() && Backed(it.root, it.db)
  {
    var hash := t.Hash();
    it := new It.NodeIterator(t.root, hash, t.db.store, t.cachegen);
  }

  /** The entries of a trie from a start key on. */
  method EntriesOf(t: Tries.Trie, start: Bytes) returns (out: seq<Item>)
    requires t.Valid() && t.Retrievable()
    modifies t`root
    ensures t.Valid() && t.Retrievable() && t.Contents() == old(t.Contents())
    ensures EntriesFrom(t.Contents(), Unpack(start), out)
  {
    var hash := t.Hash();
    out := Entries(t.root, hash, t.db.store, t.cachegen, start);
  }

  /** The entries of b that a does not have. */
  method DifferencesOf(a: Tries.Trie, b: Tries.Trie, cmp: (Digest, Digest) -> int) returns (out: seq<Item>)
    requires a != b && a.Valid() && a.Retrievable() && b.Valid() && b.Retrievable() && Total(cmp)
    modifies a`root, b`root
    ensures a.Contents() == old(a.Contents()) && b.Contents() == old(b.Contents())
    ensures IsDifference(a.Contents(), b.Contents(), out)
  {
    var i := NewNodeIterator(a);
    var j := NewNodeIterator(b);
    out := Differences(i, j, cmp);
  }
}

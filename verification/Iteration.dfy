/** Whole iterations: the entries from a start key on, and the entries of one trie missing in another. */
module Iteration {
  import opened Options
  import opened HexKeys
  import opened PatriciaTree
  import opened NodeCodec
  import opened TrieNode
  import opened Traversal
  import It = NodeIterator

  /** In a well-formed trie the paths closed by a terminator are exactly those of values. */
  lemma {:induction false} LeafMarked(path: Bytes, t: Tree)
    requires Nibbles(path) && WF(t)
    ensures Shaped(t) && forall x | x in Visit(path, t) :: Subtree(x.t) && (HasTerm(x.path) <==> x.t.Val?)
    decreases t, 1
  {
    WFShape(t);
    if t.Short? {
      if HasTerm(t.key) {
        assert HasTerm(path + t.key);
        assert Visit(path + t.key, t.val) == [Item(path + t.key, t.val)];
      } else {
        assert Nibbles(path + t.key);
        LeafMarked(path + t.key, t.val);
      }
    } else if t.Full? {
      ChildrenMarked(path, t, 0);
    }
  }

  lemma {:induction false} ChildrenMarked(path: Bytes, t: Tree, i: nat)
    requires Nibbles(path) && WF(t) && Shaped(t) && t.Full? && i <= 17
    ensures forall x | x in Children(path, t, i) :: Subtree(x.t) && (HasTerm(x.path) <==> x.t.Val?)
    decreases t, 0, 17 - i
  {
    if i < 17 {
      ChildrenMarked(path, t, i + 1);
      if i == 16 {
        assert t.ch[16] != Nil ==> Visit(path + [16], t.ch[16]) == [Item(path + [16], t.ch[16])];
      } else {
        assert Nibbles(path + [i]);
        LeafMarked(path + [i], t.ch[i]);
      }
    }
  }

  function Leaves(items: seq<Item>): seq<Item> {
    if items == [] then []
    else
      var last := items[|items| - 1];
      Leaves(items[..|items| - 1]) + if last.t.Val? then [last] else []
  }

  lemma {:induction false} LeavesSnoc(items: seq<Item>, i: nat)
    requires i < |items|
    ensures Leaves(items[..i + 1]) == Leaves(items[..i]) + if items[i].t.Val? then [items[i]] else []
  {
    assert items[..i + 1][..i] == items[..i];
  }

  lemma {:induction false} LeavesMembers(items: seq<Item>, x: Item)
    ensures x in Leaves(items) <==> x in items && x.t.Val?
  {
    if items != [] {
      LeavesMembers(items[..|items| - 1], x);
      assert items == items[..|items| - 1] + [items[|items| - 1]];
    }
  }

  lemma {:induction false} LeavesAscending(items: seq<Item>)
    requires Ascending(items)
    ensures Ascending(Leaves(items))
  {
    if items != [] {
      var init, last := items[..|items| - 1], items[|items| - 1];
      LeavesAscending(init);
      if last.t.Val? {
        forall x | x in Leaves(init) ensures Less(x.path, last.path) {
          LeavesMembers(init, x);
        }
        AscendingCat(Leaves(init), [last]);
      }
    }
  }

  /** out lists, once each and in increasing order of paths, the entries of t at or after key. */
  ghost predicate EntriesFrom(t: Tree, key: Bytes, out: seq<Item>) {
    && Ascending(out)
    && (forall x | x in out :: x.t.Val?)
    && (forall k, v :: Item(k, Val(v)) in out <==> Lookup(t, k) == Some(v) && !Less(k, key))
  }

  /** A suffix of the traversal that starts where key belongs holds the entries from key on. */
  lemma {:induction false} SuffixEntries(t: Tree, from: nat, key: Bytes, out: seq<Item>)
    requires Shaped(t) && from <= |Visit([], t)| && out == Leaves(Visit([], t)[from..])
    requires forall i :: 0 <= i < from ==> Less(Visit([], t)[i].path, key)
    requires from < |Visit([], t)| ==> !Less(Visit([], t)[from].path, key)
    ensures EntriesFrom(t, key, out)
  {
    var items := Visit([], t);
    VisitAscending([], t);
    LeavesAscending(items[from..]);
    forall x ensures x in out <==> x in items[from..] && x.t.Val? {
      LeavesMembers(items[from..], x);
    }
    forall k, v ensures Item(k, Val(v)) in out <==> Lookup(t, k) == Some(v) && !Less(k, key) {
      LeavesAreEntries([], t, k, v);
      assert [] + k == k;
      SuffixMember(items, from, key, Item(k, Val(v)));
    }
  }

  lemma {:induction false} SuffixMember(items: seq<Item>, from: nat, key: Bytes, x: Item)
    requires Ascending(items) && from <= |items|
    requires forall i :: 0 <= i < from ==> Less(items[i].path, key)
    requires from < |items| ==> !Less(items[from].path, key)
    ensures x in items[from..] <==> x in items && !Less(x.path, key)
  {
    if x in items[from..] {
      var i :| 0 <= i < |items[from..]| && items[from..][i] == x;
      if i > 0 && Less(x.path, key) {
        LessTrans(items[from].path, x.path, key);
      }
    }
    if x in items && !Less(x.path, key) {
      var i :| 0 <= i < |items| && items[i] == x;
      assert items[from..][i - from] == x;
    }
  }

  /** out holds the leaves at positions from up to pos. */
  ghost predicate Gathered(out: seq<Item>, items: seq<Item>, from: int, pos: int) {
    0 <= from <= pos + 1 <= |items| && out == Leaves(items[from..pos + 1])
  }

  /** Takes the iterator to its end, keeping the leaves it meets. */
  method Collect(it: It.NodeIterator) returns (out: seq<Item>)
    requires it.Valid() && !it.status.SeekFailed? && Backed(it.root, it.db) && 0 <= it.pos + 1 <= |it.Items()|
    modifies it
    ensures old(it.Valid()) && out == Leaves(old(it.Items()[it.pos + 1..]))
  {
    ghost var items, from := it.Items(), it.pos + 1;
    out := [];
    assert items[from..from] == [];
    var more := true;
    while more
      invariant it.Valid() && it.Items() == items
      invariant Gathered(out, items, from, it.pos)
      invariant more ==> !it.status.SeekFailed?
      invariant !more ==> it.pos + 1 == |items|
      decreases more, |items| - it.pos
    {
      more, out := CollectNext(it, out, items, from);
    }
    assert items[from..it.pos + 1] == items[from..];
  }

  method CollectNext(it: It.NodeIterator, out: seq<Item>, ghost items: seq<Item>, ghost from: int)
    returns (more: bool, out': seq<Item>)
    requires it.Valid() && !it.status.SeekFailed? && Backed(it.root, it.db) && it.Items() == items
    requires Gathered(out, items, from, it.pos) && it.pos + 1 <= |items|
    modifies it
    ensures it.Valid() && it.Items() == items && Gathered(out', items, from, it.pos)
    ensures more ==> !it.status.SeekFailed? && it.pos == old(it.pos) + 1
    ensures !more ==> it.pos + 1 == |items|
  {
    hide Gathered, Backed, Visit, It.Stands;
    out' := out;
    more := it.Next(true);
    if more {
      LeafHere(it);
      GatherStep(out, items, from, it.pos);
      if HasTerm(it.path) {
        out' := out + [Item(it.path, Val(it.stack[|it.stack| - 1].node.v))];
      }
    }
  }

  lemma {:induction false} GatherStep(out: seq<Item>, items: seq<Item>, from: int, i: int)
    requires Gathered(out, items, from, i - 1) && i < |items|
    ensures items[i].t.Val? ==> Gathered(out + [items[i]], items, from, i)
    ensures !items[i].t.Val? ==> Gathered(out, items, from, i)
  {
    LeavesStep(items, from, i);
    assert out + [] == out;
  }

  lemma {:induction false} LeavesStep(items: seq<Item>, from: nat, i: nat)
    requires from <= i < |items|
    ensures Leaves(items[from..i + 1]) == Leaves(items[from..i]) + if items[i].t.Val? then [items[i]] else []
  {
    LeavesSnoc(items[from..], i - from);
    assert items[from..][..i - from] == items[from..i];
    assert items[from..][..i - from + 1] == items[from..i + 1];
  }

  lemma {:induction false} LeafHere(it: It.NodeIterator)
    requires it.Valid() && it.AtItem()
    ensures var n := it.stack[|it.stack| - 1].node;
            && (HasTerm(it.path) <==> n.NVal?)
            && (n.NVal? <==> it.Items()[it.pos].t.Val?)
            && (n.NVal? ==> it.Items()[it.pos] == Item(it.path, Val(n.v)))
  {
    LeafMarked([], Expand(it.root));
    assert it.Items()[it.pos] in it.Items();
  }

  /** From a start key on: each entry at or after it exactly once, in increasing order of paths. */
  method Entries(root: Node, rootHash: Digest, db: Store, gen: nat, start: Bytes) returns (out: seq<Item>)
    requires ContentAddressed(db) && WF(Expand(root)) && HashesOk(root, true) && Labelled(root) && Backed(root, db)
    requires rootHash == RootHash(Expand(root))
    ensures EntriesFrom(Expand(root), Unpack(start), out)
  {
    var it := new It.NodeIterator(root, rootHash, db, gen);
    it.Seek(start);
    ghost var from := it.pos + 1;
    out := Collect(it);
    SuffixEntries(Expand(root), from, Unpack(start), out);
  }
}

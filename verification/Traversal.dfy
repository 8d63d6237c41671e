/** Pre-order traversal of a tree as a sequence of positioned nodes, and the order of its paths. */
module Traversal {
  import opened Options
  import opened HexKeys
  import opened PatriciaTree

  // ---- byte-wise comparison ----

  function Compare(a: Bytes, b: Bytes): (c: int)
    ensures -1 <= c <= 1
    ensures c == 0 <==> a == b
  {
    if a == [] then (if b == [] then 0 else -1)
    else if b == [] then 1
    else if a[0] < b[0] then -1
    else if a[0] > b[0] then 1
    else
      assert a == [a[0]] + a[1..] && b == [b[0]] + b[1..];
      Compare(a[1..], b[1..])
  }

  predicate Less(a: Bytes, b: Bytes) {
    Compare(a, b) < 0
  }

  lemma {:induction false} CompareAnti(a: Bytes, b: Bytes)
    ensures Compare(a, b) == -Compare(b, a)
  {
    if a != [] && b != [] && a[0] == b[0] {
      CompareAnti(a[1..], b[1..]);
    }
  }

  lemma {:induction false} LessTrans(a: Bytes, b: Bytes, c: Bytes)
    requires Less(a, b) && Less(b, c)
    ensures Less(a, c)
  {
    if a != [] && a[0] == b[0] && b[0] == c[0] {
      LessTrans(a[1..], b[1..], c[1..]);
    }
  }

  lemma {:induction false} LessAppend(p: Bytes, a: Bytes, b: Bytes)
    ensures Compare(p + a, p + b) == Compare(a, b)
  {
    if p == [] {
      assert p + a == a && p + b == b;
    } else {
      assert (p + a)[1..] == p[1..] + a && (p + b)[1..] == p[1..] + b;
      LessAppend(p[1..], a, b);
    }
  }

  lemma {:induction false} PrefixLess(p: Bytes, x: Bytes)
    requires p <= x && p != x
    ensures Less(p, x)
  {
    if p != [] {
      PrefixLess(p[1..], x[1..]);
    }
  }

  /** Whatever lies beyond p without extending it lies beyond everything that extends p. */
  lemma {:induction false} BeyondPrefix(p: Bytes, e: Bytes, x: Bytes)
    requires Less(p, x) && !(p <= x) && p <= e
    ensures Less(e, x)
  {
    if p[0] == x[0] {
      assert p[1..] <= x[1..] ==> p <= x by {
        assert p == [p[0]] + p[1..] && x == [x[0]] + x[1..];
      }
      BeyondPrefix(p[1..], e[1..], x[1..]);
    }
  }

  // ---- items ----

  datatype Item = Item(path: Bytes, t: Tree)

  ghost predicate Shaped(t: Tree) {
    match t
    case Nil => true
    case Val(_) => true
    case Short(key, val) => key != [] && Shaped(val)
    case Full(ch) => |ch| == 17 && forall i :: 0 <= i < 17 ==> Shaped(ch[i])
  }

  lemma {:induction false} WFShape(t: Tree)
    requires WF(t) || IsLeaf(t)
    ensures Shaped(t)
  {
    match t
    case Nil =>
    case Val(_) =>
    case Short(_, val) => WFShape(val);
    case Full(ch) =>
      forall i | 0 <= i < 17 ensures Shaped(ch[i]) {
        WFShape(ch[i]);
      }
  }

  function Visit(path: Bytes, t: Tree): (items: seq<Item>)
    requires Shaped(t)
    ensures items != [] && items[0] == Item(path, t)
    decreases t, 19
  {
    [Item(path, t)] + Below(path, t)
  }

  function Below(path: Bytes, t: Tree): seq<Item>
    requires Shaped(t)
    decreases t, 18
  {
    match t
    case Nil => []
    case Val(_) => []
    case Short(key, val) => Visit(path + key, val)
    case Full(ch) => Children(path, t, 0)
  }

  function Children(path: Bytes, t: Tree, i: nat): seq<Item>
    requires Shaped(t) && t.Full? && i <= 17
    decreases t, 17 - i
  {
    if i == 17 then []
    else (if t.ch[i] == Nil then [] else Visit(path + [i], t.ch[i])) + Children(path, t, i + 1)
  }

  ghost predicate Ascending(items: seq<Item>) {
    forall i, j :: 0 <= i < j < |items| ==> Less(items[i].path, items[j].path)
  }

  /** Everything lies below path, under a symbol no smaller than i. */
  ghost predicate Under(items: seq<Item>, path: Bytes, i: nat) {
    forall x | x in items :: path < x.path && x.path[|path|] >= i
  }

  lemma {:induction false} LessAt(path: Bytes, x: Bytes, y: Bytes)
    requires path < x && path < y && x[|path|] < y[|path|]
    ensures Less(x, y)
  {
    assert x == path + x[|path|..] && y == path + y[|path|..];
    LessAppend(path, x[|path|..], y[|path|..]);
  }

  lemma {:induction false} AscendingCat(a: seq<Item>, b: seq<Item>)
    requires Ascending(a) && Ascending(b)
    requires forall x, y | x in a && y in b :: Less(x.path, y.path)
    ensures Ascending(a + b)
  {
    var c := a + b;
    forall i, j | 0 <= i < j < |c| ensures Less(c[i].path, c[j].path) {
      if i < |a| <= j {
        assert c[i] in a && c[j] in b;
      }
    }
  }

  lemma {:induction false} VisitUnder(path: Bytes, t: Tree)
    requires Shaped(t)
    ensures forall x | x in Visit(path, t) :: path <= x.path
    ensures Under(Below(path, t), path, 0)
    decreases t, 19
  {
    match t
    case Nil =>
    case Val(_) =>
    case Short(key, val) =>
      VisitUnder(path + key, val);
      assert path < path + key;
    case Full(ch) =>
      ChildrenUnder(path, t, 0);
  }

  lemma {:induction false} ChildrenUnder(path: Bytes, t: Tree, i: nat)
    requires Shaped(t) && t.Full? && i <= 17
    ensures Under(Children(path, t, i), path, i)
    decreases t, 17 - i
  {
    if i < 17 {
      if t.ch[i] != Nil {
        VisitUnder(path + [i], t.ch[i]);
      }
      ChildrenUnder(path, t, i + 1);
    }
  }

  lemma {:induction false} VisitAscending(path: Bytes, t: Tree)
    requires Shaped(t)
    ensures Ascending(Visit(path, t))
    decreases t, 19
  {
    VisitUnder(path, t);
    if t.Short? {
      VisitAscending(path + t.key, t.val);
    } else if t.Full? {
      ChildrenAscending(path, t, 0);
    }
    forall y | y in Below(path, t) ensures Less(path, y.path) {
      PrefixLess(path, y.path);
    }
    AscendingCat([Item(path, t)], Below(path, t));
  }

  lemma {:induction false} ChildrenAscending(path: Bytes, t: Tree, i: nat)
    requires Shaped(t) && t.Full? && i <= 17
    ensures Ascending(Children(path, t, i))
    decreases t, 17 - i
  {
    if i < 17 {
      ChildrenAscending(path, t, i + 1);
      if t.ch[i] != Nil {
        VisitAscending(path + [i], t.ch[i]);
        ChildBefore(path, t, i);
        AscendingCat(Visit(path + [i], t.ch[i]), Children(path, t, i + 1));
      }
    }
  }

  /** One child's nodes come before all later children's. */
  lemma {:induction false} ChildBefore(path: Bytes, t: Tree, i: nat)
    requires Shaped(t) && t.Full? && i < 17
    ensures forall x, y | x in Visit(path + [i], t.ch[i]) && y in Children(path, t, i + 1) :: Less(x.path, y.path)
  {
    VisitUnder(path + [i], t.ch[i]);
    ChildrenUnder(path, t, i + 1);
    forall x, y | x in Visit(path + [i], t.ch[i]) && y in Children(path, t, i + 1) ensures Less(x.path, y.path) {
      assert path + [i] <= x.path;
      assert path < x.path && x.path[|path|] == i;
      LessAt(path, x.path, y.path);
    }
  }

  // ---- subtrees are contiguous blocks ----

  /** items[pos..] starts with the block of the node at pos, and nothing after the block extends its path. */
  ghost predicate BlockAt(items: seq<Item>, pos: nat, block: seq<Item>) {
    && pos + |block| <= |items|
    && items[pos..pos + |block|] == block
    && block != []
    && forall j :: pos + |block| <= j < |items| ==> !(block[0].path <= items[j].path)
  }

  ghost predicate Block(items: seq<Item>, pos: nat)
    requires pos < |items|
  {
    Shaped(items[pos].t) && BlockAt(items, pos, Visit(items[pos].path, items[pos].t))
  }

  lemma {:induction false} BlockLeft(a: seq<Item>, b: seq<Item>, pos: nat)
    requires pos < |a| && Block(a, pos)
    requires forall x | x in b :: !(a[pos].path <= x.path)
    ensures Block(a + b, pos)
  {
    var n := |Visit(a[pos].path, a[pos].t)|;
    assert (a + b)[pos..pos + n] == a[pos..pos + n];
    forall j | pos + n <= j < |a + b| ensures !(a[pos].path <= (a + b)[j].path) {
      assert j >= |a| ==> (a + b)[j] in b;
    }
  }

  lemma {:induction false} BlockRight(a: seq<Item>, b: seq<Item>, pos: nat)
    requires pos < |b| && Block(b, pos)
    ensures Block(a + b, |a| + pos)
  {
    var n := |Visit(b[pos].path, b[pos].t)|;
    assert (a + b)[|a| + pos] == b[pos];
    assert (a + b)[|a| + pos..|a| + pos + n] == b[pos..pos + n];
    forall j | |a| + pos + n <= j < |a + b| ensures !(b[pos].path <= (a + b)[j].path) {
      assert (a + b)[j] == b[j - |a|];
    }
  }

  lemma {:induction false} VisitBlock(path: Bytes, t: Tree, pos: nat)
    requires Shaped(t) && pos < |Visit(path, t)|
    ensures Block(Visit(path, t), pos)
    decreases t, 19
  {
    var items := Visit(path, t);
    if pos == 0 {
      assert items[0..|items|] == items;
    } else {
      BelowBlock(path, t, pos - 1);
      BlockRight([Item(path, t)], Below(path, t), pos - 1);
    }
  }

  lemma {:induction false} BelowBlock(path: Bytes, t: Tree, pos: nat)
    requires Shaped(t) && pos < |Below(path, t)|
    ensures Block(Below(path, t), pos)
    decreases t, 18
  {
    if t.Short? {
      VisitBlock(path + t.key, t.val, pos);
    } else {
      ChildrenBlock(path, t, 0, pos);
    }
  }

  lemma {:induction false} ChildrenBlock(path: Bytes, t: Tree, i: nat, pos: nat)
    requires Shaped(t) && t.Full? && i <= 17 && pos < |Children(path, t, i)|
    ensures Block(Children(path, t, i), pos)
    decreases t, 17 - i
  {
    var a := if t.ch[i] == Nil then [] else Visit(path + [i], t.ch[i]);
    var b := Children(path, t, i + 1);
    assert Children(path, t, i) == a + b;
    if pos < |a| {
      VisitBlock(path + [i], t.ch[i], pos);
      ChildApart(path, t, i, a[pos]);
    } else {
      ChildrenBlock(path, t, i + 1, pos - |a|);
    }
    JoinBlock(a, b, pos);
  }

  lemma {:induction false} JoinBlock(a: seq<Item>, b: seq<Item>, pos: nat)
    requires pos < |a| + |b|
    requires pos < |a| ==> Block(a, pos) && forall x | x in b :: !(a[pos].path <= x.path)
    requires pos >= |a| ==> Block(b, pos - |a|)
    ensures Block(a + b, pos)
  {
    if pos < |a| {
      BlockLeft(a, b, pos);
    } else {
      BlockRight(a, b, pos - |a|);
    }
  }

  lemma {:induction false} ChildApart(path: Bytes, t: Tree, i: nat, x: Item)
    requires Shaped(t) && t.Full? && i < 17 && x in Visit(path + [i], t.ch[i])
    ensures forall y | y in Children(path, t, i + 1) :: !(x.path <= y.path)
  {
    VisitUnder(path + [i], t.ch[i]);
    ChildrenUnder(path, t, i + 1);
    assert path + [i] <= x.path;
    assert |path| < |x.path| && x.path[|path|] == i;
  }

  // ---- the leaves are the entries ----

  lemma {:induction false} LeavesAreEntries(path: Bytes, t: Tree, k: Bytes, v: Bytes)
    requires Shaped(t)
    ensures Item(path + k, Val(v)) in Visit(path, t) <==> Lookup(t, k) == Some(v)
    decreases t, 19
  {
    var x := Item(path + k, Val(v));
    match t
    case Nil =>
    case Val(_) => assert x.path == path <==> k == [];
    case Short(key, val) =>
      VisitUnder(path + key, val);
      if key <= k {
        assert (path + key) + k[|key|..] == path + k;
        LeavesAreEntries(path + key, val, k[|key|..], v);
      } else {
        assert path + key <= path + k ==> key <= k by {
          assert (path + key)[|path|..] == key && (path + k)[|path|..] == k;
        }
      }
    case Full(ch) =>
      ChildrenEntries(path, t, 0, k, v);
  }

  /** Nothing below child i lies on a path that does not go through i. */
  lemma {:induction false} NotBelowChild(path: Bytes, t: Tree, i: Byte, k: Bytes, v: Bytes)
    requires Shaped(t) && (k == [] || k[0] != i)
    ensures Item(path + k, Val(v)) !in Visit(path + [i], t)
  {
    hide Visit, Shaped;
    VisitUnder(path + [i], t);
    assert (path + [i])[|path|] == i && (k != [] ==> (path + k)[|path|] == k[0]);
    assert !(path + [i] <= path + k);
  }

  lemma {:induction false} ChildrenEntries(path: Bytes, t: Tree, i: nat, k: Bytes, v: Bytes)
    requires Shaped(t) && t.Full? && i <= 17
    ensures Item(path + k, Val(v)) in Children(path, t, i) <==>
            k != [] && i <= k[0] < 17 && Lookup(t.ch[k[0]], k[1..]) == Some(v)
    decreases t, 17 - i
  {
    if i < 17 {
      ChildrenEntries(path, t, i + 1, k, v);
      if t.ch[i] != Nil {
        if k != [] && k[0] == i {
          assert (path + [i]) + k[1..] == path + k;
          LeavesAreEntries(path + [i], t.ch[i], k[1..], v);
        } else {
          NotBelowChild(path, t.ch[i], i, k, v);
        }
      }
    }
  }
}

/** How the shape changes made by insertion and deletion act on contents and minimal form. */
module TreeUpdate {
  import opened Options
  import opened HexKeys
  import opened PatriciaTree

  /** t' holds what t holds, except that path k now gives ov. */
  ghost predicate Updated(t: Tree, t': Tree, k: Bytes, ov: Option<Bytes>) {
    forall k': Bytes :: Lookup(t', k') == if k' == k then ov else Lookup(t, k')
  }

  lemma {:induction false} UpdatedShort(key: Bytes, t: Tree, t': Tree, k: Bytes, ov: Option<Bytes>)
    requires key <= k && Updated(t, t', k[|key|..], ov)
    ensures Updated(Short(key, t), Short(key, t'), k, ov)
  {
    assert k == key + k[|key|..];
    forall k': Bytes
      ensures Lookup(Short(key, t'), k') == if k' == k then ov else Lookup(Short(key, t), k')
    {
      if key <= k' {
        assert k' == key + k'[|key|..];
        assert Lookup(t', k'[|key|..]) == if k'[|key|..] == k[|key|..] then ov else Lookup(t, k'[|key|..]);
      }
    }
  }

  lemma {:induction false} UpdatedFull(ch: seq<Tree>, t': Tree, k: Bytes, ov: Option<Bytes>)
    requires k != [] && k[0] < |ch| && Updated(ch[k[0]], t', k[1..], ov)
    ensures Updated(Full(ch), Full(ch[k[0] := t']), k, ov)
  {
    assert k == [k[0]] + k[1..];
    var ch' := ch[k[0] := t'];
    forall k': Bytes
      ensures Lookup(Full(ch'), k') == if k' == k then ov else Lookup(Full(ch), k')
    {
      if k' != [] && k'[0] == k[0] {
        assert k' == [k'[0]] + k'[1..];
        assert Lookup(t', k'[1..]) == if k'[1..] == k[1..] then ov else Lookup(ch[k[0]], k'[1..]);
      }
    }
  }

  // ---- splitting a short node ----

  function Graft(k: Bytes, t: Tree): Tree {
    if k == [] then t else Short(k, t)
  }

  function NoChildren(): (ch: seq<Tree>)
    ensures |ch| == 17 && forall i :: 0 <= i < 17 ==> ch[i] == Nil
  {
    seq(17, _ => Nil)
  }

  function Fork(a: Byte, ta: Tree, b: Byte, tb: Tree): Tree
    requires a <= 16 && b <= 16
  {
    Full(NoChildren()[a := ta][b := tb])
  }

  lemma {:induction false} GraftLookup(k: Bytes, t: Tree, k': Bytes)
    ensures Lookup(Graft(k, t), k') == if k <= k' then Lookup(t, k'[|k|..]) else None
  {
    if k == [] {
      assert k'[0..] == k';
    }
  }

  lemma {:induction false} GraftCat(p: Bytes, q: Bytes, t: Tree, k': Bytes)
    ensures Lookup(Graft(p, Graft(q, t)), k') == Lookup(Graft(p + q, t), k')
  {
    GraftLookup(p, Graft(q, t), k');
    GraftLookup(p + q, t, k');
    if p <= k' {
      var r := k'[|p|..];
      GraftLookup(q, t, r);
      assert k' == p + r;
      assert |p + q| <= |k'| ==> k'[..|p + q|] == p + r[..|q|] && k'[|p + q|..] == r[|q|..];
      assert p + q <= k' <==> q <= r;
    }
  }

  lemma {:induction false} ForkLookup(a: Byte, ra: Bytes, t: Tree, b: Byte, rb: Bytes, v: Bytes, k': Bytes)
    requires a <= 16 && b <= 16 && a != b
    ensures Lookup(Fork(a, Graft(ra, t), b, Graft(rb, Val(v))), k') ==
            if k' == [b] + rb then Some(v) else Lookup(Short([a] + ra, t), k')
  {
    if k' != [] {
      var r := k'[1..];
      assert k' == [k'[0]] + r;
      if k'[0] == b {
        GraftLookup(rb, Val(v), r);
        assert rb <= r && r[|rb|..] == [] ==> r == rb;
        assert !([a] + ra <= k');
      } else if k'[0] == a {
        GraftLookup(ra, t, r);
        assert [a] + ra <= k' <==> ra <= r;
        assert ra <= r ==> k'[|[a] + ra|..] == r[|ra|..];
      } else {
        assert !([a] + ra <= k');
      }
    }
  }

  /** A short node split after the common prefix p of its key and the new path. */
  lemma {:induction false} SplitUpdated(p: Bytes, a: Byte, ra: Bytes, t: Tree, b: Byte, rb: Bytes, v: Bytes)
    requires a <= 16 && b <= 16 && a != b
    ensures Updated(Short(p + [a] + ra, t), Graft(p, Fork(a, Graft(ra, t), b, Graft(rb, Val(v)))), p + [b] + rb, Some(v))
  {
    hide Lookup, Graft, Fork;
    var f := Fork(a, Graft(ra, t), b, Graft(rb, Val(v)));
    forall k': Bytes
      ensures Lookup(Graft(p, f), k') ==
              if k' == p + [b] + rb then Some(v) else Lookup(Short(p + [a] + ra, t), k')
    {
      SplitAt(p, a, ra, t, b, rb, v, k');
    }
  }

  lemma {:induction false} SplitAt(p: Bytes, a: Byte, ra: Bytes, t: Tree, b: Byte, rb: Bytes, v: Bytes, k: Bytes)
    requires a <= 16 && b <= 16 && a != b
    ensures Lookup(Graft(p, Fork(a, Graft(ra, t), b, Graft(rb, Val(v)))), k) ==
            if k == p + [b] + rb then Some(v) else Lookup(Short(p + [a] + ra, t), k)
  {
    hide Lookup, Fork;
    GraftLookup(p, Fork(a, Graft(ra, t), b, Graft(rb, Val(v))), k);
    GraftCat(p, [a] + ra, t, k);
    assert p + ([a] + ra) == p + [a] + ra;
    GraftLookup(p, Short([a] + ra, t), k);
    if p <= k {
      var r := k[|p|..];
      assert k == p + r;
      ForkLookup(a, ra, t, b, rb, v, r);
      CatTail(p, b, rb, r);
    } else {
      assert p + [b] + rb == p + ([b] + rb);
    }
  }

  lemma {:induction false} CatTail(p: Bytes, b: Byte, rb: Bytes, r: Bytes)
    ensures p + r == p + [b] + rb <==> r == [b] + rb
  {
    assert (p + [b] + rb)[|p|..] == [b] + rb && (p + r)[|p|..] == r;
    assert p + ([b] + rb) == p + [b] + rb;
  }

  lemma {:induction false} PathTail(p: Bytes, b: Byte, rb: Bytes)
    requires IsPath(p + [b] + rb)
    ensures Nibbles(p) && b <= 16
    ensures if b == 16 then rb == [] else IsPath(rb)
  {
    var k := p + [b] + rb;
    assert k[..|p|] == p && k[|p| + 1..] == rb && k[|p|] == b;
    PathSuffix(k, |p|);
    if rb != [] {
      PathSuffix(k, |p| + 1);
    }
  }

  lemma {:induction false} KeyTail(p: Bytes, a: Byte, ra: Bytes, t: Tree)
    requires WF(Short(p + [a] + ra, t))
    ensures a <= 16
    ensures if a == 16 then ra == [] && IsLeaf(t) else WF(Graft(ra, t)) && Graft(ra, t) != Nil
  {
    var key := p + [a] + ra;
    if HasTerm(key) {
      PathTail(p, a, ra);
    } else {
      assert key[|p|] == a && forall i :: 0 <= i < |ra| ==> ra[i] == key[|p| + 1 + i];
    }
  }

  lemma {:induction false} SplitWF(p: Bytes, a: Byte, ra: Bytes, t: Tree, b: Byte, rb: Bytes, v: Bytes)
    requires WF(Short(p + [a] + ra, t)) && IsPath(p + [b] + rb) && v != [] && a != b
    ensures a <= 16 && b <= 16
    ensures WF(Graft(p, Fork(a, Graft(ra, t), b, Graft(rb, Val(v)))))
  {
    KeyTail(p, a, ra, t);
    PathTail(p, b, rb);
    ForkWF(a, Graft(ra, t), b, Graft(rb, Val(v)));
  }

  lemma {:induction false} ForkWF(a: Byte, ta: Tree, b: Byte, tb: Tree)
    requires a <= 16 && b <= 16 && a != b
    requires if a == 16 then IsLeaf(ta) else WF(ta) && ta != Nil
    requires if b == 16 then IsLeaf(tb) else WF(tb) && tb != Nil
    ensures WF(Fork(a, ta, b, tb))
  {
    var ch := Fork(a, ta, b, tb).ch;
    assert ch[a] != Nil && ch[b] != Nil;
  }

  lemma {:induction false} WFReplace(ch: seq<Tree>, i: nat, t: Tree)
    requires WF(Full(ch)) && i < 17
    requires if i == 16 then t.Nil? || IsLeaf(t) else WF(t)
    requires TwoChildren(ch[i := t])
    ensures WF(Full(ch[i := t]))
  {
  }

  lemma {:induction false} WFUpdate(ch: seq<Tree>, i: nat, t: Tree)
    requires WF(Full(ch)) && i < 17
    requires if i == 16 then IsLeaf(t) else WF(t) && t != Nil
    ensures WF(Full(ch[i := t]))
  {
    var x, y :| 0 <= x < y < |ch| && ch[x] != Nil && ch[y] != Nil;
    var ch' := ch[i := t];
    assert ch'[x] != Nil && ch'[y] != Nil;
    WFReplace(ch, i, t);
  }

  // ---- joining short nodes after a deletion ----

  lemma {:induction false} JoinWF(key: Bytes, ck: Bytes, t: Tree)
    requires Nibbles(key) && WF(Short(ck, t))
    ensures WF(Short(key + ck, t))
  {
    if HasTerm(ck) {
      PathPrepend(key, ck);
    }
  }

  lemma {:induction false} JoinUpdated(t: Tree, key: Bytes, ck: Bytes, val: Tree, k: Bytes, ov: Option<Bytes>)
    requires key != [] && ck != [] && Updated(t, Short(key, Short(ck, val)), k, ov)
    ensures Updated(t, Short(key + ck, val), k, ov)
  {
    forall k': Bytes ensures Lookup(Short(key + ck, val), k') == if k' == k then ov else Lookup(t, k') {
      GraftCat(key, ck, val, k');
      assert Lookup(Short(key, Short(ck, val)), k') == if k' == k then ov else Lookup(t, k');
    }
  }

  ghost predicate OnlyChild(ch: seq<Tree>, i: nat) {
    i < |ch| && ch[i] != Nil && forall j :: 0 <= j < |ch| && j != i ==> ch[j] == Nil
  }

  lemma {:induction false} SoleLookup(ch: seq<Tree>, i: Byte, k: Bytes)
    requires OnlyChild(ch, i)
    ensures Lookup(Full(ch), k) == Lookup(Short([i], ch[i]), k)
  {
    if k != [] && k[0] == i {
      assert k == [i] + k[1..];
      LookupShort([i], ch[i], k[1..]);
    } else {
      assert !([i] <= k);
    }
  }

  /** A full node left with one child is replaced by a one-nibble short node. */
  lemma {:induction false} SoleUpdated(t: Tree, ch: seq<Tree>, i: Byte, k: Bytes, ov: Option<Bytes>)
    requires OnlyChild(ch, i) && Updated(t, Full(ch), k, ov)
    ensures Updated(t, Short([i], ch[i]), k, ov)
  {
    forall k': Bytes ensures Lookup(Short([i], ch[i]), k') == if k' == k then ov else Lookup(t, k') {
      SoleLookup(ch, i, k');
    }
  }
}

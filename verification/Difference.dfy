/** The difference iterator: nodes of trie b that are not in trie a, skipping common subtrees. */
module Difference {
  import opened Options
  import opened HexKeys
  import opened PatriciaTree
  import opened NodeCodec
  import opened TrieNode
  import opened Traversal
  import opened Iteration
  import It = NodeIterator

  /** What compareNodes looks at. */
  datatype View = View(path: Bytes, hash: Digest, blob: Bytes)

  /** Path first, then leaves before other nodes, then hash, then value. */
  function CompareViews(a: View, b: View, cmp: (Digest, Digest) -> int): int {
    if Compare(a.path, b.path) != 0 then Compare(a.path, b.path)
    else if HasTerm(a.path) && !HasTerm(b.path) then -1
    else if HasTerm(b.path) && !HasTerm(a.path) then 1
    else if cmp(a.hash, b.hash) != 0 then cmp(a.hash, b.hash)
    else if HasTerm(a.path) && HasTerm(b.path) then Compare(a.blob, b.blob)
    else 0
  }

  ghost predicate Total(cmp: (Digest, Digest) -> int) {
    forall x, y :: (cmp(x, y) == 0 <==> x == y) && -1 <= cmp(x, y) <= 1
  }

  function ViewOf(x: Item): View
    requires Subtree(x.t)
  {
    View(x.path, It.HashAt(x), if x.t.Val? then x.t.v else [])
  }

  /** An item of a trie: a subtree in minimal form whose path is terminated exactly if it is a value. */
  ghost predicate Proper(x: Item) {
    Subtree(x.t) && (HasTerm(x.path) <==> x.t.Val?)
  }

  lemma {:induction false} ComparedEqual(x: Item, y: Item, cmp: (Digest, Digest) -> int)
    requires Total(cmp) && Proper(x) && Proper(y) && CompareViews(ViewOf(x), ViewOf(y), cmp) == 0
    ensures x.path == y.path && (x.t.Val? <==> y.t.Val?)
    ensures x.t.Val? || It.HashAt(x) != ZeroHash ==> x == y
  {
    assert cmp(It.HashAt(x), It.HashAt(y)) == 0;
    if !x.t.Val? && It.HashAt(x) != ZeroHash {
      TreeOfBlob(x.t);
      TreeOfBlob(y.t);
    }
  }

  lemma {:induction false} ComparedUnequal(x: Item, y: Item, cmp: (Digest, Digest) -> int)
    requires Total(cmp) && Proper(x) && Proper(y)
    ensures CompareViews(ViewOf(x), ViewOf(y), cmp) < 0 ==> !Less(y.path, x.path) && x != y
    ensures CompareViews(ViewOf(x), ViewOf(y), cmp) > 0 ==> !Less(x.path, y.path) && x != y
  {
    CompareAnti(x.path, y.path);
  }

  // ---- positions in the two traversals ----

  /** Everything a has passed lies at or before x, and is not x. */
  ghost predicate Behind(A: seq<Item>, pa: nat, x: Item) {
    forall i | 0 <= i < pa && i < |A| :: !Less(x.path, A[i].path) && (x.t.Val? ==> A[i] != x)
  }

  /** Everything a has passed lies before all that b still has to come to. */
  ghost predicate Apart(A: seq<Item>, pa: nat, B: seq<Item>, ib: int) {
    forall i, j | 0 <= i < pa && i < |A| && ib < j < |B| && 0 <= j :: Less(A[i].path, B[j].path)
  }

  /** The leaves of b strictly between lo and hi are leaves of a. */
  ghost predicate Common(A: seq<Item>, B: seq<Item>, lo: int, hi: int) {
    forall j | lo < j < hi && 0 <= j < |B| && B[j].t.Val? :: B[j] in A
  }

  lemma {:induction false} BehindApart(A: seq<Item>, pa: nat, B: seq<Item>, ib: nat)
    requires Ascending(B) && ib < |B| && Behind(A, pa, B[ib])
    ensures Apart(A, pa, B, ib)
  {
    forall i, j | 0 <= i < pa && i < |A| && ib < j < |B| ensures Less(A[i].path, B[j].path) {
      CompareAnti(A[i].path, B[ib].path);
      if A[i].path != B[ib].path {
        LessTrans(A[i].path, B[ib].path, B[j].path);
      }
    }
  }

  lemma {:induction false} ApartBehind(A: seq<Item>, pa: nat, B: seq<Item>, ib: int, j: nat)
    requires Apart(A, pa, B, ib) && ib < j < |B|
    ensures Behind(A, pa, B[j])
  {
    forall i | 0 <= i < pa && i < |A| ensures !Less(B[j].path, A[i].path) && A[i] != B[j] {
      CompareAnti(A[i].path, B[j].path);
    }
  }

  /** b's node comes before a's: it is not in a. */
  lemma {:induction false} AheadNotIn(A: seq<Item>, pa: nat, x: Item, cmp: (Digest, Digest) -> int)
    requires Total(cmp) && Ascending(A) && pa < |A| && Behind(A, pa, x) && Proper(x) && Proper(A[pa])
    requires CompareViews(ViewOf(A[pa]), ViewOf(x), cmp) > 0
    ensures x.t.Val? ==> x !in A
  {
    ComparedUnequal(A[pa], x, cmp);
    forall i | 0 <= i < |A| ensures x.t.Val? ==> A[i] != x {
      if i > pa {
        CompareAnti(x.path, A[pa].path);
      }
    }
  }

  ghost function Span(items: seq<Item>, i: nat, descend: bool): nat
    requires i < |items| && Shaped(items[i].t)
  {
    if descend then 1 else |Visit(items[i].path, items[i].t)|
  }

  /** What b passes is in a, and a stays behind what b comes to next. */
  ghost predicate InStep(A: seq<Item>, ia: nat, B: seq<Item>, ib: nat, ib': nat) {
    Common(A, B, ib - 1, ib') && (ib' < |B| ==> Behind(A, ia, B[ib']))
  }

  lemma {:induction false} EqualDescend(A: seq<Item>, ia: nat, B: seq<Item>, ib: nat)
    requires Ascending(B) && ia < |A| && ib < |B| && Behind(A, ia, B[ib])
    requires A[ia].path == B[ib].path && (B[ib].t.Val? ==> B[ib] == A[ia])
    ensures InStep(A, ia + 1, B, ib, ib + 1)
  {
    BehindApart(A, ia, B, ib);
    if ib + 1 < |B| {
      NextBehind(A, ia, 1, B, ib, 1);
    }
  }

  lemma {:induction false} EqualSkip(A: seq<Item>, ia: nat, B: seq<Item>, ib: nat)
    requires Ascending(B) && ia < |A| && ib < |B| && Behind(A, ia, B[ib])
    requires A[ia] == B[ib] && Block(A, ia) && Block(B, ib)
    ensures InStep(A, ia + Span(A, ia, false), B, ib, ib + Span(B, ib, false))
  {
    hide Visit, Compare, Less, Ascending, Behind, Shaped;
    var n := Span(A, ia, false);
    BehindApart(A, ia, B, ib);
    SkipCommon(A, ia, B, ib, n);
    if ib + n < |B| {
      VisitUnder(A[ia].path, A[ia].t);
      forall i | ia <= i < ia + n ensures B[ib].path <= A[i].path {
        assert A[i] == A[ia..ia + n][i - ia];
        assert A[i] in Visit(A[ia].path, A[ia].t);
      }
      NextBehind(A, ia, n, B, ib, n);
    }
  }

  lemma {:induction false} EqualMove(A: seq<Item>, ia: nat, B: seq<Item>, ib: nat, descend: bool)
    requires Ascending(B) && ia < |A| && ib < |B| && Behind(A, ia, B[ib]) && Block(A, ia) && Block(B, ib)
    requires A[ia].path == B[ib].path && (B[ib].t.Val? || !descend ==> A[ia] == B[ib])
    ensures InStep(A, ia + Span(A, ia, descend), B, ib, ib + Span(B, ib, descend))
  {
    hide Visit, Compare, Less, Ascending, Behind, InStep, Shaped;
    if descend {
      EqualDescend(A, ia, B, ib);
    } else {
      EqualSkip(A, ia, B, ib);
    }
  }

  /** Both iterators pass nodes that compare equal. */
  lemma {:induction false} EqualStep(A: seq<Item>, ia: nat, B: seq<Item>, ib: nat, cmp: (Digest, Digest) -> int)
    requires Total(cmp) && Ascending(B) && ia < |A| && ib < |B| && Behind(A, ia, B[ib])
    requires Block(A, ia) && Block(B, ib) && Proper(A[ia]) && Proper(B[ib])
    requires CompareViews(ViewOf(A[ia]), ViewOf(B[ib]), cmp) == 0
    ensures var descend := It.HashAt(A[ia]) == ZeroHash;
            InStep(A, ia + Span(A, ia, descend), B, ib, ib + Span(B, ib, descend))
  {
    hide Visit, Compare, Less, Ascending, Behind, CompareViews, Shaped, Total, InStep, Span, Block;
    ComparedEqual(A[ia], B[ib], cmp);
    EqualMove(A, ia, B, ib, It.HashAt(A[ia]) == ZeroHash);
  }

  lemma {:induction false} SkipCommon(A: seq<Item>, ia: nat, B: seq<Item>, ib: nat, n: nat)
    requires ia + n <= |A| && ib + n <= |B| && A[ia..ia + n] == B[ib..ib + n]
    ensures Common(A, B, ib - 1, ib + n)
  {
    forall j | ib <= j < ib + n ensures B[j] in A {
      assert B[j] == B[ib..ib + n][j - ib] == A[ia..ia + n][j - ib] == A[ia + (j - ib)];
    }
  }

  lemma {:induction false} NextBehind(A: seq<Item>, ia: nat, na: nat, B: seq<Item>, ib: nat, nb: nat)
    requires Ascending(B) && ia + na <= |A| && nb > 0 && ib + nb < |B|
    requires Apart(A, ia, B, ib)
    requires forall i | ia <= i < ia + na :: A[i].path == B[ib].path || (B[ib].path <= A[i].path && !(B[ib].path <= B[ib + nb].path))
    ensures Behind(A, ia + na, B[ib + nb])
  {
    var x := B[ib + nb];
    forall i | 0 <= i < ia + na ensures !Less(x.path, A[i].path) && A[i] != x {
      if i >= ia && A[i].path != B[ib].path {
        BeyondPrefix(B[ib].path, A[i].path, x.path);
      }
      assert Less(A[i].path, x.path);
      CompareAnti(A[i].path, x.path);
    }
  }

  // ---- iterators as positions ----

  /** items is the traversal of some trie. */
  ghost predicate Listing(items: seq<Item>) {
    exists t :: WF(t) && Shaped(t) && items == Visit([], t)
  }

  lemma {:induction false} ListingAt(items: seq<Item>, i: nat)
    requires Listing(items) && i < |items|
    ensures Proper(items[i]) && Ascending(items) && Block(items, i)
  {
    var t :| WF(t) && Shaped(t) && items == Visit([], t);
    LeafMarked([], t);
    VisitAscending([], t);
    VisitBlock([], t, i);
    assert items[i] in items;
  }

  /** it goes through items, all of which can be loaded, and has come to position pos. */
  ghost predicate Through(it: It.NodeIterator, items: seq<Item>, pos: int)
    reads it
  {
    && it.Valid() && it.Items() == items && it.pos == pos && -1 <= pos < |items|
    && Backed(it.root, it.db) && !it.status.SeekFailed?
  }

  /** It stands on the node at pos. */
  ghost predicate On(it: It.NodeIterator, items: seq<Item>, pos: int)
    reads it
  {
    Through(it, items, pos) && it.AtItem()
  }

  lemma {:induction false} OnListing(it: It.NodeIterator, items: seq<Item>, pos: int)
    requires Through(it, items, pos)
    ensures Listing(items)
  {
  }

  method Look(it: It.NodeIterator, ghost items: seq<Item>, ghost pos: int) returns (v: View)
    requires On(it, items, pos)
    ensures 0 <= pos < |items| && Listing(items) && Proper(items[pos]) && v == ViewOf(items[pos])
  {
    OnListing(it, items, pos);
    ListingAt(items, pos);
    LeafHere(it);
    var top := it.stack[|it.stack| - 1];
    It.PopStands(it.stack, it.path, it.root, it.db, it.Items(), it.pos);
    v := View(it.path, top.hash, if top.node.NVal? then top.node.v else []);
  }

  method Step(it: It.NodeIterator, ghost items: seq<Item>, ghost pos: int) returns (ok: bool)
    requires Through(it, items, pos)
    modifies it
    ensures ok == (pos + 1 < |items|)
    ensures if ok then On(it, items, pos + 1) else Through(it, items, pos)
  {
    ok := it.Next(true);
  }

  method Pass(it: It.NodeIterator, descend: bool, ghost items: seq<Item>, ghost pos: int) returns (ok: bool)
    requires On(it, items, pos)
    modifies it
    ensures 0 <= pos < |items| && Shaped(items[pos].t)
    ensures ok == (pos + Span(items, pos, descend) < |items|)
    ensures if ok then On(it, items, pos + Span(items, pos, descend)) else Through(it, items, it.pos)
  {
    OnListing(it, items, pos);
    ListingAt(items, pos);
    ok := it.Next(descend);
  }

  lemma {:induction false} EqualNodes(A: seq<Item>, ia: nat, B: seq<Item>, ib: nat, cmp: (Digest, Digest) -> int, descend: bool)
    requires Total(cmp) && Listing(A) && Listing(B) && ia < |A| && ib < |B| && Behind(A, ia, B[ib])
    requires Proper(A[ia]) && Proper(B[ib]) && CompareViews(ViewOf(A[ia]), ViewOf(B[ib]), cmp) == 0
    requires descend == (It.HashAt(A[ia]) == ZeroHash)
    ensures Shaped(A[ia].t) && Shaped(B[ib].t) && Span(A, ia, descend) > 0 && Span(B, ib, descend) > 0
    ensures var na, nb := ia + Span(A, ia, descend), ib + Span(B, ib, descend);
            && Common(A, B, ib - 1, nb) && (nb >= |B| ==> Common(A, B, ib - 1, |B|))
            && (nb < |B| ==> Behind(A, na, B[nb]) && (na >= |A| ==> Behind(A, |A|, B[nb])))
  {
    hide Listing, CompareViews, Less, Compare, Subtree, Total;
    ListingAt(A, ia);
    ListingAt(B, ib);
    EqualStep(A, ia, B, ib, cmp);
  }

  // ---- the iterator ----

  class DifferenceIterator {
    const a: It.NodeIterator
    const b: It.NodeIterator
    const cmp: (Digest, Digest) -> int
    var eof: bool
    var count: nat
    ghost const A: seq<Item>
    ghost const B: seq<Item>
    ghost var pa: nat  // nodes of a passed so far
    ghost var pb: int  // position in b

    ghost predicate Sound()
      reads this, a, b
    {
      && a != b && Total(cmp) && Listing(A) && Listing(B)
      && (if eof then pa == |A| else pa < |A| && On(a, A, pa))
      && -1 <= pb < |B| && Through(b, B, pb)
    }

    ghost predicate Valid()
      reads this, a, b
    {
      Sound() && Apart(A, pa, B, pb)
    }

    /** Within Next: b stands on a node, and all a has passed is behind it. */
    ghost predicate Aligned()
      reads this, a, b
    {
      Sound() && On(b, B, pb) && 0 <= pb && Behind(A, pa, B[pb])
    }

    constructor (a: It.NodeIterator, b: It.NodeIterator, cmp: (Digest, Digest) -> int, ghost A: seq<Item>, ghost B: seq<Item>)
      requires a != b && Total(cmp) && Through(a, A, -1) && Through(b, B, -1)
      modifies a
      ensures Valid() && this.a == a && this.b == b && this.A == A && this.B == B && pb == -1
    {
      this.a, this.b, this.cmp, this.A, this.B := a, b, cmp, A, B;
      eof, count, pa, pb := false, 0, 0, -1;
      new;
      OnListing(a, A, -1);
      OnListing(b, B, -1);
      var _ := Step(a, A, -1);
    }

    /** Advances past a node of a that comes before b's. */
    method AdvanceA()
      requires Aligned() && !eof
      requires !Less(B[pb].path, A[pa].path) && A[pa] != B[pb]
      modifies this, a
      ensures Aligned() && pa == old(pa) + 1 && pb == old(pb)
    {
      hide Through;
      hide Listing;
      var ok := Step(a, A, pa);
      if ok {
        count := count + 1;
      } else {
        eof := true;
      }
      pa := pa + 1;
    }

    /** Passes equal nodes on both sides, with their subtrees if they have a hash. */
    method PassBoth(descend: bool) returns (ok: bool)
      requires Aligned() && !eof && Proper(A[pa]) && Proper(B[pb])
      requires CompareViews(ViewOf(A[pa]), ViewOf(B[pb]), cmp) == 0
      requires descend == (It.HashAt(A[pa]) == ZeroHash)
      modifies this, a, b
      ensures ok ==> Aligned() && pa > old(pa) && pb > old(pb) && Common(A, B, old(pb) - 1, pb)
      ensures !ok ==> Common(A, B, old(pb) - 1, |B|)
    {
      hide On, Through, Listing, CompareViews, Visit, Behind, Span, Proper, Subtree, Total, Common, Shaped;
      EqualNodes(A, pa, B, pb, cmp, descend);
      ghost var na, nb := pa + Span(A, pa, descend), pb + Span(B, pb, descend);
      ok := Pass(b, descend, B, pb);
      if !ok {
        return;
      }
      count := count + 1;
      var okA := Pass(a, descend, A, pa);
      if okA {
        count := count + 1;
      } else {
        eof := true;
      }
      pa, pb := if okA then na else |A|, nb;
    }

    /** Moves onto the next node of b that is not also a node of a. */
    method Next() returns (ok: bool)
      requires Valid()
      modifies this, a, b
      ensures ok ==> Valid() && On(b, B, pb) && pb > old(pb) && Common(A, B, old(pb), pb) && (B[pb].t.Val? ==> B[pb] !in A)
      ensures !ok ==> Common(A, B, old(pb), |B|)
    {
      hide On;
      hide Through;
      hide Listing;
      ok := Step(b, B, pb);
      if !ok {
        return;
      }
      count := count + 1;
      ApartBehind(A, pa, B, pb, pb + 1);
      pb := pb + 1;
      while !eof
        invariant Aligned() && pb > old(pb) && Common(A, B, old(pb), pb)
        decreases |A| - pa, |B| - pb, !eof
      {
        var va := Look(a, A, pa);
        var vb := Look(b, B, pb);
        var c := CompareViews(va, vb, cmp);
        ComparedUnequal(A[pa], B[pb], cmp);
        if c < 0 {
          AdvanceA();
        } else if c > 0 {
          Emit();
          return true;
        } else {
          ok := PassBoth(va.hash == ZeroHash);
          if !ok {
            return;
          }
        }
      }
      ListingAt(B, pb);
      BehindApart(A, pa, B, pb);
    }

    lemma {:induction false} Emit()
      requires Aligned() && !eof && Proper(A[pa]) && Proper(B[pb])
      requires CompareViews(ViewOf(A[pa]), ViewOf(B[pb]), cmp) > 0
      ensures Valid() && (B[pb].t.Val? ==> B[pb] !in A)
    {
      hide On;
      hide Through;
      hide Listing;
      ListingAt(A, pa);
      ListingAt(B, pb);
      AheadNotIn(A, pa, B[pb], cmp);
      BehindApart(A, pa, B, pb);
    }
  }

  // ---- a whole difference iteration ----

  /** The leaves among items that are not in A. */
  ghost function NewLeaves(items: seq<Item>, A: seq<Item>): seq<Item> {
    if items == [] then []
    else
      var last := items[|items| - 1];
      NewLeaves(items[..|items| - 1], A) + if last.t.Val? && last !in A then [last] else []
  }

  lemma {:induction false} NewLeavesSkip(B: seq<Item>, A: seq<Item>, lo: nat, hi: nat)
    requires lo <= hi <= |B| && Common(A, B, lo - 1, hi)
    ensures NewLeaves(B[..hi], A) == NewLeaves(B[..lo], A)
    decreases hi
  {
    if lo < hi {
      assert B[..hi][..hi - 1] == B[..hi - 1];
      NewLeavesSkip(B, A, lo, hi - 1);
    }
  }

  lemma {:induction false} NewLeavesNext(B: seq<Item>, A: seq<Item>, i: nat)
    requires i < |B|
    ensures NewLeaves(B[..i + 1], A) == NewLeaves(B[..i], A) + if B[i].t.Val? && B[i] !in A then [B[i]] else []
  {
    assert B[..i + 1][..i] == B[..i];
  }

  lemma {:induction false} NewLeavesMembers(items: seq<Item>, A: seq<Item>, x: Item)
    ensures x in NewLeaves(items, A) <==> x in items && x.t.Val? && x !in A
  {
    if items != [] {
      NewLeavesMembers(items[..|items| - 1], A, x);
      assert items == items[..|items| - 1] + [items[|items| - 1]];
    }
  }

  lemma {:induction false} NewLeavesAscending(items: seq<Item>, A: seq<Item>)
    requires Ascending(items)
    ensures Ascending(NewLeaves(items, A))
  {
    if items != [] {
      var init, last := items[..|items| - 1], items[|items| - 1];
      NewLeavesAscending(init, A);
      if last.t.Val? && last !in A {
        forall x | x in NewLeaves(init, A) ensures Less(x.path, last.path) {
          NewLeavesMembers(init, A, x);
        }
        AscendingCat(NewLeaves(init, A), [last]);
      }
    }
  }

  /** out lists, once each and in increasing order of paths, the entries of tb that ta does not have. */
  ghost predicate IsDifference(ta: Tree, tb: Tree, out: seq<Item>) {
    && Ascending(out)
    && (forall x | x in out :: x.t.Val?)
    && (forall k, v :: Item(k, Val(v)) in out <==> Lookup(tb, k) == Some(v) && Lookup(ta, k) != Some(v))
  }

  lemma {:induction false} NewLeavesDifference(ta: Tree, tb: Tree)
    requires Shaped(ta) && Shaped(tb)
    ensures IsDifference(ta, tb, NewLeaves(Visit([], tb), Visit([], ta)))
  {
    var A, B := Visit([], ta), Visit([], tb);
    VisitAscending([], tb);
    NewLeavesAscending(B, A);
    forall x ensures x in NewLeaves(B, A) <==> x in B && x.t.Val? && x !in A {
      NewLeavesMembers(B, A, x);
    }
    forall k, v ensures Item(k, Val(v)) in B <==> Lookup(tb, k) == Some(v) {
      LeavesAreEntries([], tb, k, v);
      assert [] + k == k;
    }
    forall k, v ensures Item(k, Val(v)) in A <==> Lookup(ta, k) == Some(v) {
      LeavesAreEntries([], ta, k, v);
      assert [] + k == k;
    }
  }

  /** Takes the difference iterator to its end, keeping the leaves it meets. */
  method CollectNew(d: DifferenceIterator) returns (out: seq<Item>)
    requires d.Valid() && d.pb == -1
    modifies d, d.a, d.b
    ensures out == NewLeaves(d.B, d.A)
  {
    hide Through;
    hide Listing;
    hide Apart;
    out := [];
    var more := true;
    while more
      invariant more ==> -1 <= d.pb < |d.B| && d.Valid()
      invariant out == NewLeaves(if more then d.B[..d.pb + 1] else d.B, d.A)
      decreases more, if more then |d.B| - d.pb else 0
    {
      more, out := NextNew(d, out);
    }
  }

  method NextNew(d: DifferenceIterator, out: seq<Item>) returns (more: bool, out': seq<Item>)
    requires -1 <= d.pb < |d.B| && d.Valid() && out == NewLeaves(d.B[..d.pb + 1], d.A)
    modifies d, d.a, d.b
    ensures more ==> old(d.pb) < d.pb < |d.B| && d.Valid()
    ensures out' == NewLeaves(if more then d.B[..d.pb + 1] else d.B, d.A)
  {
    hide Through, Listing, Apart, NewLeaves;
    ghost var lo := d.pb + 1;
    out' := out;
    more := d.Next();
    if more {
      NewLeavesSkip(d.B, d.A, lo, d.pb);
      NewLeavesNext(d.B, d.A, d.pb);
      var v := Look(d.b, d.B, d.pb);
      if HasTerm(v.path) {
        out' := out + [Item(v.path, Val(v.blob))];
      }
    } else {
      NewLeavesSkip(d.B, d.A, lo, |d.B|);
      assert d.B[..|d.B|] == d.B;
    }
  }

  /** For any two tries over their databases: exactly b's entries that are not in a. */
  method Differences(a: It.NodeIterator, b: It.NodeIterator, cmp: (Digest, Digest) -> int) returns (out: seq<Item>)
    requires a != b && a.Valid() && b.Valid() && a.Fresh() && b.Fresh() && a.status.Running? && b.status.Running?
    requires Backed(a.root, a.db) && Backed(b.root, b.db) && Total(cmp)
    modifies a, b
    ensures IsDifference(Expand(a.root), Expand(b.root), out)
  {
    var d := new DifferenceIterator(a, b, cmp, a.Items(), b.Items());
    ghost var A, B := d.A, d.B;
    out := CollectNew(d);
    NewLeavesDifference(Expand(a.root), Expand(b.root));
  }
}

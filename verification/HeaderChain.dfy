/** The chain of headers: the index from numbers to hashes follows the header with the greatest number. */
module HeaderChain {
  import opened Options
  import opened ChainData

  datatype WriteStatus = Canon | Side

  /** While the index is rewritten down from the parent p of a new header: above number k it follows p,
      up to k it still follows the old head. */
  ghost predicate Rewritten(canon: map<nat, Hash>, prev: Header, p: Header, genesis: Header, k: nat)
    requires Descends(prev, genesis) && Descends(p, genesis) && genesis.number == 0 && k <= p.number
  {
    && (forall n: nat :: n in canon <==> n <= prev.number || k < n <= p.number)
    && (forall n: nat :: n <= k && n <= prev.number ==> canon[n] == HashOf(Ancestor(prev, genesis, n)))
    && (forall n: nat :: k < n <= p.number ==> canon[n] == HashOf(Ancestor(p, genesis, n)))
  }

  lemma {:induction false} RewrittenStart(canon: map<nat, Hash>, prev: Header, p: Header, genesis: Header)
    requires IsChain(canon, prev, genesis) && Descends(p, genesis) && genesis.number == 0
    ensures Rewritten(canon, prev, p, genesis, p.number)
  {
    forall n: nat ensures n in canon <==> n <= prev.number {
      ChainAt(prev, genesis, n);
    }
    forall n: nat | n <= prev.number ensures canon[n] == HashOf(Ancestor(prev, genesis, n)) {
      ChainAt(prev, genesis, n);
    }
  }

  lemma {:induction false} RewrittenNext(canon: map<nat, Hash>, prev: Header, p: Header, genesis: Header, k: nat)
    requires Descends(prev, genesis) && Descends(p, genesis) && genesis.number == 0 && 0 < k <= p.number
    requires Rewritten(canon, prev, p, genesis, k)
    ensures Rewritten(canon[k := HashOf(Ancestor(p, genesis, k))], prev, p, genesis, k - 1)
  {
  }

  /** When the chains meet at k, the whole index follows p. */
  lemma {:induction false} RewrittenDone(canon: map<nat, Hash>, prev: Header, p: Header, genesis: Header, k: nat, h: Header)
    requires Descends(prev, genesis) && Descends(p, genesis) && genesis.number == 0 && k <= p.number
    requires Rewritten(canon, prev, p, genesis, k) && k in canon && canon[k] == HashOf(Ancestor(p, genesis, k))
    requires h.parent == HashOf(p) && h.number == p.number + 1 > prev.number && h != genesis
    ensures IsChain(canon[h.number := HashOf(h)], h, genesis)
  {
    var canon' := canon[h.number := HashOf(h)];
    assert Descends(h, genesis);
    forall n | n in canon' ensures canon'[n] == HashOf(Ancestor(h, genesis, n)) {
      if n <= k {
        AncestorPrefix(p, genesis, k, n);
        AncestorPrefix(prev, genesis, k, n);
      }
    }
    ChainUnique(canon', h, genesis);
  }

  lemma {:induction false} TopAncestor(h: Header, genesis: Header)
    requires Descends(h, genesis) && genesis.number <= h.number
    ensures Ancestor(h, genesis, h.number) == h
  {
  }

  lemma {:induction false} Bottom(h: Header, genesis: Header)
    requires Descends(h, genesis) && genesis.number == 0
    ensures Ancestor(h, genesis, 0) == genesis
  {
    AncestorDescends(h, genesis, 0);
    NotBelow(Ancestor(h, genesis, 0), genesis);
  }

  /** At the genesis the chains meet at the latest. */
  lemma {:induction false} MeetAbove(canon: map<nat, Hash>, prev: Header, p: Header, genesis: Header, k: nat)
    requires Descends(prev, genesis) && Descends(p, genesis) && genesis.number == 0 && k <= p.number
    requires Rewritten(canon, prev, p, genesis, k)
    requires k !in canon || canon[k] != HashOf(Ancestor(p, genesis, k))
    ensures k > 0
  {
    Bottom(p, genesis);
    Bottom(prev, genesis);
  }

  /** The parent of an ancestor is the ancestor one lower. */
  lemma {:induction false} AncestorParent(p: Header, genesis: Header, k: nat)
    requires Descends(p, genesis) && genesis.number == 0 && 0 < k <= p.number
    ensures var x := Ancestor(p, genesis, k);
            x != genesis && x.number == k && x.parent == HashOf(Ancestor(p, genesis, k - 1))
    decreases p
  {
    AncestorDescends(p, genesis, k);
    if k == p.number {
      NotBelow(p, genesis);
    } else {
      NotBelow(p.parent.header, genesis);
      AncestorParent(p.parent.header, genesis, k);
    }
  }

  /** Every header that is stored descends from the genesis through headers that are stored. */
  ghost predicate Closed(headers: map<Hash, Header>, genesis: Header) {
    forall h | h in headers ::
      h == HashOf(headers[h]) && Descends(headers[h], genesis) && (headers[h] != genesis ==> headers[h].parent in headers)
  }

  lemma {:induction false} AncestorStored(headers: map<Hash, Header>, genesis: Header, p: Header, k: nat)
    requires Closed(headers, genesis) && HashOf(p) in headers && genesis.number == 0 && k <= p.number && Descends(p, genesis)
    ensures var x := Ancestor(p, genesis, k); HashOf(x) in headers && headers[HashOf(x)] == x && x.number == k
    decreases p
  {
    AncestorDescends(p, genesis, k);
    if k != p.number && p != genesis {
      NotBelow(p.parent.header, genesis);
      AncestorStored(headers, genesis, p.parent.header, k);
    }
  }

  /** The headers above number k on the chain of c are gone, and no others. */
  ghost predicate Trimmed(before: map<Hash, Header>, after: map<Hash, Header>, c: Header, genesis: Header, k: nat)
    requires Descends(c, genesis) && genesis.number == 0 && k <= c.number
  {
    && (forall h | h in after :: h in before && after[h] == before[h])
    && (forall h | h in before :: h in after <==> !Above(h, c, genesis, k))
  }

  ghost predicate Above(h: Hash, c: Header, genesis: Header, k: nat)
    requires Descends(c, genesis) && genesis.number == 0
  {
    h.HashOf? && k < h.header.number <= c.number && h.header == Ancestor(c, genesis, h.header.number)
  }

  /** No stored header that stays stands on one that goes: all side branches leave the chain of c at number k or below. */
  ghost predicate NoneStrands(headers: map<Hash, Header>, c: Header, genesis: Header, k: nat)
    requires Descends(c, genesis) && genesis.number == 0
  {
    forall h | h in headers && headers[h] != genesis && Above(headers[h].parent, c, genesis, k) :: Above(h, c, genesis, k)
  }

  lemma {:induction false} TrimmedNone(headers: map<Hash, Header>, c: Header, genesis: Header)
    requires Descends(c, genesis) && genesis.number == 0
    ensures Trimmed(headers, headers, c, genesis, c.number)
  {
  }

  lemma {:induction false} TrimmedNext(before: map<Hash, Header>, after: map<Hash, Header>, c: Header, genesis: Header, k: nat)
    requires Descends(c, genesis) && genesis.number == 0 && 0 < k <= c.number && Trimmed(before, after, c, genesis, k)
    requires Closed(before, genesis) && HashOf(c) in before
    ensures Ancestor(c, genesis, k).number == k
    ensures Trimmed(before, after - {HashOf(Ancestor(c, genesis, k))}, c, genesis, k - 1)
    ensures var x := Ancestor(c, genesis, k - 1);
            && x.number == k - 1 && HashOf(x) in after - {HashOf(Ancestor(c, genesis, k))} && after[HashOf(x)] == x
  {
    hide Ancestor, Descends, Closed;
    AncestorStored(before, genesis, c, k);
    AncestorStored(before, genesis, c, k - 1);
    var gone, x := HashOf(Ancestor(c, genesis, k)), HashOf(Ancestor(c, genesis, k - 1));
    assert !Above(x, c, genesis, k);
    forall h | h in before ensures h in after - {gone} <==> !Above(h, c, genesis, k - 1) {
      assert h in after <==> !Above(h, c, genesis, k);
    }
  }

  lemma {:induction false} TrimmedKeeps(before: map<Hash, Header>, after: map<Hash, Header>, c: Header, genesis: Header, k: nat)
    requires Descends(c, genesis) && genesis.number == 0 && k <= c.number && Trimmed(before, after, c, genesis, k)
    requires Closed(before, genesis) && HashOf(c) in before && HashOf(genesis) in before
    ensures HashOf(genesis) in after && HashOf(Ancestor(c, genesis, k)) in after
    ensures Closed(after, genesis) <==> NoneStrands(before, c, genesis, k)
  {
    AncestorStored(before, genesis, c, k);
    assert !Above(HashOf(genesis), c, genesis, k);
    assert !Above(HashOf(Ancestor(c, genesis, k)), c, genesis, k);
  }

  class HeaderChain {
    const genesis: Header
    var headers: map<Hash, Header>
    var canon: map<nat, Hash>
    var current: Header

    ghost predicate Valid()
      reads this
    {
      && genesis.number == 0 && HashOf(genesis) in headers && HashOf(current) in headers
      && Closed(headers, genesis) && IsChain(canon, current, genesis)
    }

    constructor (genesis: Header)
      requires genesis.number == 0
      ensures Valid() && this.genesis == genesis && current == genesis && headers == map[HashOf(genesis) := genesis]
    {
      this.genesis, current := genesis, genesis;
      headers, canon := map[HashOf(genesis) := genesis], map[0 := HashOf(genesis)];
    }

    /** Headers are kept under number and hash together. */
    function GetHeader(hash: Hash, number: nat): Option<Header>
      reads this`headers
    {
      if hash in headers && headers[hash].number == number then Some(headers[hash]) else None
    }

    /** The parent of h is stored, one number below. */
    ghost predicate Follows(h: Header)
      reads this
    {
      h.parent in headers && headers[h.parent].number + 1 == h.number
    }

    /** The index is rewritten from the parent of a new head down to where the chains meet. */
    method Rewrite(header: Header)
      requires Valid() && Follows(header) && header.number > current.number
      modifies this`canon
      ensures IsChain(canon[header.number := HashOf(header)], header, genesis)
    {
      hide Rewritten, Chain, Ancestor, Descends;
      ghost var p := headers[header.parent];
      AncestorStored(headers, genesis, p, p.number);
      TopAncestor(p, genesis);
      var headHash: Hash, headNumber: nat := header.parent, header.number - 1;
      var headHeader := GetHeader(headHash, headNumber);
      RewrittenStart(canon, current, p, genesis);
      while headNumber !in canon || canon[headNumber] != headHash
        invariant headNumber <= p.number && Rewritten(canon, current, p, genesis, headNumber)
        invariant headHeader == Some(Ancestor(p, genesis, headNumber)) && headHash == HashOf(headHeader.value)
        decreases headNumber
      {
        MeetAbove(canon, current, p, genesis, headNumber);
        RewrittenNext(canon, current, p, genesis, headNumber);
        AncestorParent(p, genesis, headNumber);
        AncestorStored(headers, genesis, p, headNumber - 1);
        canon := canon[headNumber := headHash];
        headHash := headHeader.value.parent;
        headNumber := headHeader.value.number - 1;
        headHeader := GetHeader(headHash, headNumber);
      }
      RewrittenDone(canon, current, p, genesis, headNumber, header);
    }

    method WriteHeader(header: Header) returns (status: WriteStatus)
      requires Valid() && (header == genesis || Follows(header))
      modifies this
      ensures Valid() && headers == old(headers)[HashOf(header) := header]
      ensures status == if header.number > old(current).number then Canon else Side
      ensures current == if status == Canon then header else old(current)
      ensures status == Side ==> canon == old(canon)
    {
      if header.number > current.number {
        Rewrite(header);
        headers := headers[HashOf(header) := header];
        canon := canon[header.number := HashOf(header)];
        current := header;
        status := Canon;
      } else {
        headers := headers[HashOf(header) := header];
        status := Side;
      }
    }

    /** Delete the current header and step to its parent. */
    method Drop(ghost before: map<Hash, Header>, ghost c: Header)
      requires genesis.number == 0 && Closed(before, genesis) && HashOf(c) in before && Descends(c, genesis)
      requires 0 < current.number <= c.number && current == Ancestor(c, genesis, current.number)
      requires Trimmed(before, headers, c, genesis, current.number)
      modifies this`headers, this`current
      ensures current.number == old(current).number - 1 && current == Ancestor(c, genesis, current.number)
      ensures Trimmed(before, headers, c, genesis, current.number)
    {
      hide Ancestor, Descends, Trimmed, Closed;
      AncestorParent(c, genesis, current.number);
      TrimmedNext(before, headers, c, genesis, current.number);
      headers := headers - {HashOf(current)};
      var parent := GetHeader(current.parent, current.number - 1);
      current := parent.value;
    }

    /** Delete headers down to number head. */
    method Rewind(head: nat)
      requires Valid()
      modifies this`headers, this`current
      ensures var k := if head < old(current).number then head else old(current).number;
              && current == Ancestor(old(current), genesis, k)
              && Trimmed(old(headers), headers, old(current), genesis, k)
    {
      hide Ancestor, Descends, Trimmed;
      ghost var c := current;
      TopAncestor(c, genesis);
      TrimmedNone(headers, c, genesis);
      while current.number > head
        invariant current.number <= c.number && (head <= c.number ==> head <= current.number)
        invariant current == Ancestor(c, genesis, current.number) && (head > c.number ==> current == c)
        invariant Trimmed(old(headers), headers, c, genesis, current.number)
        decreases current.number
      {
        Drop(old(headers), c);
      }
    }

    /** Take the numbers above head out of the index. */
    method Unindex(ghost c: Header, head: nat, height: nat)
      requires genesis.number == 0 && IsChain(canon, c, genesis) && height == c.number
      modifies this`canon
      ensures var k := if head < height then head else height; IsChain(canon, Ancestor(c, genesis, k), genesis)
    {
      var i := height;
      forall n: nat ensures n in canon <==> n <= height {
        ChainAt(c, genesis, n);
      }
      ghost var all := canon;
      while i > head
        invariant i <= height && (head <= height ==> head <= i) && (head > height ==> i == height)
        invariant forall n: nat :: n in canon <==> n <= i
        invariant forall n: nat | n in canon :: canon[n] == all[n]
      {
        canon := canon - {i};
        i := i - 1;
      }
      AncestorDescends(c, genesis, i);
      forall n | n in canon ensures canon[n] == HashOf(Ancestor(Ancestor(c, genesis, i), genesis, n)) {
        ChainAt(c, genesis, n);
        AncestorPrefix(c, genesis, i, n);
      }
      ChainUnique(canon, Ancestor(c, genesis, i), genesis);
    }

    /** Rewind to number head. The index then is the chain of the new head. The header store stays closed
        unless some other header stood on one that went. */
    method SetHead(head: nat)
      requires Valid()
      modifies this
      ensures var k := if head < old(current).number then head else old(current).number;
              && current == Ancestor(old(current), genesis, k) && IsChain(canon, current, genesis)
              && Trimmed(old(headers), headers, old(current), genesis, k)
      ensures Valid() <==> NoneStrands(old(headers), old(current), genesis, if head < old(current).number then head else old(current).number)
    {
      hide Ancestor, Descends, Chain, Trimmed, NoneStrands;
      ghost var c := current;
      var height := current.number;
      Rewind(head);
      Unindex(c, head, height);
      TrimmedKeeps(old(headers), headers, c, genesis, if head < height then head else height);
    }
  }

  lemma {:induction false} Stranded(before: map<Hash, Header>, after: map<Hash, Header>, b: Header, genesis: Header, a: Header, x: Header)
    requires genesis.number == 0 && a == Header(HashOf(genesis), 1, []) && b == Header(HashOf(a), 2, []) && x.parent == HashOf(a) && x.number == 2 && x != b
    requires Descends(b, genesis) && Trimmed(before, after, b, genesis, 0) && HashOf(x) in before && HashOf(a) in before
    ensures HashOf(x) in after && HashOf(a) !in after && !Closed(after, genesis)
  {
    assert Ancestor(b, genesis, 1) == a && Ancestor(b, genesis, 2) == b;
    assert Above(HashOf(a), b, genesis, 0) && !Above(HashOf(x), b, genesis, 0);
  }

  /** Two headers on one, one of them the head: rewinding below both leaves the other without its parent. */
  method Orphan() returns (hc: HeaderChain, x: Header)
    ensures HashOf(x) in hc.headers && x != hc.genesis && x.parent !in hc.headers && !hc.Valid()
  {
    var genesis := Header(NoHash, 0, []);
    var a := Header(HashOf(genesis), 1, []);
    var b := Header(HashOf(a), 2, []);
    assert Descends(a, genesis) && Descends(b, genesis);
    hide Trimmed, IsChain, Chain, Ancestor, NoneStrands, Closed, Descends;
    x := Header(HashOf(a), 2, [7]);
    hc := new HeaderChain(genesis);
    var _ := hc.WriteHeader(a);
    var _ := hc.WriteHeader(b);
    var _ := hc.WriteHeader(x);
    ghost var before := hc.headers;
    hc.SetHead(0);
    Stranded(before, hc.headers, b, genesis, a, x);
  }
}

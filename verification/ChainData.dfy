/** Blocks linked by hash, and the index from numbers to hashes that a chain gives. */
module ChainData {
  type Tx = nat

  /** The hash of a header determines the header: its parent, its number and the transactions it commits to. */
  datatype Hash = NoHash | HashOf(header: Header)

  datatype Header = Header(parent: Hash, number: nat, txs: seq<Tx>)

  ghost predicate Descends(h: Header, genesis: Header)
    decreases h
  {
    h == genesis || (h.parent.HashOf? && h.number == h.parent.header.number + 1 && Descends(h.parent.header, genesis))
  }

  /** The number-to-hash index of the chain that ends in h. */
  ghost function Chain(h: Header, genesis: Header): map<nat, Hash>
    requires Descends(h, genesis)
    decreases h
  {
    if h == genesis then map[h.number := HashOf(h)]
    else Chain(h.parent.header, genesis)[h.number := HashOf(h)]
  }

  ghost function Ancestor(h: Header, genesis: Header, n: nat): Header
    requires Descends(h, genesis) && genesis.number <= n <= h.number
    decreases h
  {
    if n == h.number || h == genesis then h else Ancestor(h.parent.header, genesis, n)
  }

  lemma {:induction false} NotBelow(h: Header, genesis: Header)
    requires Descends(h, genesis)
    ensures h.number >= genesis.number && (h.number == genesis.number ==> h == genesis)
    decreases h
  {
    if h != genesis {
      NotBelow(h.parent.header, genesis);
    }
  }

  lemma {:induction false} ChainAt(h: Header, genesis: Header, n: nat)
    requires Descends(h, genesis)
    ensures n in Chain(h, genesis) <==> genesis.number <= n <= h.number
    ensures n in Chain(h, genesis) ==> h.number >= genesis.number && Chain(h, genesis)[n] == HashOf(Ancestor(h, genesis, n))
    decreases h
  {
    NotBelow(h, genesis);
    if h != genesis {
      ChainAt(h.parent.header, genesis, n);
    }
  }

  lemma {:induction false} AncestorDescends(h: Header, genesis: Header, n: nat)
    requires Descends(h, genesis) && genesis.number <= n <= h.number
    ensures Descends(Ancestor(h, genesis, n), genesis) && Ancestor(h, genesis, n).number == n
    decreases h
  {
    NotBelow(h, genesis);
    if n != h.number && h != genesis {
      NotBelow(h.parent.header, genesis);
      AncestorDescends(h.parent.header, genesis, n);
    }
  }

  /** Below a common block, two chains are the same. */
  lemma {:induction false} AncestorPrefix(h: Header, genesis: Header, n: nat, m: nat)
    requires Descends(h, genesis) && genesis.number <= m <= n <= h.number
    ensures Descends(Ancestor(h, genesis, n), genesis) && Ancestor(h, genesis, n).number == n
    ensures Ancestor(Ancestor(h, genesis, n), genesis, m) == Ancestor(h, genesis, m)
    decreases h
  {
    AncestorDescends(h, genesis, n);
    NotBelow(h, genesis);
    if n != h.number && h != genesis {
      NotBelow(h.parent.header, genesis);
      AncestorPrefix(h.parent.header, genesis, n, m);
    }
  }

  /** The index is exactly the ancestor chain of h. */
  ghost predicate IsChain(canon: map<nat, Hash>, h: Header, genesis: Header) {
    Descends(h, genesis) && canon == Chain(h, genesis)
  }

  /** An index that agrees with the chain of h number by number is that index. */
  lemma {:induction false} ChainUnique(canon: map<nat, Hash>, h: Header, genesis: Header)
    requires Descends(h, genesis)
    requires forall n :: n in canon <==> genesis.number <= n <= h.number
    requires forall n | n in canon :: canon[n] == HashOf(Ancestor(h, genesis, n))
    ensures IsChain(canon, h, genesis)
  {
    forall n: nat ensures n in canon <==> n in Chain(h, genesis) {
      ChainAt(h, genesis, n);
    }
    forall n | n in canon ensures canon[n] == Chain(h, genesis)[n] {
      ChainAt(h, genesis, n);
    }
  }

  lemma {:induction false} ChainExtends(canon: map<nat, Hash>, c: Header, b: Header, genesis: Header)
    requires IsChain(canon, c, genesis) && b.parent == HashOf(c) && b.number == c.number + 1 && b != genesis
    ensures IsChain(canon[b.number := HashOf(b)], b, genesis)
  {
  }
}

/** What writing a run of blocks does to the number index and to the transaction index. */
module ChainIndex {
  import opened ChainData

  datatype Entry = Entry(block: Hash, number: nat, index: nat)

  type Lookup = map<Tx, Entry>

  // ---- runs of blocks ----

  function Top(chain: seq<Header>, base: Header): Header {
    if chain == [] then base else chain[0]
  }

  /** Blocks from the newest to the oldest, the oldest standing on base. */
  ghost predicate Links(chain: seq<Header>, base: Header) {
    chain != [] ==>
      && chain[0].parent == HashOf(Top(chain[1..], base)) && chain[0].number == Top(chain[1..], base).number + 1
      && Links(chain[1..], base)
  }

  lemma {:induction false} LinksAppend(chain: seq<Header>, b: Header, x: Header)
    requires Links(chain, b) && b.parent == HashOf(x) && b.number == x.number + 1
    ensures Links(chain + [b], x) && Top(chain + [b], x) == Top(chain, b)
  {
    if chain == [] {
      assert [b][1..] == [];
    } else {
      LinksAppend(chain[1..], b, x);
      assert (chain + [b])[1..] == chain[1..] + [b];
    }
  }

  lemma {:induction false} LinksDescend(chain: seq<Header>, base: Header, genesis: Header)
    requires Links(chain, base) && Descends(base, genesis)
    ensures Descends(Top(chain, base), genesis) && Top(chain, base).number == base.number + |chain|
  {
    if chain != [] {
      LinksDescend(chain[1..], base, genesis);
    }
  }

  // ---- the number index ----

  function Numbered(canon: map<nat, Hash>, chain: seq<Header>): map<nat, Hash> {
    if chain == [] then canon else Numbered(canon, chain[1..])[chain[0].number := HashOf(chain[0])]
  }

  lemma {:induction false} NumberedChain(chain: seq<Header>, base: Header, genesis: Header)
    requires Links(chain, base) && Descends(base, genesis) && genesis.number == 0
    ensures Descends(Top(chain, base), genesis) && Numbered(Chain(base, genesis), chain) == Chain(Top(chain, base), genesis)
  {
    LinksDescend(chain, base, genesis);
    if chain != [] {
      NumberedChain(chain[1..], base, genesis);
      NotBelow(base, genesis);
    }
  }

  /** A run that reaches higher leaves nothing of what it passes. */
  lemma {:induction false} NumberedAt(canon: map<nat, Hash>, canon': map<nat, Hash>, chain: seq<Header>, base: Header, n: nat)
    requires Links(chain, base)
    ensures Top(chain, base).number == base.number + |chain|
    ensures n <= base.number || n > Top(chain, base).number ==>
              (n in Numbered(canon, chain) <==> n in canon) && (n in canon ==> Numbered(canon, chain)[n] == canon[n])
    ensures base.number < n <= Top(chain, base).number ==>
              n in Numbered(canon, chain) && n in Numbered(canon', chain) && Numbered(canon, chain)[n] == Numbered(canon', chain)[n]
  {
    if chain != [] {
      NumberedAt(canon, canon', chain[1..], base, n);
    }
  }

  /** From the chain of c, a run of blocks from a block of that chain to above c gives the chain of its top. */
  lemma {:induction false} NumberedOver(c: Header, chain: seq<Header>, base: Header, genesis: Header)
    requires Descends(c, genesis) && genesis.number == 0 && base.number <= c.number && base == Ancestor(c, genesis, base.number)
    requires Links(chain, base) && Top(chain, base).number > c.number
    ensures IsChain(Numbered(Chain(c, genesis), chain), Top(chain, base), genesis)
  {
    hide Numbered, Chain, Ancestor;
    AncestorDescends(c, genesis, base.number);
    NumberedChain(chain, base, genesis);
    var one, two := Numbered(Chain(c, genesis), chain), Numbered(Chain(base, genesis), chain);
    forall n: nat ensures (n in one <==> n in two) && (n in one ==> one[n] == two[n]) {
      NumberedAt(Chain(c, genesis), Chain(base, genesis), chain, base, n);
      NumberedAt(Chain(base, genesis), Chain(c, genesis), chain, base, n);
      ChainAt(c, genesis, n);
      ChainAt(base, genesis, n);
      if n <= base.number {
        AncestorPrefix(c, genesis, base.number, n);
      }
    }
    assert one == two;
  }

  // ---- the transaction index ----

  /** The entries of the first i transactions of b written over m. */
  function WithTxs(m: Lookup, b: Header, i: nat): Lookup
    requires i <= |b.txs|
  {
    if i == 0 then m else WithTxs(m, b, i - 1)[b.txs[i - 1] := Entry(HashOf(b), b.number, i - 1)]
  }

  function WithBlock(m: Lookup, b: Header): Lookup {
    WithTxs(m, b, |b.txs|)
  }

  /** Written from the oldest block of the run to the newest. */
  function WithChain(m: Lookup, chain: seq<Header>): Lookup {
    if chain == [] then m else WithBlock(WithChain(m, chain[1..]), chain[0])
  }

  /** The index of the whole chain that ends in b. */
  ghost function Index(b: Header, genesis: Header): Lookup
    requires Descends(b, genesis)
    decreases b
  {
    if b == genesis then WithBlock(map[], b) else WithBlock(Index(b.parent.header, genesis), b)
  }

  ghost predicate HasTx(chain: seq<Header>, tx: Tx) {
    exists i :: 0 <= i < |chain| && tx in chain[i].txs
  }

  lemma {:induction false} WithTxsAt(m: Lookup, m': Lookup, b: Header, i: nat, tx: Tx)
    requires i <= |b.txs|
    ensures tx in b.txs[..i] ==> tx in WithTxs(m, b, i) && tx in WithTxs(m', b, i) && WithTxs(m, b, i)[tx] == WithTxs(m', b, i)[tx]
    ensures tx !in b.txs[..i] ==> (tx in WithTxs(m, b, i) <==> tx in m) && (tx in m ==> WithTxs(m, b, i)[tx] == m[tx])
  {
    if i > 0 {
      WithTxsAt(m, m', b, i - 1, tx);
      assert b.txs[..i] == b.txs[..i - 1] + [b.txs[i - 1]];
    }
  }

  lemma {:induction false} WithChainAt(m: Lookup, m': Lookup, chain: seq<Header>, tx: Tx)
    ensures HasTx(chain, tx) ==>
              tx in WithChain(m, chain) && tx in WithChain(m', chain) && WithChain(m, chain)[tx] == WithChain(m', chain)[tx]
    ensures !HasTx(chain, tx) ==> (tx in WithChain(m, chain) <==> tx in m) && (tx in m ==> WithChain(m, chain)[tx] == m[tx])
  {
    if chain != [] {
      var b, rest := chain[0], chain[1..];
      WithChainAt(m, m', rest, tx);
      WithTxsAt(WithChain(m, rest), WithChain(m', rest), b, |b.txs|, tx);
      WithTxsAt(WithChain(m', rest), WithChain(m, rest), b, |b.txs|, tx);
      assert b.txs[..|b.txs|] == b.txs;
      HasTxFirst(chain, tx);
    }
  }

  lemma {:induction false} HasTxFirst(chain: seq<Header>, tx: Tx)
    requires chain != []
    ensures HasTx(chain, tx) <==> tx in chain[0].txs || HasTx(chain[1..], tx)
  {
    var rest := chain[1..];
    if HasTx(rest, tx) {
      var i :| 0 <= i < |rest| && tx in rest[i].txs;
      assert chain[i + 1] == rest[i];
    }
    if HasTx(chain, tx) {
      var i :| 0 <= i < |chain| && tx in chain[i].txs;
      assert i > 0 ==> rest[i - 1] == chain[i];
    }
  }

  lemma {:induction false} IndexChain(chain: seq<Header>, base: Header, genesis: Header)
    requires Links(chain, base) && Descends(base, genesis) && genesis.number == 0
    ensures Descends(Top(chain, base), genesis) && WithChain(Index(base, genesis), chain) == Index(Top(chain, base), genesis)
  {
    LinksDescend(chain, base, genesis);
    if chain != [] {
      IndexChain(chain[1..], base, genesis);
      NotBelow(base, genesis);
    }
  }

  /** No transaction occurs twice in the chain that ends in b. */
  ghost predicate NoRepeat(b: Header, genesis: Header)
    requires Descends(b, genesis)
    decreases b
  {
    && (forall i, j :: 0 <= i < j < |b.txs| ==> b.txs[i] != b.txs[j])
    && (b != genesis ==>
         && (forall tx | tx in b.txs :: tx !in Index(b.parent.header, genesis))
         && NoRepeat(b.parent.header, genesis))
  }

  /** A transaction of a run is not in the chain the run stands on. */
  lemma {:induction false} NoRepeatBase(chain: seq<Header>, base: Header, genesis: Header, tx: Tx)
    requires Links(chain, base) && Descends(base, genesis) && genesis.number == 0
    requires Descends(Top(chain, base), genesis) && NoRepeat(Top(chain, base), genesis) && HasTx(chain, tx)
    ensures tx !in Index(base, genesis)
  {
    LinksDescend(chain[1..], base, genesis);
    NotBelow(base, genesis);
    HasTxFirst(chain, tx);
    if HasTx(chain[1..], tx) {
      NoRepeatBase(chain[1..], base, genesis, tx);
    } else {
      IndexChain(chain[1..], base, genesis);
      WithChainAt(Index(base, genesis), Index(base, genesis), chain[1..], tx);
    }
  }

  /** No transaction that only the older run has is also below the runs. */
  ghost predicate NoneDoubled(older: seq<Header>, newer: seq<Header>, base: Header, genesis: Header)
    requires Descends(base, genesis)
  {
    forall tx | HasTx(older, tx) && !HasTx(newer, tx) :: tx !in Index(base, genesis)
  }

  /** Moving the index from one branch to another: the new branch is written over the old one, and what
      only the old one had is taken out. That is the index of the new branch exactly if nothing taken out
      also occurs below the fork. */
  lemma {:induction false} Switch(lookup: Lookup, older: seq<Header>, newer: seq<Header>, base: Header, genesis: Header)
    requires Links(older, base) && Links(newer, base) && Descends(base, genesis) && genesis.number == 0
    requires Descends(Top(older, base), genesis)
    requires forall tx :: tx in lookup <==> tx in WithChain(Index(Top(older, base), genesis), newer) && !(HasTx(older, tx) && !HasTx(newer, tx))
    requires forall tx | tx in lookup :: lookup[tx] == WithChain(Index(Top(older, base), genesis), newer)[tx]
    ensures Descends(Top(newer, base), genesis)
    ensures lookup == Index(Top(newer, base), genesis) <==> NoneDoubled(older, newer, base, genesis)
  {
    hide WithChain, Index;
    IndexChain(newer, base, genesis);
    IndexChain(older, base, genesis);
    var was, goal, below := Index(Top(older, base), genesis), Index(Top(newer, base), genesis), Index(base, genesis);
    forall tx
      ensures !(HasTx(older, tx) && !HasTx(newer, tx)) ==> (tx in lookup <==> tx in goal) && (tx in lookup ==> lookup[tx] == goal[tx])
      ensures HasTx(older, tx) && !HasTx(newer, tx) ==> tx !in lookup && (tx in goal <==> tx in below)
    {
      WithChainAt(was, below, newer, tx);
      WithChainAt(below, was, newer, tx);
      WithChainAt(below, was, older, tx);
    }
    if NoneDoubled(older, newer, base, genesis) {
      assert lookup == goal;
    }
  }

  lemma {:induction false} WithTxsPosition(m: Lookup, b: Header, k: nat, i: nat)
    requires i < k <= |b.txs| && forall i, j :: 0 <= i < j < |b.txs| ==> b.txs[i] != b.txs[j]
    ensures b.txs[i] in WithTxs(m, b, k) && WithTxs(m, b, k)[b.txs[i]] == Entry(HashOf(b), b.number, i)
  {
    if i < k - 1 {
      WithTxsPosition(m, b, k - 1, i);
    }
  }

  /** In a chain without repeats every transaction is indexed at its block and position. */
  lemma {:induction false} IndexHolds(b: Header, genesis: Header, n: nat, i: nat)
    requires Descends(b, genesis) && genesis.number == 0 && NoRepeat(b, genesis) && n <= b.number
    requires i < |Ancestor(b, genesis, n).txs|
    ensures var a := Ancestor(b, genesis, n);
            a.txs[i] in Index(b, genesis) && Index(b, genesis)[a.txs[i]] == Entry(HashOf(a), n, i)
    decreases b
  {
    NotBelow(b, genesis);
    if n == b.number || b == genesis {
      var m := if b == genesis then map[] else Index(b.parent.header, genesis);
      WithTxsPosition(m, b, |b.txs|, i);
    } else {
      var p := b.parent.header;
      NotBelow(p, genesis);
      IndexHolds(p, genesis, n, i);
      var tx := Ancestor(p, genesis, n).txs[i];
      WithTxsAt(Index(p, genesis), Index(p, genesis), b, |b.txs|, tx);
      assert b.txs[..|b.txs|] == b.txs;
    }
  }

  /** Nothing else is indexed. */
  lemma {:induction false} IndexOnly(b: Header, genesis: Header, tx: Tx) returns (n: nat)
    requires Descends(b, genesis) && genesis.number == 0 && tx in Index(b, genesis)
    ensures n <= b.number && tx in Ancestor(b, genesis, n).txs
    decreases b
  {
    NotBelow(b, genesis);
    n := b.number;
    var m := if b == genesis then map[] else Index(b.parent.header, genesis);
    WithTxsAt(m, m, b, |b.txs|, tx);
    assert b.txs[..|b.txs|] == b.txs;
    if tx !in b.txs {
      NotBelow(b.parent.header, genesis);
      n := IndexOnly(b.parent.header, genesis, tx);
    }
  }
}

/** The block chain: writing blocks, and moving to a longer branch. */
module BlockChain {
  import opened Options
  import opened ChainData
  import opened ChainIndex
  import opened HeaderChain

  ghost predicate Keyed(blocks: map<Hash, Header>) {
    forall h | h in blocks :: h == HashOf(blocks[h])
  }

  /** The whole chain that ends in b is stored. */
  ghost predicate Backed(blocks: map<Hash, Header>, b: Header, genesis: Header)
    requires Descends(b, genesis) && genesis.number == 0
  {
    forall n: nat | n <= b.number :: HashOf(Ancestor(b, genesis, n)) in blocks
  }

  /** b stands on stored blocks down to the genesis. */
  ghost predicate Rooted(blocks: map<Hash, Header>, b: Header, genesis: Header)
    requires genesis.number == 0
  {
    b.parent.HashOf? && b.number == b.parent.header.number + 1 && b != genesis && Descends(b.parent.header, genesis) && Backed(blocks, b.parent.header, genesis)
  }

  lemma {:induction false} StoredRooted(blocks: map<Hash, Header>, b: Header, genesis: Header)
    requires genesis.number == 0 && Descends(b, genesis) && b.number > 0
    requires forall n: nat | n < b.number :: HashOf(Ancestor(b, genesis, n)) in blocks
    ensures Rooted(blocks, b, genesis)
  {
    var p := b.parent.header;
    forall n: nat | n <= p.number ensures HashOf(Ancestor(p, genesis, n)) in blocks {
      assert Ancestor(b, genesis, n) == Ancestor(p, genesis, n);
    }
  }

  /** All blocks of a run but the first are stored. */
  ghost predicate TailStored(blocks: map<Hash, Header>, chain: seq<Header>) {
    forall i :: 0 < i < |chain| ==> HashOf(chain[i]) in blocks
  }

  function GetBlock(blocks: map<Hash, Header>, hash: Hash, number: int): Option<Header> {
    if hash in blocks && blocks[hash].number == number then Some(blocks[hash]) else None
  }

  /** The two branches down to where they meet. */
  datatype Fork = Fork(newer: seq<Header>, older: seq<Header>, common: Header)

  ghost predicate IsFork(f: Fork, oldBlock: Header, newBlock: Header, genesis: Header, blocks: map<Hash, Header>)
    requires Descends(oldBlock, genesis) && genesis.number == 0
  {
    && Links(f.newer, f.common) && Top(f.newer, f.common) == newBlock && f.newer != []
    && Links(f.older, f.common) && Top(f.older, f.common) == oldBlock
    && f.common.number <= oldBlock.number && f.common == Ancestor(oldBlock, genesis, f.common.number)
    && (f.older != [] ==> f.older[|f.older| - 1] != f.newer[|f.newer| - 1])
    && TailStored(blocks, f.newer)
  }

  /** Reduce the new branch to the height of the old one. */
  method Reduce(blocks: map<Hash, Header>, newBlock: Header, height: nat, ghost genesis: Header) returns (chain: seq<Header>, b: Option<Header>)
    requires Keyed(blocks) && newBlock.number > height && genesis.number == 0
    ensures b.Some? ==> Links(chain, b.value) && Top(chain, b.value) == newBlock && chain != [] && b.value.number == height
    ensures b.Some? ==> TailStored(blocks, chain) && HashOf(b.value) in blocks
    ensures Rooted(blocks, newBlock, genesis) ==> b.Some? && b.value == Ancestor(newBlock.parent.header, genesis, height)
  {
    chain := [newBlock];
    ghost var p := newBlock.parent;
    b := GetBlock(blocks, newBlock.parent, newBlock.number - 1);
    assert [newBlock][1..] == [];
    if Rooted(blocks, newBlock, genesis) {
      TopAncestor(p.header, genesis);
    }
    while b.Some? && b.value.number != height
      invariant b.Some? ==> Links(chain, b.value) && Top(chain, b.value) == newBlock && b.value.number >= height
      invariant b.Some? ==> HashOf(b.value) in blocks
      invariant chain != [] && TailStored(blocks, chain)
      invariant Rooted(blocks, newBlock, genesis) ==>
                  b.Some? && b.value.number <= p.header.number && b.value == Ancestor(p.header, genesis, b.value.number)
      decreases if b.Some? then b.value.number else 0
    {
      if Rooted(blocks, newBlock, genesis) {
        AncestorParent(p.header, genesis, b.value.number);
        AncestorDescends(p.header, genesis, b.value.number - 1);
      }
      var next := GetBlock(blocks, b.value.parent, b.value.number - 1);
      if next.Some? {
        LinksAppend(chain, b.value, next.value);
      }
      chain := chain + [b.value];
      b := next;
    }
  }

  /** Walk both branches down until they meet; a branch that ends before is refused. */
  method Meet(blocks: map<Hash, Header>, oldBlock: Header, newBlock: Header, ghost genesis: Header)
    returns (f: Option<Fork>, deleted: seq<Tx>)
    requires Keyed(blocks) && genesis.number == 0 && Descends(oldBlock, genesis) && Backed(blocks, oldBlock, genesis)
    requires newBlock.number > oldBlock.number
    ensures f.Some? ==> IsFork(f.value, oldBlock, newBlock, genesis, blocks)
    ensures f.Some? ==> forall tx :: tx in deleted <==> HasTx(f.value.older, tx)
    ensures Rooted(blocks, newBlock, genesis) ==> f.Some?
  {
    hide Links, Ancestor, Descends, Backed;
    var newer, reduced := Reduce(blocks, newBlock, oldBlock.number, genesis);
    deleted := [];
    if reduced.None? {
      return None, deleted;
    }
    var older, a, b := [], oldBlock, reduced.value;
    ghost var q := if Rooted(blocks, newBlock, genesis) then newBlock.parent.header else newBlock;
    LinksNone(a);
    TopAncestor(oldBlock, genesis);
    while a != b
      invariant a.number == b.number <= oldBlock.number && a == Ancestor(oldBlock, genesis, a.number)
      invariant Links(older, a) && Top(older, a) == oldBlock
      invariant Links(newer, b) && Top(newer, b) == newBlock && newer != []
      invariant TailStored(blocks, newer) && HashOf(b) in blocks
      invariant older != [] ==> older[|older| - 1] != newer[|newer| - 1]
      invariant forall tx :: tx in deleted <==> HasTx(older, tx)
      invariant Rooted(blocks, newBlock, genesis) ==> b.number <= q.number && b == Ancestor(q, genesis, b.number)
      decreases a.number
    {
      HasTxLast(older, a);
      deleted := deleted + a.txs;
      var x, y := GetBlock(blocks, a.parent, a.number - 1), GetBlock(blocks, b.parent, b.number - 1);
      if Rooted(blocks, newBlock, genesis) {
        Apart(blocks, oldBlock, q, a, b, genesis);
      }
      if x.None? || y.None? {
        return None, deleted;
      }
      assert a.number > 0;
      StoredParent(blocks, oldBlock, genesis, a.number);
      LinksAppend(older, a, x.value);
      LinksAppend(newer, b, y.value);
      older, newer := older + [a], newer + [b];
      a, b := x.value, y.value;
    }
    f := Some(Fork(newer, older, a));
  }

  lemma {:induction false} LinksNone(b: Header)
    ensures Links([], b) && Top([], b) == b
  {
  }

  lemma {:induction false} HasTxLast(chain: seq<Header>, b: Header)
    ensures forall tx :: HasTx(chain + [b], tx) <==> HasTx(chain, tx) || tx in b.txs
  {
    var longer := chain + [b];
    forall tx ensures HasTx(longer, tx) <==> HasTx(chain, tx) || tx in b.txs {
      if HasTx(chain, tx) {
        var i :| 0 <= i < |chain| && tx in chain[i].txs;
        assert longer[i] == chain[i];
      }
      if tx in b.txs {
        assert longer[|chain|] == b;
      }
    }
  }

  /** The parent of an ancestor of a stored chain is found. */
  lemma {:induction false} StoredParent(blocks: map<Hash, Header>, b: Header, genesis: Header, n: nat)
    requires Keyed(blocks) && genesis.number == 0 && Descends(b, genesis) && Backed(blocks, b, genesis) && 0 < n <= b.number
    ensures var a := Ancestor(b, genesis, n);
            a.number == n && GetBlock(blocks, a.parent, n - 1) == Some(Ancestor(b, genesis, n - 1))
            && a.parent == HashOf(Ancestor(b, genesis, n - 1)) && Ancestor(b, genesis, n - 1).number == n - 1
  {
    AncestorParent(b, genesis, n);
    AncestorDescends(b, genesis, n - 1);
  }

  /** Stored branches that differ are above the genesis and have parents. */
  lemma {:induction false} Apart(blocks: map<Hash, Header>, oldBlock: Header, q: Header, a: Header, b: Header, genesis: Header)
    requires Keyed(blocks) && genesis.number == 0 && Descends(oldBlock, genesis) && Backed(blocks, oldBlock, genesis)
    requires Descends(q, genesis) && Backed(blocks, q, genesis)
    requires a.number == b.number && a.number <= oldBlock.number && b.number <= q.number && a != b
    requires a == Ancestor(oldBlock, genesis, a.number) && b == Ancestor(q, genesis, b.number)
    ensures a.number > 0
    ensures GetBlock(blocks, a.parent, a.number - 1).Some?
    ensures GetBlock(blocks, b.parent, b.number - 1) == Some(Ancestor(q, genesis, b.number - 1))
    ensures Ancestor(q, genesis, b.number - 1).number == b.number - 1
  {
    Bottom(oldBlock, genesis);
    Bottom(q, genesis);
    StoredParent(blocks, oldBlock, genesis, a.number);
    StoredParent(blocks, q, genesis, b.number);
  }

  /** The transaction index after a move along fork f: what only the old branch had is gone, and if the index was
      exact, it is exact again exactly if nothing that is gone also occurs below the fork. */
  ghost predicate Moved(before: Lookup, after: Lookup, blocks: map<Hash, Header>, c: Header, f: Fork, b: Header, genesis: Header) {
    && genesis.number == 0 && Descends(c, genesis) && Descends(b, genesis) && Descends(f.common, genesis) && IsFork(f, c, b, genesis, blocks)
    && (forall tx | HasTx(f.older, tx) && !HasTx(f.newer, tx) :: tx !in after)
    && (before == Index(c, genesis) ==> (after == Index(b, genesis) <==> NoneDoubled(f.older, f.newer, f.common, genesis)))
  }

  /** In a chain without repeats nothing of a branch occurs below it. */
  lemma {:induction false} MovedIndexed(before: Lookup, after: Lookup, blocks: map<Hash, Header>, c: Header, f: Fork, b: Header, genesis: Header)
    requires Moved(before, after, blocks, c, f, b, genesis) && NoRepeat(c, genesis) && before == Index(c, genesis)
    ensures after == Index(b, genesis)
  {
    hide Index, NoRepeat, Links, Descends;
    forall tx | HasTx(f.older, tx) && !HasTx(f.newer, tx) ensures tx !in Index(f.common, genesis) {
      NoRepeatBase(f.older, f.common, genesis, tx);
    }
  }

  /** The entries of the newest block of a run are there after the run, and stay when others are taken out. */
  lemma {:induction false} Written(before: Lookup, after: Lookup, chain: seq<Header>)
    requires chain != []
    requires forall tx | tx in after :: tx in WithChain(before, chain) && after[tx] == WithChain(before, chain)[tx]
    requires forall tx | tx in WithChain(before, chain) && HasTx(chain, tx) :: tx in after
    ensures WithBlock(after, chain[0]) == after
  {
    var b, m := chain[0], WithChain(before, chain[1..]);
    assert b.txs[..|b.txs|] == b.txs;
    forall tx ensures (tx in WithBlock(after, b) <==> tx in after) && (tx in after ==> WithBlock(after, b)[tx] == after[tx]) {
      WithTxsAt(after, m, b, |b.txs|, tx);
      WithTxsAt(m, after, b, |b.txs|, tx);
      HasTxFirst(chain, tx);
    }
  }

  /** What moving along a fork gives. */
  lemma {:induction false} ForkOk(c: Header, f: Fork, newBlock: Header, genesis: Header, blocks: map<Hash, Header>, canon: map<nat, Hash>)
    requires genesis.number == 0 && IsChain(canon, c, genesis) && Backed(blocks, c, genesis) && newBlock.number > c.number
    requires IsFork(f, c, newBlock, genesis, blocks)
    ensures Descends(f.common, genesis) && IsChain(Numbered(canon, f.newer), newBlock, genesis)
    ensures newBlock.number !in Numbered(canon, f.newer[1..]) && f.newer[0] == newBlock
    ensures forall n: nat | n < newBlock.number :: HashOf(Ancestor(newBlock, genesis, n)) in blocks
  {
    hide Chain, Numbered, Ancestor, Descends;
    AncestorDescends(c, genesis, f.common.number);
    NumberedOver(c, f.newer, f.common, genesis);
    NumberedAt(canon, canon, f.newer[1..], f.common, newBlock.number);
    ChainAt(c, genesis, newBlock.number);
    forall n: nat | n < newBlock.number ensures HashOf(Ancestor(newBlock, genesis, n)) in blocks {
      RunStored(c, f.newer, f.common, genesis, blocks, n);
    }
  }

  lemma {:induction false} RunStored(c: Header, chain: seq<Header>, base: Header, genesis: Header, blocks: map<Hash, Header>, n: nat)
    requires genesis.number == 0 && Descends(c, genesis) && Backed(blocks, c, genesis)
    requires Links(chain, base) && base.number <= c.number && base == Ancestor(c, genesis, base.number)
    requires TailStored(blocks, chain) && chain != [] && n < chain[0].number
    ensures Descends(chain[0], genesis) && HashOf(Ancestor(chain[0], genesis, n)) in blocks
  {
    AncestorDescends(c, genesis, base.number);
    LinksDescend(chain, base, genesis);
    var rest := chain[1..];
    if rest == [] {
      AncestorPrefix(c, genesis, base.number, n);
    } else if n == rest[0].number {
      assert chain[1] == rest[0];
    } else {
      assert forall i :: 0 < i < |rest| ==> rest[i] == chain[i + 1];
      RunStored(c, rest, base, genesis, blocks, n);
    }
  }

  /** Writing the entries of a block a second time changes nothing. */
  lemma {:induction false} WithBlockTwice(m: Lookup, b: Header)
    ensures WithBlock(WithBlock(m, b), b) == WithBlock(m, b)
  {
    var once := WithBlock(m, b);
    forall tx ensures (tx in WithBlock(once, b) <==> tx in once) && (tx in once ==> WithBlock(once, b)[tx] == once[tx]) {
      WithTxsAt(m, once, b, |b.txs|, tx);
      WithTxsAt(once, m, b, |b.txs|, tx);
      assert b.txs[..|b.txs|] == b.txs;
    }
  }

  class BlockChain {
    const genesis: Header
    var blocks: map<Hash, Header>
    var canon: map<nat, Hash>
    var lookup: Lookup
    var currentBlock: Header
    var currentHeader: Header
    var currentFastBlock: Header

    ghost predicate Valid()
      reads this
    {
      && genesis.number == 0 && Keyed(blocks)
      && IsChain(canon, currentBlock, genesis) && Backed(blocks, currentBlock, genesis)
      && currentHeader == currentBlock && currentFastBlock == currentBlock
    }

    /** The transaction index holds exactly what the chain of the current block holds, and nothing repeats there. */
    ghost predicate Indexed()
      reads this
    {
      Descends(currentBlock, genesis) && NoRepeat(currentBlock, genesis) && lookup == Index(currentBlock, genesis)
    }

    constructor (genesis: Header)
      requires genesis.number == 0 && genesis.txs == []
      ensures Valid() && Indexed() && this.genesis == genesis && currentBlock == genesis && blocks == map[HashOf(genesis) := genesis]
    {
      this.genesis, currentBlock, currentHeader, currentFastBlock := genesis, genesis, genesis, genesis;
      blocks, canon, lookup := map[HashOf(genesis) := genesis], map[0 := HashOf(genesis)], map[];
    }

    method Insert(b: Header)
      modifies this`canon, this`currentBlock, this`currentHeader, this`currentFastBlock
      ensures canon == old(canon)[b.number := HashOf(b)] && currentBlock == b
      ensures var ahead := b.number !in old(canon) || old(canon)[b.number] != HashOf(b);
              && currentHeader == (if ahead then b else old(currentHeader))
              && currentFastBlock == if ahead then b else old(currentFastBlock)
    {
      var updateHeads := b.number !in canon || canon[b.number] != HashOf(b);
      canon := canon[b.number := HashOf(b)];
      currentBlock := b;
      if updateHeads {
        currentHeader := b;
        currentFastBlock := b;
      }
    }

    method WriteTxLookupEntries(b: Header)
      modifies this`lookup
      ensures lookup == WithBlock(old(lookup), b)
    {
      var i := 0;
      while i < |b.txs|
        invariant i <= |b.txs| && lookup == WithTxs(old(lookup), b, i)
      {
        lookup := lookup[b.txs[i] := Entry(HashOf(b), b.number, i)];
        i := i + 1;
      }
    }

    /** Insert the blocks of a run from the oldest to the newest. */
    method InsertAll(chain: seq<Header>) returns (added: seq<Tx>)
      requires chain != []
      modifies this`canon, this`lookup, this`currentBlock, this`currentHeader, this`currentFastBlock
      ensures canon == Numbered(old(canon), chain) && lookup == WithChain(old(lookup), chain) && currentBlock == chain[0]
      ensures chain[0].number !in Numbered(old(canon), chain[1..]) ==> currentHeader == chain[0] && currentFastBlock == chain[0]
      ensures forall tx :: tx in added <==> HasTx(chain, tx)
    {
      var i := |chain|;
      added := [];
      assert chain[i..] == [];
      while i > 0
        invariant 0 <= i <= |chain|
        invariant canon == Numbered(old(canon), chain[i..]) && lookup == WithChain(old(lookup), chain[i..])
        invariant i < |chain| ==> currentBlock == chain[i]
        invariant i == 0 && chain[0].number !in Numbered(old(canon), chain[1..]) ==> currentHeader == chain[0] && currentFastBlock == chain[0]
        invariant forall tx :: tx in added <==> HasTx(chain[i..], tx)
      {
        i := i - 1;
        assert chain[i..][0] == chain[i] && chain[i..][1..] == chain[i + 1..];
        Insert(chain[i]);
        WriteTxLookupEntries(chain[i]);
        forall tx ensures HasTx(chain[i..], tx) <==> tx in chain[i].txs || HasTx(chain[i + 1..], tx) {
          HasTxFirst(chain[i..], tx);
        }
        added := added + chain[i].txs;
      }
      assert chain[i..] == chain;
    }

    /** Take out of the index what was deleted and not added again. */
    method DeleteDifference(deleted: seq<Tx>, added: seq<Tx>)
      modifies this`lookup
      ensures forall tx :: tx in lookup <==> tx in old(lookup) && !(tx in deleted && tx !in added)
      ensures forall tx | tx in lookup :: lookup[tx] == old(lookup)[tx]
    {
      var i := 0;
      while i < |deleted|
        invariant 0 <= i <= |deleted|
        invariant forall tx :: tx in lookup <==> tx in old(lookup) && !(tx in deleted[..i] && tx !in added)
        invariant forall tx | tx in lookup :: lookup[tx] == old(lookup)[tx]
      {
        assert deleted[..i + 1] == deleted[..i] + [deleted[i]];
        if deleted[i] !in added {
          lookup := lookup - {deleted[i]};
        }
        i := i + 1;
      }
      assert deleted[..i] == deleted;
    }

    /** Move to the branch of newBlock, or refuse it if it does not lead to the chain we have. */
    method Reorg(newBlock: Header) returns (ok: bool, ghost f: Fork)
      requires Valid() && newBlock.number > currentBlock.number
      modifies this
      ensures ok <==> Rooted(old(blocks), newBlock, genesis)
      ensures !ok ==> unchanged(this)
      ensures ok ==> blocks == old(blocks) && IsChain(canon, newBlock, genesis) && currentBlock == newBlock
      ensures ok ==> newBlock.number > 0 && forall n: nat | n < newBlock.number :: HashOf(Ancestor(newBlock, genesis, n)) in blocks
      ensures ok ==> currentHeader == newBlock && currentFastBlock == newBlock
      ensures ok ==> Moved(old(lookup), lookup, old(blocks), old(currentBlock), f, newBlock, genesis) && WithBlock(lookup, newBlock) == lookup
    {
      hide Links, Ancestor, Descends, Backed, Chain, Index, NoRepeat, Numbered, WithChain;
      f := Fork([], [], genesis);
      var c := currentBlock;
      var found, deleted := Meet(blocks, c, newBlock, genesis);
      if found.None? {
        ok := false;
        return;
      }
      ok := true;
      var newer := found.value.newer;
      f := found.value;
      ForkOk(c, f, newBlock, genesis, blocks, canon);
      StoredRooted(blocks, newBlock, genesis);
      var added := InsertAll(newer);
      DeleteDifference(deleted, added);
      if old(lookup) == Index(c, genesis) {
        Switch(lookup, f.older, newer, f.common, genesis);
      }
      Written(old(lookup), lookup, newer);
    }

    /** Write a block: as the new head if its number is greater than that of the head, else to the side.
        None is a failed reorganisation, which leaves everything as it was. */
    method WriteBlockAndState(b: Header) returns (status: Option<WriteStatus>, ghost f: Fork)
      requires Valid() && (b.parent == HashOf(currentBlock) ==> b.number == currentBlock.number + 1)
      modifies this
      ensures Valid()
      ensures status == if b.number <= old(currentBlock).number then Some(Side)
                        else if b.parent == HashOf(old(currentBlock)) || Rooted(old(blocks), b, genesis) then Some(Canon)
                        else None
      ensures status == None ==> unchanged(this)
      ensures status == Some(Canon) ==> currentBlock == b
      ensures status == Some(Side) ==> canon == old(canon) && lookup == old(lookup) && currentBlock == old(currentBlock)
      ensures status.Some? ==> blocks == old(blocks)[HashOf(b) := b]
      ensures status == Some(Canon) && old(Indexed()) && NoRepeat(b, genesis) ==> Indexed()
      ensures b.parent == HashOf(old(currentBlock)) ==> lookup == WithBlock(old(lookup), b)
      ensures status == Some(Canon) && b.parent != HashOf(old(currentBlock)) ==>
                Moved(old(lookup), lookup, old(blocks), old(currentBlock), f, b, genesis)
    {
      hide Ancestor, Descends, Chain, Index, NoRepeat, Moved;
      f := Fork([], [], genesis);
      if b.number <= currentBlock.number {
        blocks := blocks[HashOf(b) := b];
        status := Some(Side);
        return;
      }
      if b.parent != HashOf(currentBlock) {
        var ok;
        ok, f := Reorg(b);
        if !ok {
          status := None;
          return;
        }
        MovedReady(b);
        if old(Indexed()) {
          MovedIndexed(old(lookup), lookup, old(blocks), old(currentBlock), f, b, genesis);
        }
      } else {
        ExtendedReady(b);
      }
      WriteHead(b);
      status := Some(Canon);
    }

    /** A block that extends the head. */
    lemma {:induction false} ExtendedReady(b: Header)
      requires Valid() && b.parent == HashOf(currentBlock) && b.number == currentBlock.number + 1
      ensures Ready(b) && (Indexed() ==> WithBlock(lookup, b) == Index(b, genesis))
    {
      ChainAt(currentBlock, genesis, b.number);
      ChainExtends(canon, currentBlock, b, genesis);
    }

    /** A block whose branch was moved to. */
    lemma {:induction false} MovedReady(b: Header)
      requires genesis.number == 0 && b.number > 0 && Keyed(blocks) && IsChain(canon, b, genesis)
      requires forall n: nat | n < b.number :: HashOf(Ancestor(b, genesis, n)) in blocks
      requires currentHeader == b && currentFastBlock == b
      ensures Ready(b) && (lookup == Index(b, genesis) ==> WithBlock(lookup, b) == Index(b, genesis))
    {
      ChainAt(b, genesis, b.number);
      TopAncestor(b, genesis);
      assert canon[b.number := HashOf(b)] == canon;
      WithBlockTwice(if b == genesis then map[] else Index(b.parent.header, genesis), b);
    }

    method WriteHead(b: Header)
      requires Ready(b)
      modifies this
      ensures Valid() && currentBlock == b && blocks == old(blocks)[HashOf(b) := b] && lookup == WithBlock(old(lookup), b)
    {
      hide Descends, Chain;
      WriteTxLookupEntries(b);
      blocks := blocks[HashOf(b) := b];
      Insert(b);
      TopAncestor(b, genesis);
    }

    /** What is true of block b as the next head, just before it is written. */
    ghost predicate Ready(b: Header)
      reads this
    {
      && genesis.number == 0 && b.number > 0 && Keyed(blocks) && Descends(b, genesis)
      && (forall n: nat | n < b.number :: HashOf(Ancestor(b, genesis, n)) in blocks)
      && IsChain(canon[b.number := HashOf(b)], b, genesis)
      && (b.number !in canon || (canon[b.number] == HashOf(b) && currentHeader == b && currentFastBlock == b))
    }
  }

  // ---- a repeated transaction ----

  /** Blocks o and n2 stand on b1, and n3 on n2. */
  ghost predicate Branches(genesis: Header, b1: Header, o: Header, n2: Header, n3: Header) {
    && genesis == Header(NoHash, 0, []) && b1 == Header(HashOf(genesis), 1, [7]) && o == Header(HashOf(b1), 2, [7])
    && n2 == Header(HashOf(b1), 2, []) && n3 == Header(HashOf(n2), 3, [])
  }

  lemma {:induction false} BranchesRooted(genesis: Header, b1: Header, o: Header, n2: Header, n3: Header, blocks: map<Hash, Header>)
    requires Branches(genesis, b1, o, n2, n3) && {HashOf(genesis), HashOf(b1), HashOf(n2)} <= blocks.Keys
    ensures Rooted(blocks, n3, genesis) && Descends(o, genesis) && Descends(n3, genesis) && Ancestor(n3, genesis, 1) == b1
  {
    assert Descends(b1, genesis) && Descends(n2, genesis) && Descends(n3, genesis);
    forall n: nat | n <= 2 ensures HashOf(Ancestor(n2, genesis, n)) in blocks {
      assert Ancestor(n2, genesis, 2) == n2 && Ancestor(n2, genesis, 1) == b1 && Ancestor(n2, genesis, 0) == genesis;
    }
    assert Ancestor(n3, genesis, 1) == Ancestor(n2, genesis, 1) == b1;
  }

  lemma {:induction false} OneFork(f: Fork, genesis: Header, b1: Header, o: Header, n2: Header, n3: Header, blocks: map<Hash, Header>)
    requires Branches(genesis, b1, o, n2, n3) && Descends(o, genesis) && Descends(n3, genesis) && IsFork(f, o, n3, genesis, blocks)
    ensures f.older == [o] && f.newer == [n3, n2]
  {
    AncestorDescends(o, genesis, f.common.number);
    LinksAt(f.older, f.common, genesis);
    LinksAt(f.newer, f.common, genesis);
    assert Ancestor(o, genesis, 2) == o && Ancestor(n3, genesis, 2) == n2 && Ancestor(n3, genesis, 3) == n3;
    assert Ancestor(o, genesis, 1) == b1 && Ancestor(n3, genesis, 1) == Ancestor(n2, genesis, 1) == b1;
    hide Ancestor, Links, Descends;
    assert f.common.number == 1;
  }

  /** The blocks of a run are the ancestors of its top. */
  lemma {:induction false} LinksAt(chain: seq<Header>, base: Header, genesis: Header)
    requires Links(chain, base) && Descends(base, genesis) && genesis.number == 0
    ensures Descends(Top(chain, base), genesis) && Top(chain, base).number == base.number + |chain|
    ensures base == Ancestor(Top(chain, base), genesis, base.number)
    ensures forall i :: 0 <= i < |chain| ==> chain[i] == Ancestor(Top(chain, base), genesis, base.number + |chain| - i)
  {
    NotBelow(base, genesis);
    if chain != [] {
      var rest := chain[1..];
      LinksAt(rest, base, genesis);
      forall i | 0 < i < |chain| ensures chain[i] == Ancestor(chain[0], genesis, base.number + |chain| - i) {
        assert chain[i] == rest[i - 1];
      }
    }
  }

  /** Transaction 7 is in block b1 and again in o above it. Moving from o to a branch beside it takes the entry of
      transaction 7 out, although b1 stays in the chain. */
  method LostEntry() returns (bc: BlockChain, b1: Header)
    ensures bc.Valid() && 1 in bc.canon && bc.canon[1] == HashOf(b1) && 7 in b1.txs && 7 !in bc.lookup
  {
    var genesis := Header(NoHash, 0, []);
    b1 := Header(HashOf(genesis), 1, [7]);
    var o, n2 := Header(HashOf(b1), 2, [7]), Header(HashOf(b1), 2, []);
    var n3 := Header(HashOf(n2), 3, []);
    hide Ancestor, Chain, Index, NoRepeat, NoneDoubled, WithBlock, Backed, Links, IsFork, HasTx, Descends, Rooted, Keyed;
    bc := new BlockChain(genesis);
    var _, _ := bc.WriteBlockAndState(b1);
    var _, _ := bc.WriteBlockAndState(o);
    var _, _ := bc.WriteBlockAndState(n2);
    ghost var blocks := bc.blocks;
    BranchesRooted(genesis, b1, o, n2, n3, blocks);
    var _, f := bc.WriteBlockAndState(n3);
    OneFork(f, genesis, b1, o, n2, n3, blocks);
    OnlyOld(o, n2, n3);
    ChainAt(n3, genesis, 1);
  }

  lemma {:induction false} OnlyOld(o: Header, n2: Header, n3: Header)
    requires 7 in o.txs && n2.txs == [] && n3.txs == []
    ensures HasTx([o], 7) && !HasTx([n3, n2], 7)
  {
    assert [o][0] == o;
  }
}

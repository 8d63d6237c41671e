/** Collapsing nodes to hashes: embeds small nodes, stores large ones, unloads clean ones. */
module Hasher {
  import opened Options
  import opened HexKeys
  import opened PatriciaTree
  import opened NodeCodec
  import opened TrieNode
  import opened TrieOps

  class Database {
    var store: Store

    constructor ()
      ensures store == map[]
    {
      store := map[];
    }

    method Put(d: Digest, b: Blob)
      modifies this
      ensures store == old(store)[d := b]
    {
      store := store[d := b];
    }
  }

  /** Generations are 16-bit counters, and their distance wraps around. */
  predicate CanUnload(flags: Flags, cachegen: nat, cachelimit: nat) {
    !flags.dirty && (cachegen - flags.gen) % 65536 >= cachelimit
  }

  /** A clean node may go once the counter is cachelimit steps past its generation, around the end of the range or not. */
  lemma {:induction false} UnloadsAfter(flags: Flags, cachegen: nat, cachelimit: nat)
    requires flags.gen < 65536 && cachegen < 65536
    ensures CanUnload(flags, cachegen, cachelimit) <==>
            !flags.dirty && cachelimit <= if flags.gen <= cachegen then cachegen - flags.gen else 65536 - flags.gen + cachegen
  {
  }

  /** How the hasher refers to t: forced at the root, by size elsewhere. */
  function Hashed(t: Tree, force: bool): Blob
    requires WF(t)
  {
    if force && t != Nil then BHash(Keccak(BlobOf(t))) else Ref(t)
  }

  /** cached may take the place of n; with persist, everything below it is in s'. */
  ghost predicate HashOk(n: Node, hashed: Blob, cached: Node, force: bool, persist: bool, s: Store, s': Store) {
    && WF(Expand(n)) && hashed == Hashed(Expand(n), force)
    && Expand(cached) == Expand(n)
    && HashesOk(cached, force) && Labelled(cached)
    && (Backed(n, s) ==> Backed(cached, s') && (persist ==> Closed(hashed, s')))
  }

  ghost predicate Grows(s: Store, s': Store) {
    s.Keys <= s'.Keys && (ContentAddressed(s) ==> ContentAddressed(s'))
  }

  function FlagsOf(n: Node): (f: Flags)
    ensures n.NHash? || n.NVal? || n.NNil? ==> f == Flags(None, 0, true)
    ensures n.NShort? || n.NFull? ==> f == n.flags
  {
    if n.NShort? || n.NFull? then n.flags else Flags(None, 0, true)
  }

  method Hash(n: Node, db: Database?, force: bool, cachegen: nat, cachelimit: nat, ghost s: Store)
    returns (hashed: Blob, cached: Node, ghost s': Store)
    requires HashesOk(n, force) && WF(Expand(n)) && n != NNil
    requires db != null ==> s == db.store
    modifies db
    ensures s' == if db != null then db.store else s
    ensures HashOk(n, hashed, cached, force, db != null, s, s')
    ensures Grows(s, s')
    ensures db != null && FlagsOf(n).hash.Some? && !FlagsOf(n).dirty ==>
              s' == s && cached == if CanUnload(FlagsOf(n), cachegen, cachelimit) then NHash(FlagsOf(n).hash.value) else n
    ensures db != null && (cached.NShort? || cached.NFull?) ==> !cached.flags.dirty
    decreases n, 2
  {
    var flags := FlagsOf(n);
    if flags.hash.Some? {
      var hash := flags.hash.value;
      CachedOk(n, hash, force, db != null, s);
      if db == null {
        return BHash(hash), n, s;
      }
      if CanUnload(flags, cachegen, cachelimit) {
        return BHash(hash), NHash(hash), s;
      }
      if !flags.dirty {
        return BHash(hash), n, s;
      }
    }
    var collapsed, walked, s1 := HashChildren(n, db, cachegen, cachelimit, s);
    hashed, s' := StoreNode(collapsed, flags.hash, db, force, s1);
    cached := walked;
    if walked.NShort? || walked.NFull? {
      var dirty := if db != null then false else walked.flags.dirty;
      cached := walked.(flags := Flags(if hashed.BHash? then Some(hashed.d) else None, walked.flags.gen, dirty));
      RenameOk(n, walked, hashed, walked.flags.gen, dirty, force, db != null, s, s1, s');
    }
  }

  /** A cached hash can be returned at once, and replaces the node when that is clean. */
  lemma {:induction false} CachedOk(n: Node, hash: Digest, force: bool, persist: bool, s: Store)
    requires HashesOk(n, force) && FlagsOf(n).hash == Some(hash)
    ensures !persist || !FlagsOf(n).dirty ==> HashOk(n, BHash(hash), n, force, persist, s, s)
    ensures !FlagsOf(n).dirty ==> HashOk(n, BHash(hash), NHash(hash), force, persist, s, s)
  {
    hide BlobOf;
    TreeOfBlob(Expand(n));
  }

  /** The node with its caching metadata wiped. */
  function Bare(n: Node): Node {
    if n.NShort? || n.NFull? then n.(flags := NewFlag(0)) else n
  }

  lemma {:induction false} BareExpand(n: Node)
    ensures Expand(Bare(n)) == Expand(n)
  {
  }

  /** The children of cached are hashed; its own flags are still those of n. */
  ghost predicate Walked(n: Node, collapsed: Blob, cached: Node, persist: bool, s: Store, s': Store) {
    && WF(Expand(n)) && Expand(n) != Nil
    && Expand(cached) == Expand(n) && FlagsOf(cached) == FlagsOf(n)
    && (if n.NHash? then cached == n && collapsed == BHash(n.d) else !cached.NHash? && collapsed == BlobOf(Expand(n)))
    && (n.NHash? || (HashesOk(Bare(cached), false) && ChildrenLabelled(cached)))
    && (Backed(n, s) ==> Backed(Bare(cached), s') && (persist ==> Closed(collapsed, s')))
  }

  lemma {:induction false} RenameOk(n: Node, walked: Node, hashed: Blob, gen: nat, dirty: bool, force: bool, persist: bool,
                                    s: Store, s1: Store, s': Store)
    requires !n.NHash? && HashesOk(n, force) && WF(Expand(n))
    requires Walked(n, BlobOf(Expand(n)), walked, persist, s, s1) && Grows(s1, s')
    requires hashed == Hashed(Expand(n), force)
    requires walked.NShort? || walked.NFull?
    requires dirty == if persist then false else walked.flags.dirty
    requires Backed(n, s) && persist ==> Closed(hashed, s')
    requires !persist ==> s == s1 == s'
    requires gen == walked.flags.gen
    ensures var cached := walked.(flags := Flags(if hashed.BHash? then Some(hashed.d) else None, gen, dirty));
            HashOk(n, hashed, cached, force, persist, s, s')
  {
    var name := if hashed.BHash? then Some(hashed.d) else None;
    Renamed(walked, name, gen, dirty, force);
    if Backed(n, s) {
      BackedMono(Bare(walked), s1, s');
    }
  }

  /** A node over hashed children, under the name its own encoding gets. */
  lemma {:induction false} Renamed(n: Node, name: Option<Digest>, gen: nat, dirty: bool, force: bool)
    requires (n.NShort? || n.NFull?) && HashesOk(Bare(n), false) && ChildrenLabelled(n)
    requires WF(Expand(n))
    requires name == if force || !Small(BlobOf(Expand(n))) then Some(Keccak(BlobOf(Expand(n)))) else None
    ensures var c := n.(flags := Flags(name, gen, dirty));
            Expand(c) == Expand(n) && HashesOk(c, force) && Labelled(c)
  {
    assert Expand(n.(flags := Flags(name, gen, dirty))) == Expand(n);
  }

  method HashChildren(n: Node, db: Database?, cachegen: nat, cachelimit: nat, ghost s: Store)
    returns (collapsed: Blob, cached: Node, ghost s': Store)
    requires WF(Expand(n)) && n != NNil
    requires if n.NHash? then HashesOk(n, true) else HashesOk(Bare(n), false)
    requires db != null ==> s == db.store
    modifies db
    ensures s' == if db != null then db.store else s
    ensures Walked(n, collapsed, cached, db != null, s, s')
    ensures Grows(s, s')
    decreases n, 1
  {
    match n
    case NShort(key, val, flags) =>
      var v, c;
      v, c, s' := HashVal(n, db, cachegen, cachelimit, s);
      collapsed, cached := BShort(HexToCompact(key), v), NShort(key, c, flags);
      WalkedShort(n, v, c, db != null, s, s');
    case NFull(ch, flags) =>
      var v, c;
      v, c, s' := HashFull(n, db, cachegen, cachelimit, s);
      collapsed, cached := BFull(v), NFull(c, flags);
      WalkedFull(n, v, c, db != null, s, s');
    case NHash(d) =>
      collapsed, cached, s' := BHash(d), n, s;
  }

  /** A child as its parent refers to it; a value stands for itself. */
  ghost predicate ChildOk(n: Node, v: Blob, c: Node, persist: bool, s: Store, s': Store) {
    if n.NVal? then n.v != [] && c == n && v == BVal(n.v) else HashOk(n, v, c, false, persist, s, s')
  }

  lemma {:induction false} ChildOkWeaken(n: Node, v: Blob, c: Node, persist: bool, s: Store, s0: Store, s1: Store, s': Store)
    requires ChildOk(n, v, c, persist, s0, s1) && Grows(s, s0) && Grows(s1, s')
    ensures ChildOk(n, v, c, persist, s, s')
  {
    if Backed(n, s) {
      BackedMono(n, s, s0);
      BackedMono(c, s1, s');
      if persist && !n.NVal? {
        ClosedMono(v, s1, s');
      }
    }
  }

  lemma {:induction false} WalkedShort(n: Node, v: Blob, c: Node, persist: bool, s: Store, s': Store)
    requires n.NShort? && WF(Expand(n)) && ChildOk(n.val, v, c, persist, s, s')
    ensures Walked(n, BShort(HexToCompact(n.key), v), NShort(n.key, c, n.flags), persist, s, s')
  {
    ChildRef(n.val, v, c, persist, s, s');
    BareExpand(NShort(n.key, c, n.flags));
  }

  lemma {:induction false} ChildRef(n: Node, v: Blob, c: Node, persist: bool, s: Store, s': Store)
    requires ChildOk(n, v, c, persist, s, s')
    ensures Subtree(Expand(n)) && v == Ref(Expand(n)) && Expand(c) == Expand(n) && HashesOk(c, false) && Labelled(c)
    ensures Backed(n, s) ==> Backed(c, s') && (persist ==> Closed(v, s'))
  {
  }

  ghost predicate ChildrenOk(ch: seq<Node>, v: seq<Blob>, c: seq<Node>, persist: bool, s: Store, s': Store) {
    |v| == |c| <= |ch| && forall i :: 0 <= i < |v| ==> ChildOk(ch[i], v[i], c[i], persist, s, s')
  }

  lemma {:induction false} ChildrenRef(n: Node, v: seq<Blob>, c: seq<Node>, persist: bool, s: Store, s': Store)
    requires n.NFull? && |v| == |n.ch| && ChildrenOk(n.ch, v, c, persist, s, s') && WF(Expand(n))
    ensures BFull(v) == BlobOf(Expand(n)) && Expand(NFull(c, n.flags)) == Expand(n)
  {
    var t := Expand(n);
    forall i | 0 <= i < 17 ensures v[i] == Ref(t.ch[i]) && Expand(c[i]) == t.ch[i] {
      ChildRef(n.ch[i], v[i], c[i], persist, s, s');
    }
    assert v == BlobOf(t).ch;
    assert Expand(NFull(c, n.flags)).ch == t.ch;
  }

  lemma {:induction false} ChildrenKeep(n: Node, v: seq<Blob>, c: seq<Node>, persist: bool, s: Store, s': Store)
    requires n.NFull? && |v| == |n.ch| && ChildrenOk(n.ch, v, c, persist, s, s')
    ensures HashesOk(NFull(c, NewFlag(0)), false) && ChildrenLabelled(NFull(c, n.flags))
    ensures Backed(n, s) ==> Backed(NFull(c, NewFlag(0)), s') && (persist ==> Closed(BFull(v), s'))
  {
    forall i | 0 <= i < |v|
      ensures HashesOk(c[i], false) && Labelled(c[i])
      ensures Backed(n.ch[i], s) ==> Backed(c[i], s') && (persist ==> Closed(v[i], s'))
    {
      ChildRef(n.ch[i], v[i], c[i], persist, s, s');
    }
  }

  lemma {:induction false} WalkedFull(n: Node, v: seq<Blob>, c: seq<Node>, persist: bool, s: Store, s': Store)
    requires n.NFull? && WF(Expand(n)) && |v| == |n.ch| && ChildrenOk(n.ch, v, c, persist, s, s')
    ensures Walked(n, BFull(v), NFull(c, n.flags), persist, s, s')
  {
    ChildrenRef(n, v, c, persist, s, s');
    ChildrenKeep(n, v, c, persist, s, s');
    BareExpand(NFull(c, n.flags));
  }

  lemma {:induction false} ChildrenStep(ch: seq<Node>, v: seq<Blob>, c: seq<Node>, v1: Blob, c1: Node, persist: bool,
                                        s: Store, s0: Store, s': Store)
    requires ChildrenOk(ch, v, c, persist, s, s0) && |v| < |ch|
    requires ChildOk(ch[|v|], v1, c1, persist, s0, s') && Grows(s, s0) && Grows(s0, s')
    ensures ChildrenOk(ch, v + [v1], c + [c1], persist, s, s')
  {
    forall j | 0 <= j < |v| ensures ChildOk(ch[j], v[j], c[j], persist, s, s') {
      ChildOkWeaken(ch[j], v[j], c[j], persist, s, s, s0, s');
    }
    ChildOkWeaken(ch[|v|], v1, c1, persist, s, s0, s', s');
  }

  lemma {:induction false} FullChild(n: Node, i: nat)
    requires n.NFull? && WF(Expand(n)) && HashesOk(Bare(n), false) && i < 17
    ensures |n.ch| == 17 && HashesOk(n.ch[i], false)
    ensures if i < 16 then WF(Expand(n.ch[i])) else n.ch[i] == NNil || (n.ch[i].NVal? && n.ch[i].v != [])
  {
    assert Expand(n).ch[i] == Expand(n.ch[i]);
  }

  method HashVal(n: Node, db: Database?, cachegen: nat, cachelimit: nat, ghost s: Store)
    returns (collapsed: Blob, cached: Node, ghost s': Store)
    requires n.NShort? && WF(Expand(n)) && HashesOk(Bare(n), false)
    requires db != null ==> s == db.store
    modifies db
    ensures s' == if db != null then db.store else s
    ensures Grows(s, s')
    ensures ChildOk(n.val, collapsed, cached, db != null, s, s')
    decreases n, 0
  {
    if n.val.NVal? {
      assert Expand(n).val == Val(n.val.v);
      collapsed, cached, s' := BVal(n.val.v), n.val, s;
    } else {
      collapsed, cached, s' := Hash(n.val, db, false, cachegen, cachelimit, s);
    }
  }

  method HashFull(n: Node, db: Database?, cachegen: nat, cachelimit: nat, ghost s: Store)
    returns (collapsed: seq<Blob>, cached: seq<Node>, ghost s': Store)
    requires n.NFull? && WF(Expand(n)) && HashesOk(Bare(n), false)
    requires db != null ==> s == db.store
    modifies db
    ensures s' == if db != null then db.store else s
    ensures Grows(s, s')
    ensures |collapsed| == |n.ch| && ChildrenOk(n.ch, collapsed, cached, db != null, s, s')
    decreases n, 0
  {
    collapsed, cached, s' := [], [], s;
    FullChild(n, 16);
    for i := 0 to 16
      invariant s' == if db != null then db.store else s
      invariant Grows(s, s') && |collapsed| == i
      invariant ChildrenOk(n.ch, collapsed, cached, db != null, s, s')
    {
      FullChild(n, i);
      ghost var s0 := s';
      var v, c := BVal([]), NNil;
      if n.ch[i] != NNil {
        v, c, s' := Hash(n.ch[i], db, false, cachegen, cachelimit, s0);
      }
      ChildrenStep(n.ch, collapsed, cached, v, c, db != null, s, s0, s');
      collapsed, cached := collapsed + [v], cached + [c];
    }
    var last := if n.ch[16].NVal? then BVal(n.ch[16].v) else BVal([]);
    ChildrenStep(n.ch, collapsed, cached, last, n.ch[16], db != null, s, s', s');
    collapsed, cached := collapsed + [last], cached + [n.ch[16]];
  }

  method StoreNode(b: Blob, hash: Option<Digest>, db: Database?, force: bool, ghost s: Store)
    returns (hashed: Blob, ghost s': Store)
    requires !b.BVal?
    requires hash.Some? && !b.BHash? ==> hash.value == Keccak(b)
    requires db != null ==> s == db.store
    modifies db
    ensures s' == if db != null then db.store else s
    ensures Grows(s, s')
    ensures hashed == if b.BHash? || (EncLen(b) < 32 && !force) then b else BHash(Keccak(b))
    ensures db != null && Closed(b, s) ==> Closed(hashed, s')
  {
    s' := s;
    if b.BHash? {
      return b, s;
    }
    if Small(b) && !force {
      return b, s;
    }
    var h := if hash.Some? then hash.value else Keccak(b);
    if db != null {
      db.Put(h, b);
      s' := db.store;
      if Closed(b, s) {
        ClosedMono(b, s, s');
      }
    }
    hashed := BHash(h);
  }
}

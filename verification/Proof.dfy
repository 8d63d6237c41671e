/** Merkle proofs: collecting the nodes on a path, and checking them against a root hash. */
module Proof {
  import opened Options
  import opened HexKeys
  import opened PatriciaTree
  import opened NodeCodec
  import opened TrieNode
  import opened TrieOps
  import opened Hasher
  import T = Trie

  /** The subtrees met on the way down path k. */
  function PathTrees(t: Tree, k: Bytes): seq<Tree> {
    if k == [] then []
    else
      match t
      case Nil => []
      case Val(_) => []
      case Short(key, val) => [t] + if key <= k && key != [] then PathTrees(val, k[|key|..]) else []
      case Full(ch) => [t] + if k[0] < |ch| then PathTrees(ch[k[0]], k[1..]) else []
  }

  /** db holds every node on path k that is not embedded in its parent. */
  ghost predicate Supplied(t: Tree, k: Bytes, first: bool, db: Store)
    decreases |k|
  {
    k != [] && t != Nil && WF(t) ==>
      && (first || !Small(BlobOf(t)) ==> Keccak(BlobOf(t)) in db)
      && (t.Short? && t.key <= k ==> Supplied(t.val, k[|t.key|..], false, db))
      && (t.Full? && k[0] <= 16 ==> Supplied(t.ch[k[0]], k[1..], false, db))
  }

  // ---- verification ----

  lemma {:induction false} BelowShort(n: Node, k: Bytes, top: bool, db: Store)
    requires Ready(n, k, top, db) && n.NShort? && n.key <= k
    ensures |n.key| > 0 && Ready(n.val, k[|n.key|..], false, db)
    ensures Lookup(Expand(n.val), k[|n.key|..]) == Lookup(Expand(n), k)
    ensures Supplied(Expand(n), k, top, db) ==> Supplied(Expand(n.val), k[|n.key|..], false, db)
  {
    ReadyShort(n, k, top, db);
  }

  lemma {:induction false} BelowFull(n: Node, k: Bytes, top: bool, db: Store)
    requires Ready(n, k, top, db) && n.NFull?
    ensures |n.ch| == 17 && k != [] && k[0] <= 16 && Ready(n.ch[k[0]], k[1..], false, db)
    ensures Lookup(Expand(n.ch[k[0]]), k[1..]) == Lookup(Expand(n), k)
    ensures Supplied(Expand(n), k, top, db) ==> Supplied(Expand(n.ch[k[0]]), k[1..], false, db)
  {
    ReadyFull(n, k, top, db);
  }

  /** Where following a key through a loaded node ends: at a value, at a hash with the rest of the key, or at
      nothing. A full node past the end of the key is an index out of range. */
  datatype Reached = At(rest: Bytes, c: Node) | OutOfRange

  function Follow(n: Node, k: Bytes): Reached {
    match n
    case NShort(key, val, _) => if key <= k then Follow(val, k[|key|..]) else At([], NNil)
    case NFull(ch, _) => if k != [] && k[0] < |ch| then Follow(ch[k[0]], k[1..]) else OutOfRange
    case NVal(_) => At([], n)
    case _ => At(k, n)
  }

  /** Follows embedded nodes down to a value, a hash reference, or nothing. */
  method Descend(n: Node, k: Bytes) returns (r: Reached)
    ensures r == Follow(n, k)
  {
    var tn, key := n, k;
    while tn.NShort? || tn.NFull?
      invariant Follow(tn, key) == Follow(n, k)
      decreases tn
    {
      if tn.NShort? {
        if !(tn.key <= key) {
          return At([], NNil);
        }
        tn, key := tn.val, key[|tn.key|..];
      } else {
        if key == [] || key[0] >= |tn.ch| {
          return OutOfRange;
        }
        tn, key := tn.ch[key[0]], key[1..];
      }
    }
    r := At(if tn.NVal? then [] else key, tn);
  }

  /** On a node of a trie, what is reached answers for the rest of the key as the node does for the whole. */
  ghost predicate Leads(n: Node, k: Bytes, top: bool, db: Store, c: Node, rest: Bytes) {
    && (c.NNil? ==> Lookup(Expand(n), k) == None)
    && (c.NVal? ==> Lookup(Expand(n), k) == Some(c.v))
    && (c.NHash? ==> Ready(c, rest, false, db) && Lookup(Expand(c), rest) == Lookup(Expand(n), k))
    && (c.NHash? && Supplied(Expand(n), k, top, db) ==> Supplied(Expand(c), rest, false, db))
    && (c.NNil? || c.NVal? || c.NHash?)
  }

  lemma {:induction false} FollowStep(n: Node, k: Bytes, top: bool, db: Store)
    requires Ready(n, k, top, db)
    ensures n.NNil? || (n.NShort? && !(n.key <= k)) ==> Lookup(Expand(n), k) == None
    ensures n.NVal? ==> Lookup(Expand(n), k) == Some(n.v)
  {
  }

  lemma {:induction false} FollowLeads(n: Node, k: Bytes, top: bool, db: Store)
    requires Ready(n, k, top, db) && (top ==> n.NShort? || n.NFull?)
    ensures var r := Follow(n, k);
            && r.At? && Leads(n, k, top, db, r.c, r.rest) && |r.rest| <= |k|
            && (n.NShort? || n.NFull? ==> |r.rest| < |k| || !r.c.NHash?)
  {
    hide Ready, Supplied, Lookup;
    FollowStep(n, k, top, db);

    if n.NShort? && n.key <= k {
      BelowShort(n, k, top, db);
      FollowLeads(n.val, k[|n.key|..], false, db);
    } else if n.NFull? {
      BelowFull(n, k, top, db);
      FollowLeads(n.ch[k[0]], k[1..], false, db);
    }
  }

  /** A proof element found under the wanted hash is the encoding of the wanted subtree. */
  lemma {:induction false} Fetched(want: Digest, t: Tree, k: Bytes, first: bool, db: Store)
    requires ContentAddressed(db) && want in db && Names(want, t, first) && Fits(t, k)
    ensures var n := Decode(db[want], Some(want), 0);
            Ready(n, k, first, db) && (n.NShort? || n.NFull?) && Expand(n) == t && !Undecodable(db[want])
  {
    hide Fits, Lookup, Small, CompactToHex;
    TreeOfBlob(t);
    ResolveOk(want, first, db, 0);
  }

  /** How verification ends, if it ends within the given number of rounds. */
  datatype Verdict = Answer(value: Option<Bytes>) | Absent(d: Digest) | BadNode(d: Digest) | Panic | Unfinished

  /** Bytes that are no encoding of a node. */
  predicate Undecodable(b: Blob) {
    b.BRaw? || (b.BShort? && b.ckey == [])
  }

  function Walk(want: Digest, k: Bytes, db: Store, rounds: nat): Verdict
    decreases rounds
  {
    if rounds == 0 then Unfinished
    else if want !in db then Absent(want)
    else if Undecodable(db[want]) then BadNode(want)
    else
      match Follow(Decode(db[want], Some(want), 0), k)
      case OutOfRange => Panic
      case At(rest, c) =>
        if c.NHash? then Walk(c.d, rest, db, rounds - 1)
        else Answer(if c.NVal? then Some(c.v) else None)
  }

  /** Verification, for as many rounds as are given. */
  method VerifyProof(rootHash: Digest, keyBytes: Bytes, proofDb: Store, rounds: nat) returns (r: Verdict)
    ensures r == Walk(rootHash, KeyToHex(keyBytes), proofDb, rounds)
  {
    hide HexLayout, KeyToHex;
    var key := ComputeKeyToHex(keyBytes);
    var want := rootHash;
    var i := 0;
    while i < rounds
      invariant 0 <= i <= rounds && Walk(want, key, proofDb, rounds - i) == Walk(rootHash, KeyToHex(keyBytes), proofDb, rounds)
    {
      if want !in proofDb {
        return Absent(want);
      }
      if Undecodable(proofDb[want]) {
        return BadNode(want);
      }
      var f := Descend(Decode(proofDb[want], Some(want), 0), key);
      match f {
        case OutOfRange => return Panic;
        case At(rest, c) =>
          if !c.NHash? {
            return Answer(if c.NVal? then Some(c.v) else None);
          }
          key, want := rest, c.d;
      }
      i := i + 1;
    }
    r := Unfinished;
  }

  /** The verdict on path k of t: t's own answer, or an error that names an absent hash; no error if db holds the path. */
  ghost predicate Judges(r: Verdict, t: Tree, k: Bytes, first: bool, db: Store) {
    && (r.Answer? || r.Absent?)
    && (r.Answer? ==> r.value == Lookup(t, k))
    && (r.Absent? ==> r.d !in db && !Supplied(t, k, first, db))
  }

  lemma {:induction false} WalkJudges(want: Digest, t: Tree, k: Bytes, first: bool, db: Store, rounds: nat)
    requires ContentAddressed(db) && Names(want, t, first) && Fits(t, k) && k != [] && rounds >= |k|
    ensures Judges(Walk(want, k, db, rounds), t, k, first, db)
    decreases rounds
  {
    hide Fits, Supplied, Lookup, Ready, Names, ContentAddressed, Expand, Follow, Decode;
    AbsentRoot(want, t, k, first, db);
    if want in db {
      Fetched(want, t, k, first, db);
      var n := Decode(db[want], Some(want), 0);
      FollowLeads(n, k, first, db);
      var r := Follow(n, k);
      if r.c.NHash? {
        HashAhead(r.c, r.rest, db);
        WalkJudges(r.c.d, Expand(r.c), r.rest, false, db, rounds - 1);
      }
    }
  }

  lemma {:induction false} AbsentRoot(want: Digest, t: Tree, k: Bytes, first: bool, db: Store)
    requires Names(want, t, first) && k != []
    ensures want !in db ==> !Supplied(t, k, first, db)
  {
  }

  lemma {:induction false} HashAhead(c: Node, k: Bytes, db: Store)
    requires c.NHash? && Ready(c, k, false, db)
    ensures Names(c.d, Expand(c), false) && Fits(Expand(c), k) && k != []
  {
  }

  /** Against the root of t and a content-addressed proof set, verification ends, an absent node is an error, and
      any other outcome is t's own answer. The empty trie has no proof at all. */
  lemma {:induction false} ProofSound(t: Tree, key: Bytes, proofDb: Store, rounds: nat)
    requires ContentAddressed(proofDb) && WF(t) && rounds >= 2 * |key| + 1
    ensures var r := Walk(RootHash(t), KeyToHex(key), proofDb, rounds);
            if t == Nil then r == Absent(EmptyRoot) else Judges(r, t, KeyToHex(key), true, proofDb)
  {
    if t != Nil {
      WalkJudges(RootHash(t), t, KeyToHex(key), true, proofDb, rounds);
    }
  }

  lemma {:induction false} LoneLeaf(k: Bytes, w: Bytes)
    requires IsPath(k) && w != []
    ensures var u := Short(k, Val(w));
            && WF(u) && Lookup(u, k) == Some(w) && BlobOf(u) == BShort(HexToCompact(k), BVal(w)) && HexToCompact(k) != []
  {
    hide HexToCompact;
    assert k[|k|..] == [];
    assert Ref(Val(w)) == BVal(w);
    CompactToHexInverse(k);
  }

  lemma {:induction false} LoneDecoded(k: Bytes, w: Bytes, d: Digest)
    requires IsPath(k) && w != [] && HexToCompact(k) != []
    ensures Decode(BShort(HexToCompact(k), BVal(w)), Some(d), 0) == NShort(k, NVal(w), Flags(Some(d), 0, false))
  {
    hide HexToCompact, CompactToHex;
    CompactToHexInverse(k);
  }

  lemma {:induction false} LoneFollowed(k: Bytes, w: Bytes, f: Flags)
    ensures Follow(NShort(k, NVal(w), f), k) == At([], NVal(w))
  {
    assert k[|k|..] == [];
  }

  /** A set whose entry under the root is another trie's node gives that trie's answer. */
  lemma {:induction false} Forged(key: Bytes, v: Bytes, w: Bytes)
    requires v != [] && w != [] && v != w
    ensures var t, u := Short(KeyToHex(key), Val(v)), Short(KeyToHex(key), Val(w));
            && WF(t) && WF(u) && Lookup(t, KeyToHex(key)) == Some(v)
            && Walk(RootHash(t), KeyToHex(key), map[RootHash(t) := BlobOf(u)], 1) == Answer(Some(w))
  {
    hide KeyToHex, HexToCompact, IsPath, WF, Lookup, Decode, Follow, BlobOf, RootHash;
    var k := KeyToHex(key);
    LoneLeaf(k, v);
    LoneLeaf(k, w);
    var d := RootHash(Short(k, Val(v)));
    LoneDecoded(k, w, d);
    LoneFollowed(k, w, Flags(Some(d), 0, false));
  }

  /** A set whose entry is a reference to itself is followed for ever. */
  lemma {:induction false} Endless(d: Digest, k: Bytes, rounds: nat)
    ensures Walk(d, k, map[d := BHash(d)], rounds) == Unfinished
  {
    if rounds > 0 {
      Endless(d, k, rounds - 1);
    }
  }

  // ---- construction ----

  /** A loaded node on the path, fit for hashing, standing for t. */
  ghost predicate Loaded(n: Node, t: Tree) {
    && (n.NShort? || n.NFull?) && Expand(n) == t && WF(t)
    && HashesOk(Bare(n), false)
    && (n.flags.hash.Some? ==> n.flags.hash.value == Keccak(BlobOf(t)))
  }

  lemma {:induction false} LoadedOk(n: Node, top: bool)
    requires (n.NShort? || n.NFull?) && HashesOk(n, top) && WF(Expand(n))
    ensures Loaded(n, Expand(n))
  {
  }

  ghost predicate AllLoaded(nodes: seq<Node>, ts: seq<Tree>) {
    |nodes| == |ts| && forall i :: 0 <= i < |ts| ==> Loaded(nodes[i], ts[i])
  }

  /** One step down the path from a loaded node: where it leads, and what is still ahead. */
  function Next(n: Node, k: Bytes, ghost top: bool, ghost db: Store): (Node, Bytes)
    requires Ready(n, k, top, db) && (n.NShort? || n.NFull?)
  {
    if n.NFull? then
      ReadyFull(n, k, top, db);
      (n.ch[k[0]], k[1..])
    else if n.key <= k then (n.val, k[|n.key|..])
    else (NNil, k)
  }

  lemma {:induction false} NextOk(n: Node, k: Bytes, top: bool, db: Store)
    requires Ready(n, k, top, db) && (n.NShort? || n.NFull?) && k != []
    ensures var (c, rest) := Next(n, k, top, db);
            && Ready(c, rest, false, db)
            && (c == NNil || |rest| < |k|)
            && PathTrees(Expand(n), k) == [Expand(n)] + PathTrees(Expand(c), rest)
            && (Backed(n, db) ==> Backed(c, db))
  {
    if n.NFull? {
      ReadyFull(n, k, top, db);
    } else if n.key <= k {
      ReadyShort(n, k, top, db);
    }
  }

  lemma {:induction false} PushLoaded(nodes: seq<Node>, ts: seq<Tree>, n: Node, top: bool)
    requires AllLoaded(nodes, ts) && (n.NShort? || n.NFull?) && HashesOk(n, top) && WF(Expand(n))
    ensures AllLoaded(nodes + [n], ts + [Expand(n)])
  {
    LoadedOk(n, top);
  }

  lemma {:induction false} Regroup(ts: seq<Tree>, t: Tree, rest: seq<Tree>)
    ensures ts + ([t] + rest) == (ts + [t]) + rest
  {
  }

  /** Collects the nodes on the path, resolving hash references on the way. */
  method Collect(root: Node, k: Bytes, db: Store, gen: nat) returns (r: Result<seq<Node>>)
    requires Ready(root, k, true, db) && k != []
    ensures r.Ok? ==> AllLoaded(r.value, PathTrees(Expand(root), k))
    ensures r.Missing? ==> r.d !in db && !Backed(root, db)
  {
    var tn, key, nodes := root, k, [];
    ghost var top, ts, ahead := true, [], PathTrees(Expand(root), k);
    while key != [] && tn != NNil
      invariant Ready(tn, key, top, db)
      invariant AllLoaded(nodes, ts)
      invariant ahead == PathTrees(Expand(tn), key) && PathTrees(Expand(root), k) == ts + ahead
      invariant Backed(root, db) ==> Backed(tn, db)
      decreases if tn == NNil then 0 else |key|, tn.NHash?
    {
      if tn.NHash? {
        ReadyHash(tn, key, top, db, gen);
        ResolveOk(tn.d, top, db, gen);
        var c := Resolve(tn.d, db, gen);
        if c.Missing? {
          return Missing(tn.d);
        }
        tn := c.value;
      } else {
        PushLoaded(nodes, ts, tn, top);
        NextOk(tn, key, top, db);
        var next := Next(tn, key, top, db);
        ghost var rest := PathTrees(Expand(next.0), next.1);
        Regroup(ts, Expand(tn), rest);
        nodes, ts, ahead := nodes + [tn], ts + [Expand(tn)], rest;
        tn, key, top := next.0, next.1, false;
      }
    }
    r := Ok(nodes);
  }

  ghost predicate AllWF(ts: seq<Tree>) {
    forall i :: 0 <= i < |ts| ==> WF(ts[i])
  }

  ghost function Blobs(ts: seq<Tree>): (bs: seq<Blob>)
    requires AllWF(ts)
    ensures |bs| == |ts|
  {
    seq(|ts|, i requires 0 <= i < |ts| => BlobOf(ts[i]))
  }

  /** s after the proof elements among bs, the root and whatever is too large to be embedded, are
      put into it from index i on, leaving out the first skip. */
  ghost function Put(s: Store, bs: seq<Blob>, i: nat, skip: nat): Store
    requires i <= |bs|
    decreases |bs| - i
  {
    if i == |bs| then s
    else if i > 0 && Small(bs[i]) then Put(s, bs, i + 1, skip)
    else if skip > 0 then Put(s, bs, i + 1, skip - 1)
    else Put(s[Keccak(bs[i]) := bs[i]], bs, i + 1, 0)
  }

  /** How many of the blobs from index i up to k are proof elements. */
  ghost function Elements(bs: seq<Blob>, i: nat, k: nat): nat
    requires i <= k <= |bs|
    decreases k - i
  {
    if i == k then 0 else (if i == 0 || EncLen(bs[i]) >= 32 then 1 else 0) + Elements(bs, i + 1, k)
  }

  /** Blob k is a proof element with at least skip of them before it, from index i on. */
  ghost predicate Kept(bs: seq<Blob>, i: nat, skip: nat, k: nat) {
    i <= k < |bs| && (k == 0 || EncLen(bs[k]) >= 32) && Elements(bs, i, k) >= skip
  }

  /** Exactly the elements behind the first skip are put, each under its hash. */
  lemma {:induction false} PutExactly(s: Store, bs: seq<Blob>, i: nat, skip: nat, d: Digest)
    requires i <= |bs|
    ensures d in Put(s, bs, i, skip) <==> d in s || exists k: nat :: Kept(bs, i, skip, k) && d == Keccak(bs[k])
    ensures d in Put(s, bs, i, skip) ==> Put(s, bs, i, skip)[d] == if exists k: nat :: Kept(bs, i, skip, k) && d == Keccak(bs[k]) then d.blob else s[d]
    decreases |bs| - i
  {
    if i < |bs| {
      var element := i == 0 || EncLen(bs[i]) >= 32;
      var s', skip' := (if element && skip == 0 then s[Keccak(bs[i]) := bs[i]] else s), if element && skip > 0 then skip - 1 else skip;
      assert Put(s, bs, i, skip) == Put(s', bs, i + 1, skip');
      PutExactly(s', bs, i + 1, skip', d);
      forall k: nat ensures Kept(bs, i, skip, k) <==> (k == i && element && skip == 0) || Kept(bs, i + 1, skip', k) {
      }
    }
  }

  lemma {:induction false} PutGrows(s: Store, bs: seq<Blob>, i: nat, skip: nat)
    requires i <= |bs|
    ensures Grows(s, Put(s, bs, i, skip))
    decreases |bs| - i
  {
    if i == |bs| {
    } else if i > 0 && Small(bs[i]) {
      PutGrows(s, bs, i + 1, skip);
    } else if skip > 0 {
      PutGrows(s, bs, i + 1, skip - 1);
    } else {
      PutGrows(s[Keccak(bs[i]) := bs[i]], bs, i + 1, 0);
    }
  }

  lemma {:induction false} PutAll(s: Store, bs: seq<Blob>, i: nat, j: nat)
    requires i <= j < |bs| && (j == 0 || !Small(bs[j]))
    ensures Keccak(bs[j]) in Put(s, bs, i, 0)
    decreases |bs| - i
  {
    var s' := if i > 0 && Small(bs[i]) then s else s[Keccak(bs[i]) := bs[i]];
    if i == j {
      PutGrows(s', bs, i + 1, 0);
    } else {
      PutAll(s', bs, i + 1, j);
    }
  }

  lemma {:induction false} PathSupplied(t: Tree, k: Bytes, first: bool, db: Store)
    requires Fits(t, k) && AllWF(PathTrees(t, k))
    requires forall i :: 0 <= i < |PathTrees(t, k)| && ((i == 0 && first) || !Small(BlobOf(PathTrees(t, k)[i]))) ==>
               Keccak(BlobOf(PathTrees(t, k)[i])) in db
    ensures Supplied(t, k, first, db)
    decreases |k|
  {
    if k != [] && t != Nil {
      var ts := PathTrees(t, k);
      if t.Short? && t.key <= k {
        FitsShort(t, k);
        PathBelow(ts, PathTrees(t.val, k[|t.key|..]), t, db);
        PathSupplied(t.val, k[|t.key|..], false, db);
      } else if t.Full? {
        FitsFull(t, k);
        PathBelow(ts, PathTrees(t.ch[k[0]], k[1..]), t, db);
        PathSupplied(t.ch[k[0]], k[1..], false, db);
      }
      assert ts[0] == t;
    }
  }

  lemma {:induction false} PathBelow(ts: seq<Tree>, rest: seq<Tree>, t: Tree, db: Store)
    requires ts == [t] + rest && AllWF(ts)
    requires forall i :: 0 < i < |ts| && !Small(BlobOf(ts[i])) ==> Keccak(BlobOf(ts[i])) in db
    ensures AllWF(rest)
    ensures forall i :: 0 <= i < |rest| && !Small(BlobOf(rest[i])) ==> Keccak(BlobOf(rest[i])) in db
  {
    hide BlobOf, Small;
    assert forall i :: 0 <= i < |rest| ==> rest[i] == ts[i + 1];
  }

  ghost predicate LoadedAs(n: Node, b: Blob) {
    exists t :: Loaded(n, t) && b == BlobOf(t)
  }

  /** The encoding of a loaded node, and how its parent would refer to it. */
  method Encode(n: Node, ghost b: Blob) returns (enc: Blob, hn: Blob)
    requires LoadedAs(n, b)
    ensures enc == b && !b.BHash?
    ensures hn == if EncLen(b) < 32 then b else BHash(Keccak(b))
  {
    ghost var t :| Loaded(n, t) && b == BlobOf(t);
    var collapsed, _, _ := HashChildren(n, null, 0, 0, map[]);
    var ref, _ := StoreNode(collapsed, n.flags.hash, null, false, map[]);
    enc, hn := collapsed, ref;
  }

  lemma {:induction false} PutStep(s: Store, bs: seq<Blob>, i: nat, skip: nat)
    requires i < |bs|
    ensures i > 0 && Small(bs[i]) ==> Put(s, bs, i, skip) == Put(s, bs, i + 1, skip)
    ensures i == 0 || !Small(bs[i]) ==>
              Put(s, bs, i, skip) ==
              if skip > 0 then Put(s, bs, i + 1, skip - 1) else Put(s[Keccak(bs[i]) := bs[i]], bs, i + 1, 0)
  {
  }

  /** One round of the storing loop. */
  method PutElement(n: Node, ghost bs: seq<Blob>, i: nat, skip: nat, proofDb: Database) returns (left: nat)
    requires i < |bs| && LoadedAs(n, bs[i])
    modifies proofDb
    ensures Put(proofDb.store, bs, i + 1, left) == Put(old(proofDb.store), bs, i, skip)
  {
    PutStep(proofDb.store, bs, i, skip);
    var enc, hn := Encode(n, bs[i]);
    left := skip;
    if hn.BHash? || i == 0 {
      if skip > 0 {
        left := skip - 1;
      } else {
        proofDb.Put(if hn.BHash? then hn.d else Keccak(enc), enc);
      }
    }
  }

  method PutElements(nodes: seq<Node>, ghost bs: seq<Blob>, fromLevel: nat, proofDb: Database)
    requires |nodes| == |bs| && forall i :: 0 <= i < |nodes| ==> LoadedAs(nodes[i], bs[i])
    modifies proofDb
    ensures proofDb.store == Put(old(proofDb.store), bs, 0, fromLevel)
  {
    var skip := fromLevel;
    ghost var goal := Put(proofDb.store, bs, 0, fromLevel);
    for i := 0 to |nodes|
      invariant Put(proofDb.store, bs, i, skip) == goal
    {
      skip := PutElement(nodes[i], bs, i, skip, proofDb);
    }
  }

  /** Puts the proof for key into proofDb, without its first fromLevel elements. */
  method Prove(t: T.Trie, keyBytes: Bytes, fromLevel: nat, proofDb: Database) returns (r: Result<()>)
    requires t.Valid()
    modifies proofDb
    ensures r.Missing? ==> proofDb.store == old(proofDb.store) && !old(t.Retrievable())
    ensures var ts := PathTrees(t.Contents(), KeyToHex(keyBytes));
            r.Ok? ==> AllWF(ts) && proofDb.store == Put(old(proofDb.store), Blobs(ts), 0, fromLevel)
  {
    var key := ComputeKeyToHex(keyBytes);
    var c := Collect(t.root, key, t.db.store, t.cachegen);
    if c.Missing? {
      return Missing(c.d);
    }
    ghost var ts := PathTrees(t.Contents(), key);
    assert AllWF(ts);
    forall i | 0 <= i < |ts| ensures LoadedAs(c.value[i], Blobs(ts)[i]) {
      assert Loaded(c.value[i], ts[i]);
    }
    PutElements(c.value, Blobs(ts), fromLevel, proofDb);
    r := Ok(());
  }

  lemma {:induction false} ProvedAnswer(t: Tree, key: Bytes, store: Store)
    requires WF(t) && AllWF(PathTrees(t, KeyToHex(key))) && store == Put(map[], Blobs(PathTrees(t, KeyToHex(key))), 0, 0)
    ensures Walk(RootHash(t), KeyToHex(key), store, 2 * |key| + 1)
            == if t != Nil then Answer(T.ValueAt(t, key)) else Absent(EmptyRoot)
  {
    hide Walk, Lookup, Put;
    var ts := PathTrees(t, KeyToHex(key));
    PutGrows(map[], Blobs(ts), 0, 0);
    forall i | 0 <= i < |ts| && (i == 0 || !Small(BlobOf(ts[i]))) ensures Keccak(BlobOf(ts[i])) in store {
      PutAll(map[], Blobs(ts), 0, i);
    }
    PathSupplied(t, KeyToHex(key), true, store);
    ProofSound(t, key, store, 2 * |key| + 1);
  }

  /** Proofs are complete and sound: what Prove stores verifies to the trie's own answer, present
      or absent, for every key of a non-empty trie. The empty trie stores nothing and fails. */
  method ProveAndVerify(t: T.Trie, key: Bytes) returns (r: Verdict)
    requires t.Valid() && t.Retrievable()
    modifies t`root
    ensures t.Valid() && t.Contents() == old(t.Contents())
    ensures r == if t.Contents() != Nil then Answer(T.ValueAt(t.Contents(), key)) else Absent(EmptyRoot)
  {
    hide Walk, AllWF, PathTrees, Put, Blobs, KeyToHex, Lookup;
    var rootHash := t.Hash();
    var proofDb := new Database();
    var p := Prove(t, key, 0, proofDb);
    ProvedAnswer(t.Contents(), key, proofDb.store);
    r := VerifyProof(rootHash, key, proofDb.store, 2 * |key| + 1);
  }
}

/** What a synchronisation leaves behind, over any run of requests, deliveries and flushes: with nothing
    pending, whole tries with all that their leaves name. */
module SyncedTrie {
  import opened Options
  import opened HexKeys
  import opened PatriciaTree
  import opened NodeCodec
  import opened Hasher
  import opened TrieSync
  import Tries = Trie

  // ---- whole tries in a store ----

  /** Embedded nodes are too short to hold a hash. */
  lemma {:induction false} SmallClosed(b: Blob, db: Store)
    requires Small(b)
    ensures Closed(b, db)
  {
    match b
    case BShort(_, val) => SmallClosed(val, db);
    case BFull(ch) =>
      forall i | 0 <= i < |ch| ensures Closed(ch[i], db) {
        EncLensAt(ch, i);
        SmallClosed(ch[i], db);
      }
    case BHash(_) =>
    case BVal(_) =>
    case BRaw(_) =>
  }

  lemma {:induction false} EncLensAt(ch: seq<Blob>, i: nat)
    requires i < |ch|
    ensures EncLen(ch[i]) <= EncLens(ch)
  {
    if i > 0 {
      EncLensAt(ch[1..], i - 1);
    }
  }

  /** Data b is stored with all it needs: nothing if it was taken as raw, no leaf if it came without the callback. */
  ghost predicate Met(b: Blob, raws: set<Blob>, plains: set<Blob>, leaf: Bytes -> Option<seq<LeafRef>>, keys: set<Digest>) {
    Needs(b, b in raws, b !in plains, leaf) <= keys
  }

  ghost predicate AllMet(store: Store, raws: set<Blob>, plains: set<Blob>, leaf: Bytes -> Option<seq<LeafRef>>) {
    forall h | h in store :: Met(store[h], raws, plains, leaf, store.Keys)
  }

  /** No node of t was taken as raw while something it refers to is missing. */
  ghost predicate Harmless(t: Tree, raws: set<Blob>, db: Store)
    requires Subtree(t)
  {
    match t
    case Nil => true
    case Val(_) => true
    case Short(_, val) => (BlobOf(t) in raws ==> RefsIn(BlobOf(t), db)) && Harmless(val, raws, db)
    case Full(ch) => (BlobOf(t) in raws ==> RefsIn(BlobOf(t), db)) && forall i | 0 <= i < 17 :: Harmless(ch[i], raws, db)
  }

  /** No node of t was there as a raw entry before, and nobody asked for one of them as a raw entry. */
  ghost predicate Clear(t: Tree, names: set<Digest>, raws0: set<Blob>)
    requires Subtree(t)
  {
    match t
    case Nil => true
    case Val(_) => true
    case Short(_, val) => Keccak(BlobOf(t)) !in names && BlobOf(t) !in raws0 && Clear(val, names, raws0)
    case Full(ch) => Keccak(BlobOf(t)) !in names && BlobOf(t) !in raws0 && forall i | 0 <= i < 17 :: Clear(ch[i], names, raws0)
  }

  lemma {:induction false} ClearHarmless(t: Tree, names: set<Digest>, raws0: set<Blob>, raws: set<Blob>, db: Store)
    requires Subtree(t) && Clear(t, names, raws0) && forall b | b in raws :: b in raws0 || Keccak(b) in names
    ensures Harmless(t, raws, db)
  {
    match t
    case Nil =>
    case Val(_) =>
    case Short(_, val) => ClearHarmless(val, names, raws0, raws, db);
    case Full(ch) =>
      forall i | 0 <= i < 17 ensures Harmless(ch[i], raws, db) {
        ClearHarmless(ch[i], names, raws0, raws, db);
      }
  }

  lemma {:induction false} MetRefs(b: Blob, raws: set<Blob>, plains: set<Blob>, leaf: Bytes -> Option<seq<LeafRef>>, db: Store)
    requires Met(b, raws, plains, leaf, db.Keys) && (b in raws ==> RefsIn(b, db))
    ensures RefsIn(b, db)
  {
    forall c | c in ChildrenOf(b) && c.BHash? ensures c.d in db {
      if b !in raws {
        assert c.d in ChildNeeds(c, b !in plains, leaf);
        assert c.d in Needs(b, false, b !in plains, leaf);
      }
    }
  }

  lemma {:induction false} RefClosed(t: Tree, db: Store)
    requires Subtree(t)
    ensures Closed(Ref(t), db) <==> Closed(BlobOf(t), db) && (Ref(t).BHash? ==> Ref(t).d in db)
  {
  }

  /** A stored trie without such nodes is stored as a whole. */
  lemma {:induction false} HarmlessClosed(t: Tree, db: Store, raws: set<Blob>, plains: set<Blob>, leaf: Bytes -> Option<seq<LeafRef>>)
    requires Subtree(t) && ContentAddressed(db) && AllMet(db, raws, plains, leaf) && Harmless(t, raws, db)
    requires t.Short? || t.Full? ==> Small(BlobOf(t)) || Keccak(BlobOf(t)) in db
    ensures Closed(BlobOf(t), db)
    decreases t, 1
  {
    hide AllMet, ContentAddressed;
    if t.Short? || t.Full? {
      if Small(BlobOf(t)) {
        SmallClosed(BlobOf(t), db);
      } else {
        StoredMet(t, db, raws, plains, leaf);
        match t
        case Short(key, val) => ChildClosed(t, val, db, raws, plains, leaf);
        case Full(ch) =>
          forall i | 0 <= i < 17 ensures Closed(Ref(ch[i]), db) {
            assert BlobOf(t).ch[i] == Ref(ch[i]);
            ChildClosed(t, ch[i], db, raws, plains, leaf);
          }
      }
    }
  }

  lemma {:induction false} StoredMet(t: Tree, db: Store, raws: set<Blob>, plains: set<Blob>, leaf: Bytes -> Option<seq<LeafRef>>)
    requires Subtree(t) && ContentAddressed(db) && AllMet(db, raws, plains, leaf)
    requires Keccak(BlobOf(t)) in db && (BlobOf(t) in raws ==> RefsIn(BlobOf(t), db))
    ensures RefsIn(BlobOf(t), db)
  {
    assert db[Keccak(BlobOf(t))] == BlobOf(t);
    MetRefs(BlobOf(t), raws, plains, leaf, db);
  }

  lemma {:induction false} ChildClosed(t: Tree, c: Tree, db: Store, raws: set<Blob>, plains: set<Blob>, leaf: Bytes -> Option<seq<LeafRef>>)
    requires Subtree(t) && Subtree(c) && c < t && Ref(c) in ChildrenOf(BlobOf(t)) && RefsIn(BlobOf(t), db)
    requires ContentAddressed(db) && AllMet(db, raws, plains, leaf) && Harmless(c, raws, db)
    ensures Closed(Ref(c), db)
    decreases t, 0
  {
    HarmlessClosed(c, db, raws, plains, leaf);
    RefClosed(c, db);
  }

  /** Conversely, a trie that is stored as a whole has no such node. */
  lemma {:induction false} ClosedHarmless(t: Tree, db: Store, raws: set<Blob>)
    requires Subtree(t) && Closed(BlobOf(t), db)
    ensures Harmless(t, raws, db)
  {
    match t
    case Nil =>
    case Val(_) =>
    case Short(_, val) =>
      RefClosed(val, db);
      ClosedHarmless(val, db, raws);
    case Full(ch) =>
      forall i | 0 <= i < 17 ensures Harmless(ch[i], raws, db) && (Ref(ch[i]).BHash? ==> Ref(ch[i]).d in db) {
        assert BlobOf(t).ch[i] == Ref(ch[i]);
        RefClosed(ch[i], db);
        ClosedHarmless(ch[i], db, raws);
      }
      assert RefsIn(BlobOf(t), db);
  }

  // ---- what leaves name ----

  /** The value at path k sits in a node that is stored on its own and was not taken as one of the others. */
  ghost predicate LeafSeen(t: Tree, k: Bytes, own: bool, others: set<Blob>)
    requires Subtree(t)
  {
    match t
    case Nil => false
    case Val(_) => false
    case Short(key, val) =>
      key <= k && if val.Val? then own && BlobOf(t) !in others
                  else LeafSeen(val, k[|key|..], !Small(BlobOf(val)), others)
    case Full(ch) =>
      k != [] && k[0] < 17 && if ch[k[0]].Val? then own && BlobOf(t) !in others
                              else LeafSeen(ch[k[0]], k[1..], !Small(BlobOf(ch[k[0]])), others)
  }

  lemma {:induction false} MetLeaf(b: Blob, v: Bytes, raws: set<Blob>, plains: set<Blob>, leaf: Bytes -> Option<seq<LeafRef>>, keys: set<Digest>, r: LeafRef)
    requires Met(b, raws, plains, leaf, keys) && b !in raws + plains && BVal(v) in ChildrenOf(b) && v != []
    requires leaf(v).Some? && r in leaf(v).value && !EmptyRef(r)
    ensures r.hash in keys
  {
    assert r.hash in ChildNeeds(BVal(v), true, leaf);
    assert r.hash in Needs(b, false, true, leaf);
  }

  /** In a trie stored as a whole, what such a leaf names is stored. */
  lemma {:induction false} LeafNamed(t: Tree, k: Bytes, own: bool, db: Store, raws: set<Blob>, plains: set<Blob>, leaf: Bytes -> Option<seq<LeafRef>>, v: Bytes, r: LeafRef)
    requires Subtree(t) && Closed(BlobOf(t), db) && ContentAddressed(db) && AllMet(db, raws, plains, leaf)
    requires LeafSeen(t, k, own, raws + plains) && (own ==> Keccak(BlobOf(t)) in db)
    requires Lookup(t, k) == Some(v) && leaf(v).Some? && r in leaf(v).value && !EmptyRef(r)
    ensures r.hash in db
  {
    hide Met;
    var c, rest := (if t.Short? then t.val else t.ch[k[0]]), (if t.Short? then k[|t.key|..] else k[1..]);
    assert Ref(c) in ChildrenOf(BlobOf(t)) by { assert t.Full? ==> BlobOf(t).ch[k[0]] == Ref(c); }
    if c.Val? {
      assert db[Keccak(BlobOf(t))] == BlobOf(t) && c.v == v;
      MetLeaf(BlobOf(t), v, raws, plains, leaf, db.Keys, r);
    } else {
      assert Closed(Ref(c), db) by { assert t.Full? ==> BlobOf(t).ch[k[0]] == Ref(c); }
      RefClosed(c, db);
      LeafNamed(c, rest, !Small(BlobOf(c)), db, raws, plains, leaf, v, r);
    }
  }

  // ---- runs ----

  ghost function RawsOf(log: seq<Entry>): set<Blob> {
    set i | 0 <= i < |log| && log[i].raw :: log[i].data
  }

  ghost function PlainsOf(log: seq<Entry>): set<Blob> {
    set i | 0 <= i < |log| && !log[i].callback :: log[i].data
  }

  lemma {:induction false} EntryMet(e: Entry, raws: set<Blob>, plains: set<Blob>, leaf: Bytes -> Option<seq<LeafRef>>, keys: set<Digest>)
    requires Required(e, leaf) <= keys && (e.raw ==> e.data in raws) && (!e.callback ==> e.data in plains)
    ensures Met(e.data, raws, plains, leaf, keys)
  {
    var b := e.data;
    var raw, told := b in raws, b !in plains;
    forall n | n in Needs(b, raw, told, leaf) ensures n in keys {
      var c :| c in ChildrenOf(b) && n in ChildNeeds(c, told, leaf);
      assert n in ChildNeeds(c, e.callback, leaf);
      assert n in Required(e, leaf);
    }
  }

  lemma {:induction false} MetMore(b: Blob, raws: set<Blob>, plains: set<Blob>, raws': set<Blob>, plains': set<Blob>,
                                   leaf: Bytes -> Option<seq<LeafRef>>, keys: set<Digest>, keys': set<Digest>)
    requires Met(b, raws, plains, leaf, keys) && raws <= raws' && plains <= plains' && keys <= keys'
    ensures Met(b, raws', plains', leaf, keys')
  {
    var raw, told, told' := b in raws', b !in plains, b !in plains';
    forall n | n in Needs(b, raw, told', leaf) ensures n in keys' {
      var c :| c in ChildrenOf(b) && n in ChildNeeds(c, told', leaf);
      assert n in ChildNeeds(c, told, leaf);
      assert n in Needs(b, false, told, leaf);
    }
  }

  lemma {:induction false} AllMetMore(store: Store, raws: set<Blob>, plains: set<Blob>, raws': set<Blob>, plains': set<Blob>, leaf: Bytes -> Option<seq<LeafRef>>)
    requires AllMet(store, raws, plains, leaf) && raws <= raws' && plains <= plains'
    ensures AllMet(store, raws', plains', leaf)
  {
    hide Met;
    forall h | h in store ensures Met(store[h], raws', plains', leaf, store.Keys) {
      MetMore(store[h], raws, plains, raws', plains', leaf, store.Keys, store.Keys);
    }
  }

  /** Writing the first entries of the batch keeps everything met, since they are in the order of completion. */
  lemma {:induction false} FlushedMet(store: Store, log: seq<Entry>, order: seq<Digest>, batch: Store, k: nat, store': Store,
                                      raws: set<Blob>, plains: set<Blob>, leaf: Bytes -> Option<seq<LeafRef>>)
    requires k <= |order| && Recorded(log, order, batch, store, leaf) && Flushed(store, order, batch, k, store')
    requires AllMet(store, raws, plains, leaf) && RawsOf(log) <= raws && PlainsOf(log) <= plains
    ensures AllMet(store', raws, plains, leaf)
  {
    hide Met, Required, Ordered;
    forall h | h in store' ensures Met(store'[h], raws, plains, leaf, store'.Keys) {
      if h in order[..k] {
        var i :| 0 <= i < k && order[i] == h;
        FlushedRequired(store, log, order, batch, k, store', leaf, i);
        assert log[i].raw ==> log[i].data in RawsOf(log);
        assert !log[i].callback ==> log[i].data in PlainsOf(log);
        EntryMet(log[i], raws, plains, leaf, store'.Keys);
      } else {
        MetMore(store[h], raws, plains, raws, plains, leaf, store.Keys, store'.Keys);
      }
    }
  }

  /** Batch and database together are what the database is once the whole batch is written. */
  lemma {:induction false} UnionFlushed(store: Store, log: seq<Entry>, order: seq<Digest>, batch: Store, leaf: Bytes -> Option<seq<LeafRef>>)
    requires Recorded(log, order, batch, store, leaf)
    ensures Flushed(store, order, batch, |order|, store + batch)
  {
    hide Ordered;
    assert order[..|order|] == order;
    forall h | h in batch ensures h in order {
      var i :| 0 <= i < |log| && log[i].hash == h;
      assert order[i] == h;
    }
    forall h | h in order ensures h in batch {
      var i :| 0 <= i < |order| && order[i] == h;
      assert log[i].hash == h;
    }
  }

  /** The data completed as raw entries, in this run or before it. */
  ghost function Raws(sync: TrieSync, before: set<Blob>): set<Blob>
    reads sync
  {
    before + RawsOf(sync.past + sync.log)
  }

  /** The data completed without the callback, in this run or before it. */
  ghost function Plains(sync: TrieSync, before: set<Blob>): set<Blob>
    reads sync
  {
    before + PlainsOf(sync.past + sync.log)
  }

  lemma {:induction false} OfBoth(past: seq<Entry>, log: seq<Entry>)
    ensures RawsOf(past + log) == RawsOf(past) + RawsOf(log) && PlainsOf(past + log) == PlainsOf(past) + PlainsOf(log)
  {
    var all := past + log;
    forall i | 0 <= i < |past| ensures all[i] == past[i] {
    }
    forall i | 0 <= i < |log| ensures all[|past| + i] == log[i] {
    }
  }

  /** Everything known: what is in the database or in the batch. */
  ghost function Everything(sync: TrieSync): Store
    reads sync, sync.database
  {
    sync.database.store + sync.batch
  }

  /** What holds throughout a run. Roots are those of the tries asked for; raws0 and plains0 are the data that the
      database held already as raw entries, and without what their leaves name. */
  ghost predicate Tracks(sync: TrieSync, raws0: set<Blob>, plains0: set<Blob>, roots: set<Digest>)
    reads sync, sync.database, sync.g.todo.Keys, sync.g.waiting.Keys
  {
    && sync.Valid() && ContentAddressed(sync.database.store)
    && AllMet(sync.database.store, Raws(sync, raws0), Plains(sync, plains0), sync.leaf)
    && (forall r | r in roots :: r == EmptyRoot || r in sync.Known() + sync.requests.Keys)
  }

  /** What was taken as raw was there before, or asked for as a raw entry. */
  lemma {:induction false} RawsNamed(sync: TrieSync, raws0: set<Blob>, names: set<Digest>)
    requires sync.RawHashes() <= names
    ensures forall b | b in Raws(sync, raws0) :: b in raws0 || Keccak(b) in names
  {
    var all := sync.past + sync.log;
    forall b | b in Raws(sync, raws0) && b !in raws0 ensures Keccak(b) in names {
      var i :| 0 <= i < |all| && all[i].raw && all[i].data == b;
      assert Keccak(b) in RawLogged(all);
    }
  }

  /** With nothing pending, the whole of every trie asked for is in batch and database together, exactly if none
      of its nodes was taken as raw with something missing below it. None was, if nobody asked for one as raw. */
  lemma {:induction false} NothingPending(sync: TrieSync, raws0: set<Blob>, plains0: set<Blob>, roots: set<Digest>, names: set<Digest>, t: Tree)
    requires Tracks(sync, raws0, plains0, roots) && sync.requests == map[] && sync.RawHashes() <= names
    requires WF(t) && t != Nil && RootHash(t) in roots
    ensures Clear(t, names, raws0) ==> Closed(BHash(RootHash(t)), Everything(sync))
    ensures Closed(BHash(RootHash(t)), Everything(sync)) <==> Harmless(t, Raws(sync, raws0), Everything(sync))
  {
    hide Recorded, AllMet, ContentAddressed, TrieSync.Valid, Raws, Plains, TrieSync.RawHashes;
    RawsNamed(sync, raws0, names);
    EverythingMet(sync, raws0, plains0, roots);
    RootStored(t, Everything(sync), Raws(sync, raws0), Plains(sync, plains0), sync.leaf);
    if Clear(t, names, raws0) {
      ClearHarmless(t, names, raws0, Raws(sync, raws0), Everything(sync));
    }
  }

  lemma {:induction false} EverythingMet(sync: TrieSync, raws0: set<Blob>, plains0: set<Blob>, roots: set<Digest>)
    requires Tracks(sync, raws0, plains0, roots)
    ensures AllMet(Everything(sync), Raws(sync, raws0), Plains(sync, plains0), sync.leaf) && ContentAddressed(Everything(sync))
    ensures Everything(sync).Keys == sync.Known()
  {
    hide AllMet, Sound, Quiet, RawsOf, PlainsOf;
    var store, batch, log, order := sync.database.store, sync.batch, sync.log, sync.order;
    UnionFlushed(store, log, order, batch, sync.leaf);
    OfBoth(sync.past, log);
    FlushedMet(store, log, order, batch, |order|, store + batch, Raws(sync, raws0), Plains(sync, plains0), sync.leaf);
  }

  lemma {:induction false} RootStored(t: Tree, db: Store, raws: set<Blob>, plains: set<Blob>, leaf: Bytes -> Option<seq<LeafRef>>)
    requires WF(t) && t != Nil && RootHash(t) in db && ContentAddressed(db) && AllMet(db, raws, plains, leaf)
    ensures Closed(BHash(RootHash(t)), db) <==> Harmless(t, raws, db)
  {
    hide AllMet, ContentAddressed;
    if Harmless(t, raws, db) {
      HarmlessClosed(t, db, raws, plains, leaf);
    }
    if Closed(BHash(RootHash(t)), db) {
      ClosedHarmless(t, db, raws);
    }
  }

  /** What a leaf of such a trie names: a raw entry is there, and a trie is there as a whole. */
  lemma {:induction false} LeafComplete(sync: TrieSync, raws0: set<Blob>, plains0: set<Blob>, roots: set<Digest>, names: set<Digest>,
                                        t: Tree, k: Bytes, v: Bytes, r: LeafRef)
    requires Tracks(sync, raws0, plains0, roots) && sync.requests == map[] && sync.RawHashes() <= names
    requires WF(t) && t != Nil && RootHash(t) in roots && Harmless(t, Raws(sync, raws0), Everything(sync))
    requires Lookup(t, k) == Some(v) && LeafSeen(t, k, true, Raws(sync, raws0) + Plains(sync, plains0))
    requires sync.leaf(v).Some? && r in sync.leaf(v).value && !EmptyRef(r)
    ensures r.hash in Everything(sync)
    ensures forall u | WF(u) && u != Nil && RootHash(u) == r.hash && Clear(u, names, raws0) :: Closed(BHash(r.hash), Everything(sync))
    ensures forall u | WF(u) && u != Nil && RootHash(u) == r.hash ::
              Closed(BHash(r.hash), Everything(sync)) <==> Harmless(u, Raws(sync, raws0), Everything(sync))
  {
    hide Recorded, AllMet, ContentAddressed, TrieSync.Valid, LeafSeen, EmptyRef, RootHash, Raws, Plains, TrieSync.RawHashes;
    RawsNamed(sync, raws0, names);
    RootBlob(t);
    EverythingMet(sync, raws0, plains0, roots);
    NothingPending(sync, raws0, plains0, roots, names, t);
    LeafNamed(t, k, true, Everything(sync), Raws(sync, raws0), Plains(sync, plains0), sync.leaf, v, r);
    forall u | WF(u) && u != Nil && RootHash(u) == r.hash
      ensures Closed(BHash(r.hash), Everything(sync)) <==> Harmless(u, Raws(sync, raws0), Everything(sync))
      ensures Clear(u, names, raws0) ==> Harmless(u, Raws(sync, raws0), Everything(sync))
    {
      if Clear(u, names, raws0) {
        ClearHarmless(u, names, raws0, Raws(sync, raws0), Everything(sync));
      }
      RootStored(u, Everything(sync), Raws(sync, raws0), Plains(sync, plains0), sync.leaf);
    }
  }

  lemma {:induction false} RootBlob(t: Tree)
    requires WF(t) && t != Nil
    ensures RootHash(t) == Keccak(BlobOf(t))
  {
  }

  datatype Op = Deliver(results: seq<SyncResult>) | Flush(failAt: nat) | SubTrie(root: Digest, callback: bool) | RawEntry(hash: Digest)

  /** Items carry the hash of their data. */
  ghost predicate Genuine(op: Op) {
    op.Deliver? ==> forall i :: 0 <= i < |op.results| ==> op.results[i].hash == Keccak(op.results[i].data)
  }

  ghost function DataOf(op: Op): set<Blob> {
    if op.Deliver? then set i | 0 <= i < |op.results| :: op.results[i].data else {}
  }

  function RootsOf(op: Op): set<Digest> {
    if op.SubTrie? then {op.root} else {}
  }

  /** What a step asks for as raw entries: itself, or through the leaves of what it delivers. */
  ghost function RawNames(op: Op, leaf: Bytes -> Option<seq<LeafRef>>): set<Digest> {
    match op
    case Deliver(results) => NamedIn(results, leaf)
    case RawEntry(hash) => {hash}
    case Flush(_) => {}
    case SubTrie(_, _) => {}
  }

  ghost function AllRawNames(ops: seq<Op>, leaf: Bytes -> Option<seq<LeafRef>>): set<Digest> {
    if ops == [] then {} else AllRawNames(ops[..|ops| - 1], leaf) + RawNames(ops[|ops| - 1], leaf)
  }

  ghost function AllData(ops: seq<Op>): set<Blob> {
    if ops == [] then {} else AllData(ops[..|ops| - 1]) + DataOf(ops[|ops| - 1])
  }

  ghost function AllRoots(ops: seq<Op>): set<Digest> {
    if ops == [] then {} else AllRoots(ops[..|ops| - 1]) + RootsOf(ops[|ops| - 1])
  }

  lemma {:induction false} AllDataPrefix(ops: seq<Op>, i: nat, leaf: Bytes -> Option<seq<LeafRef>>)
    requires i <= |ops|
    ensures AllData(ops[..i]) <= AllData(ops) && AllRawNames(ops[..i], leaf) <= AllRawNames(ops, leaf)
  {
    if i < |ops| {
      AllDataPrefix(ops[..|ops| - 1], i, leaf);
      assert ops[..|ops| - 1][..i] == ops[..i];
    } else {
      assert ops[..i] == ops;
    }
  }

  lemma {:induction false} RawsMore(past: seq<Entry>, log: seq<Entry>, log': seq<Entry>, data: set<Blob>)
    requires RawOnly(log, log', data)
    ensures RawsOf(past + log) <= RawsOf(past + log') <= RawsOf(past + log) + data
    ensures PlainsOf(past + log) <= PlainsOf(past + log')
  {
    OfBoth(past, log);
    OfBoth(past, log');
    forall i | 0 <= i < |log| ensures log'[i] == log[i] {
    }
    forall b | b in RawsOf(log') ensures b in RawsOf(log) + data {
      var i :| 0 <= i < |log'| && log'[i].raw && log'[i].data == b;
    }
  }

  method Receive(sync: TrieSync, results: seq<SyncResult>, ghost raws0: set<Blob>, ghost plains0: set<Blob>, ghost roots: set<Digest>)
    returns (err: Option<SyncError>)
    requires Tracks(sync, raws0, plains0, roots) && Genuine(Deliver(results))
    modifies sync, sync.g.todo.Keys
    ensures forall r | r in sync.g.todo && r !in old(sync.g.todo) :: fresh(r)
    ensures Raws(sync, {}) <= old(Raws(sync, {})) + DataOf(Deliver(results))
    ensures sync.RawHashes() <= old(sync.RawHashes()) + RawNames(Deliver(results), sync.leaf)
    ensures err != Some(LeafRejected) ==> Tracks(sync, raws0, plains0, roots)
    ensures err == Some(LeafRejected) ==> exists item | item in results :: sync.Rejects(item)
  {
    hide TrieSync.Valid, AllMet, TrieSync.Rejects, RawOnly, RawsOf, PlainsOf, TrieSync.RawHashes, NamedIn;
    ghost var log, data := sync.log, DataOf(Deliver(results));
    var _, index, e := sync.Process(results);
    err := e;
    RawsMore(sync.past, log, sync.log, data);
    AllMetMore(sync.database.store, old(Raws(sync, raws0)), old(Plains(sync, plains0)), Raws(sync, raws0), Plains(sync, plains0), sync.leaf);
    assert err == Some(LeafRejected) ==> results[index] in results;
  }

  method Write(sync: TrieSync, failAt: nat, ghost raws0: set<Blob>, ghost plains0: set<Blob>, ghost roots: set<Digest>)
    returns (ok: bool)
    requires Tracks(sync, raws0, plains0, roots)
    modifies sync, sync.database
    ensures Tracks(sync, raws0, plains0, roots) && sync.requests == old(sync.requests) && sync.g == old(sync.g)
    ensures ok == (failAt >= |old(sync.order)|) && (ok ==> sync.batch == map[])
    ensures sync.RawHashes() == old(sync.RawHashes())
    ensures sync.Known() == old(sync.Known()) && sync.past + sync.log == old(sync.past + sync.log)
  {
    hide TrieSync.Inv, TrieSync.Valid, AllMet, Recorded, Flushed, RefsClosed, WholeWrites, RawClosed, RawsOf, PlainsOf, RawPending, RawLogged;
    ghost var store, log, order, batch := sync.database.store, sync.log, sync.order, sync.batch;
    ValidRecorded(sync);
    OfBoth(sync.past, log);
    ghost var raws, plains := Raws(sync, raws0), Plains(sync, plains0);
    var written, k := sync.Commit(failAt);
    ok := k;
    FlushedMet(store, log, order, batch, written, sync.database.store, raws, plains, sync.leaf);
  }

  lemma {:induction false} ValidRecorded(sync: TrieSync)
    requires sync.Valid()
    ensures Recorded(sync.log, sync.order, sync.batch, sync.database.store, sync.leaf)
  {
  }

  method Ask(sync: TrieSync, op: Op, ghost raws0: set<Blob>, ghost plains0: set<Blob>, ghost roots: set<Digest>)
    requires Tracks(sync, raws0, plains0, roots) && (op.SubTrie? || op.RawEntry?)
    modifies sync, sync.g.todo.Keys
    ensures forall r | r in sync.g.todo && r !in old(sync.g.todo) :: fresh(r)
    ensures Tracks(sync, raws0, plains0, roots + RootsOf(op)) && sync.batch == old(sync.batch)
    ensures sync.past + sync.log == old(sync.past + sync.log)
    ensures sync.RawHashes() <= old(sync.RawHashes()) + RawNames(op, sync.leaf)
    ensures op.RawEntry? && op.hash !in old(sync.Known() + sync.requests.Keys) && op.hash != EMPTY_STATE ==>
              sync.requests.Keys == old(sync.requests.Keys) + {op.hash} && sync.Awaited(op.hash, true, false)
  {
    hide AllMet, Recorded, ContentAddressed, Steady, Settled, Quiet, Counted, RawsOf, PlainsOf, RawLogged;
    match op
    case SubTrie(root, callback) => sync.AddSubTrie(root, ZeroHash, callback);
    case RawEntry(hash) => sync.AddRawEntry(hash, ZeroHash);
  }

  /** One step of a run. */
  method Step(sync: TrieSync, op: Op, ghost raws0: set<Blob>, ghost plains0: set<Blob>, ghost roots: set<Digest>)
    returns (rejected: bool)
    requires Tracks(sync, raws0, plains0, roots) && Genuine(op)
    modifies sync, sync.database, sync.g.todo.Keys
    ensures forall r | r in sync.g.todo && r !in old(sync.g.todo) :: fresh(r)
    ensures Raws(sync, {}) <= old(Raws(sync, {})) + DataOf(op)
    ensures sync.RawHashes() <= old(sync.RawHashes()) + RawNames(op, sync.leaf)
    ensures if rejected then op.Deliver? && exists item | item in op.results :: sync.Rejects(item)
            else Tracks(sync, raws0, plains0, roots + RootsOf(op))
  {
    hide Tracks, TrieSync.Rejects, TrieSync.RawHashes, NamedIn, RawsOf;
    rejected := false;
    assert roots + {} == roots;
    match op
    case Deliver(results) =>
      var err := Receive(sync, results, raws0, plains0, roots);
      rejected := err == Some(LeafRejected);
    case Flush(failAt) => var _ := Write(sync, failAt, raws0, plains0, roots);
    case SubTrie(_, _) => Ask(sync, op, raws0, plains0, roots);
    case RawEntry(_) => Ask(sync, op, raws0, plains0, roots);
  }

  /** Any run of requests, deliveries and flushes from a new scheduler on, up to the first rejected leaf. */
  method Run(root: Digest, database: Database, leaf: Bytes -> Option<seq<LeafRef>>, callback: bool, ops: seq<Op>,
             ghost raws0: set<Blob>, ghost plains0: set<Blob>)
    returns (sync: TrieSync, rejected: bool)
    requires ContentAddressed(database.store) && AllMet(database.store, raws0, plains0, leaf)
    requires forall op | op in ops :: Genuine(op)
    modifies database
    ensures fresh(sync) && sync.database == database && sync.leaf == leaf && Raws(sync, {}) <= AllData(ops)
    ensures sync.RawHashes() <= AllRawNames(ops, leaf)
    ensures if rejected then exists op, item | op in ops && op.Deliver? && item in op.results :: sync.Rejects(item)
            else Tracks(sync, raws0, plains0, {root} + AllRoots(ops))
  {
    hide AllMet, Genuine, TrieSync.Rejects, TrieSync.Valid, ContentAddressed, DataOf, RootsOf, RawsOf, PlainsOf, RawNames;
    sync := new TrieSync(root, database, leaf, callback);
    rejected := false;
    NoEntries();
    assert ops[..0] == [] && sync.past + sync.log == [] && Raws(sync, raws0) == raws0 && Plains(sync, plains0) == plains0;
    var i := 0;
    while i < |ops|
      invariant 0 <= i <= |ops| && !rejected && fresh(sync) && sync.database == database && sync.leaf == leaf
      invariant fresh(sync.g.todo.Keys) && Raws(sync, {}) <= AllData(ops[..i])
      invariant sync.RawHashes() <= AllRawNames(ops[..i], leaf)
      invariant Tracks(sync, raws0, plains0, {root} + AllRoots(ops[..i]))
    {
      assert ops[..i + 1][..i] == ops[..i];
      rejected := Step(sync, ops[i], raws0, plains0, {root} + AllRoots(ops[..i]));
      assert {root} + AllRoots(ops[..i]) + RootsOf(ops[i]) == {root} + AllRoots(ops[..i + 1]);
      i := i + 1;
      if rejected {
        AllDataPrefix(ops, i, leaf);
        return;
      }
    }
    assert ops[..i] == ops;
  }

  lemma {:induction false} NoEntries()
    ensures RawsOf([]) == {} && PlainsOf([]) == {}
  {
  }

  /** Once nothing is pending, writing the batch makes the trie open with its contents; all of it can be
      retrieved if none of its nodes was taken as raw with something missing below it. */
  method OpenSynced(sync: TrieSync, root: Digest, ghost t: Tree, ghost raws0: set<Blob>, ghost plains0: set<Blob>, ghost roots: set<Digest>,
                    ghost names: set<Digest>)
    returns (trie: Tries.Trie?)
    requires Tracks(sync, raws0, plains0, roots) && sync.requests == map[] && sync.RawHashes() <= names && root in roots
    requires WF(t) && Tries.ByteKeyed(t) && root == RootHash(t)
    modifies sync, sync.database
    ensures Tracks(sync, raws0, plains0, roots) && sync.batch == map[]
    ensures trie != null && fresh(trie) && trie.db == sync.database && trie.Valid() && trie.Contents() == t
    ensures t == Nil || Clear(t, names, raws0) ==> trie.Retrievable()
    ensures t == Nil || Harmless(t, Raws(sync, raws0), sync.database.store) ==> trie.Retrievable()
  {
    hide AllMet, Harmless, TrieSync.Valid, Closed, ContentAddressed, Tries.ByteKeyed, Raws, TrieSync.RawHashes, Clear;
    var _ := Write(sync, |sync.order|, raws0, plains0, roots);
    if t != Nil {
      assert Everything(sync) == sync.database.store;
      NothingPending(sync, raws0, plains0, roots, names, t);
    }
    trie := Tries.Trie.Open(root, sync.database, t);
  }

  // ---- leaves of tries ----

  lemma {:induction false} RefNoLeaf(t: Tree)
    requires WF(t)
    ensures !LeafTold(Ref(t), true)
  {
  }

  /** A node of a trie has at most one value child. */
  lemma {:induction false} NodeOneLeaf(t: Tree)
    requires WF(t) && t != Nil
    ensures OneLeaf(ChildrenOf(BlobOf(t))) && IsNode(BlobOf(t))
  {
    if t.Full? {
      forall i | 0 <= i < 16 ensures !LeafTold(BlobOf(t).ch[i], true) {
        assert BlobOf(t).ch[i] == Ref(t.ch[i]);
        RefNoLeaf(t.ch[i]);
      }
    }
  }

  // ---- two runs that fail ----

  function NoLeaf(v: Bytes): Option<seq<LeafRef>> {
    None
  }

  /** A node whose leaf the callback rejects stays without ever being completed. */
  method RejectedLeaf() returns (sync: TrieSync, err: Option<SyncError>)
    ensures err == Some(LeafRejected) && !sync.Valid()
    ensures exists h :: h in sync.requests && sync.requests[h].data.Some? && sync.requests[h].deps == 0
  {
    hide TrieSync.Valid, TrieSync.AtWork;
    var node := BShort([0x20], BVal([1]));
    var db := new Database();
    sync := new TrieSync(Keccak(node), db, NoLeaf, true);
    var item := SyncResult(Keccak(node), node);
    assert !Accepted(ChildrenOf(node), true, NoLeaf) by { assert ChildrenOf(node)[0] == BVal([1]); }
    assert sync.Refusal(item) == None && !sync.Agreeable(item);
    var _, e := sync.ProcessItem(item);
    err := e;
  }

  /** A raw entry that is a node is written with nothing of what it refers to. */
  method RawNode() returns (sync: TrieSync)
    ensures sync.Valid() && ContentAddressed(sync.database.store) && !RefsClosed(sync.database.store)
  {
    hide TrieSync.Valid, TrieSync.AtWork;
    var ref := Keccak(BRaw([1]));
    var node := BShort([0x20], BHash(ref));
    var db := new Database();
    sync := new TrieSync(EmptyRoot, db, NoLeaf, true);
    assert sync.requests == map[];
    Ask(sync, RawEntry(Keccak(node)), {}, {}, {});
    var item := SyncResult(Keccak(node), node);
    assert sync.Refusal(item) == None && sync.Agreeable(item);
    var _, _ := sync.ProcessItem(item);
    WriteAll(sync);
    assert BHash(ref) in ChildrenOf(node) && !RefsIn(node, sync.database.store);
  }

  method WriteAll(sync: TrieSync)
    requires sync.Valid() && ContentAddressed(sync.database.store)
    modifies sync, sync.database
    ensures sync.Valid() && ContentAddressed(sync.database.store) && sync.database.store.Keys == old(sync.Known())
  {
    hide TrieSync.Inv, Recorded, Flushed, RefsClosed, WholeWrites, RawClosed, Quiet;
    ghost var store, log, order, batch := sync.database.store, sync.log, sync.order, sync.batch;
    ValidRecorded(sync);
    var written, _ := sync.Commit(|sync.order|);
    FlushedRecorded(store, log, order, batch, written, sync.database.store, sync.leaf);
  }
}

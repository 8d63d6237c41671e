/** The download scheduler of trie synchronisation: pending requests with reference-counted
    dependencies, completed bottom-up into a batch that is flushed in completion order. */
module TrieSync {
  import opened Options
  import opened HexKeys
  import opened NodeCodec
  import opened Hasher

  /** Further data a leaf refers to: another trie, or a raw entry such as code. */
  datatype LeafRef = LeafRef(hash: Digest, raw: bool)

  datatype SyncResult = SyncResult(hash: Digest, data: Blob)

  datatype SyncError = NotRequested | AlreadyProcessed | BadNode | LeafRejected

  const EMPTY_STATE: Digest := Keccak(BRaw([]))

  // ---- references ----

  /** The children of a decoded node; other data does not decode. */
  function ChildrenOf(b: Blob): seq<Blob> {
    match b
    case BShort(_, val) => [val]
    case BFull(ch) => ch
    case _ => []
  }

  predicate IsNode(b: Blob) {
    (b.BShort? && b.ckey != []) || (b.BFull? && |b.ch| == 17)
  }

  /** Any data that decodes, including a lone value or reference. */
  predicate Decodes(b: Blob) {
    IsNode(b) || b.BHash? || (b.BVal? && b.v != [])
  }

  predicate EmptyRef(r: LeafRef) {
    r.hash == if r.raw then EMPTY_STATE else EmptyRoot
  }

  /** What a child refers to: a node by its hash, or what its leaf value names. A rejected leaf names nothing. */
  function ChildNeeds(c: Blob, callback: bool, leaf: Bytes -> Option<seq<LeafRef>>): set<Digest> {
    if c.BHash? then {c.d}
    else if callback && c.BVal? && c.v != [] && leaf(c.v).Some? then
      set r | r in leaf(c.v).value && !EmptyRef(r) :: r.hash
    else {}
  }

  /** All that must be present before data b of a request may be stored. */
  function Needs(b: Blob, raw: bool, callback: bool, leaf: Bytes -> Option<seq<LeafRef>>): set<Digest> {
    if raw then {} else set c, n | c in ChildrenOf(b) && n in ChildNeeds(c, callback, leaf) :: n
  }

  /** A child the callback is told of. */
  predicate LeafTold(c: Blob, callback: bool) {
    callback && c.BVal? && c.v != []
  }

  /** What a leaf names as a trie, or as a raw entry. */
  function Named(refs: seq<LeafRef>, raw: bool): set<Digest> {
    set r | r in refs && r.raw == raw :: r.hash
  }

  /** What the leaves among the children name, if the callback is told of them. */
  function NamedBy(cs: seq<Blob>, callback: bool, raw: bool, leaf: Bytes -> Option<seq<LeafRef>>): set<Digest> {
    set c, n | c in cs && n in NamedAt(c, callback, raw, leaf) :: n
  }

  function NamedAt(c: Blob, callback: bool, raw: bool, leaf: Bytes -> Option<seq<LeafRef>>): set<Digest> {
    if LeafTold(c, callback) && leaf(c.v).Some? then Named(leaf(c.v).value, raw) else {}
  }

  lemma {:induction false} NamedNext(refs: seq<LeafRef>, i: nat, raw: bool)
    requires i < |refs|
    ensures Named(refs[..i + 1], raw) == Named(refs[..i], raw) + Named([refs[i]], raw)
  {
    assert refs[..i + 1] == refs[..i] + [refs[i]];
  }

  /** What is asked for because of a node: a child by hash, as a node with the same callback, or what a leaf names, a
      trie as a node and other data as a raw entry, without the callback. */
  ghost predicate Asked(h: Digest, r: Request, cs: seq<Blob>, callback: bool, leaf: Bytes -> Option<seq<LeafRef>>) {
    if r.raw then !r.callback && h in NamedBy(cs, callback, true, leaf)
    else (!r.callback && h in NamedBy(cs, callback, false, leaf)) || (r.callback == callback && BHash(h) in cs)
  }

  ghost predicate AskedFor(requests: map<Digest, Request>, requests': map<Digest, Request>, cs: seq<Blob>, callback: bool, leaf: Bytes -> Option<seq<LeafRef>>) {
    forall h | h in requests' :: if h in requests then requests'[h] == requests[h] else Asked(h, requests'[h], cs, callback, leaf)
  }

  /** The hashes of what is pending or was completed as a raw entry. */
  ghost function RawPending(requests: map<Digest, Request>): set<Digest> {
    set h | h in requests && requests[h].raw
  }

  ghost function RawLogged(log: seq<Entry>): set<Digest> {
    set i | 0 <= i < |log| && log[i].raw :: Keccak(log[i].data)
  }

  /** What the leaves of delivered data name as raw. */
  ghost function NamedIn(results: seq<SyncResult>, leaf: Bytes -> Option<seq<LeafRef>>): set<Digest> {
    set i, n | 0 <= i < |results| && n in NamedBy(ChildrenOf(results[i].data), true, true, leaf) :: n
  }

  lemma {:induction false} NamedTold(cs: seq<Blob>, callback: bool, raw: bool, leaf: Bytes -> Option<seq<LeafRef>>)
    ensures NamedBy(cs, callback, raw, leaf) == if callback then NamedBy(cs, true, raw, leaf) else {}
  {
    hide Named;
  }

  lemma {:induction false} RawLoggedMore(past: seq<Entry>, log: seq<Entry>, log': seq<Entry>, data: set<Blob>, hashes: set<Digest>)
    requires RawOnly(log, log', data) && forall b | b in data :: Keccak(b) in hashes
    ensures RawLogged(past + log') <= RawLogged(past + log) + hashes
  {
    var all, all' := past + log, past + log';
    forall h | h in RawLogged(all') ensures h in RawLogged(all) + hashes {
      var i :| 0 <= i < |all'| && all'[i].raw && Keccak(all'[i].data) == h;
      if i < |all| {
        assert all[i] == all'[i];
      } else {
        assert all'[i] == log'[i - |past|];
      }
    }
  }

  /** Nothing becomes raw but what a leaf names as raw. */
  lemma {:induction false} RawGrowth(requests: map<Digest, Request>, requests': map<Digest, Request>, past: seq<Entry>, log: seq<Entry>, log': seq<Entry>,
                                     data: set<Blob>, cs: seq<Blob>, callback: bool, leaf: Bytes -> Option<seq<LeafRef>>)
    requires AskedFor(requests, requests', cs, callback, leaf) && RawOnly(log, log', data)
    requires forall b | b in data :: Keccak(b) in RawPending(requests)
    ensures RawPending(requests') + RawLogged(past + log')
            <= RawPending(requests) + RawLogged(past + log) + NamedBy(cs, true, true, leaf)
  {
    hide NamedBy, RawLogged, RawOnly;
    NamedTold(cs, callback, true, leaf);
    RawLoggedMore(past, log, log', data, RawPending(requests));
  }

  lemma {:induction false} AskedMore(r0: map<Digest, Request>, r1: map<Digest, Request>, r2: map<Digest, Request>,
                                     cs: seq<Blob>, callback: bool, leaf: Bytes -> Option<seq<LeafRef>>)
    requires AskedFor(r0, r1, cs, callback, leaf) && Extends(r0, r1)
    requires forall h | h in r2 :: if h in r1 then r2[h] == r1[h] else Asked(h, r2[h], cs, callback, leaf)
    ensures AskedFor(r0, r2, cs, callback, leaf)
  {
  }

  lemma {:induction false} AskedNext(r0: map<Digest, Request>, r1: map<Digest, Request>, r2: map<Digest, Request>,
                                     cs: seq<Blob>, i: nat, callback: bool, leaf: Bytes -> Option<seq<LeafRef>>)
    requires i < |cs| && AskedFor(r0, r1, cs, callback, leaf) && AskedFor(r1, r2, [cs[i]], callback, leaf)
    requires Extends(r0, r1)
    ensures AskedFor(r0, r2, cs, callback, leaf)
  {
    hide NamedAt;
    assert [cs[i]][0] in cs;
  }

  lemma {:induction false} AskedLeaf(r0: map<Digest, Request>, r1: map<Digest, Request>, b: Blob, callback: bool, leaf: Bytes -> Option<seq<LeafRef>>)
    requires Extends(r0, r1) && LeafTold(b, callback) && leaf(b.v).Some?
    requires forall h | h in r1 && h !in r0 :: !r1[h].callback && h in Named(leaf(b.v).value, r1[h].raw)
    ensures AskedFor(r0, r1, [b], callback, leaf)
  {
    hide Named, NamedBy;
    forall h | h in r1 && h !in r0 ensures Asked(h, r1[h], [b], callback, leaf) {
      NamedByOne(b, callback, r1[h].raw, leaf);
    }
  }

  lemma {:induction false} NamedByOne(b: Blob, callback: bool, raw: bool, leaf: Bytes -> Option<seq<LeafRef>>)
    ensures NamedBy([b], callback, raw, leaf) == NamedAt(b, callback, raw, leaf)
  {
    hide NamedAt;
    assert b in [b];
  }

  lemma {:induction false} AskedNone(requests: map<Digest, Request>, cs: seq<Blob>, callback: bool, leaf: Bytes -> Option<seq<LeafRef>>)
    ensures AskedFor(requests, requests, cs, callback, leaf)
  {
  }

  /** At most one child is a value, as it is in every node of a trie. */
  ghost predicate OneLeaf(cs: seq<Blob>) {
    forall i, j :: 0 <= i < j < |cs| && LeafTold(cs[i], true) ==> !LeafTold(cs[j], true)
  }

  /** No leaf among the children is rejected by the callback. */
  predicate Accepted(cs: seq<Blob>, callback: bool, leaf: Bytes -> Option<seq<LeafRef>>) {
    callback ==> forall i :: 0 <= i < |cs| && cs[i].BVal? && cs[i].v != [] ==> leaf(cs[i].v).Some?
  }

  class Request {
    const hash: Digest
    const raw: bool
    const callback: bool
    var data: Option<Blob>
    var parents: seq<Request>
    var deps: int

    constructor (hash: Digest, raw: bool, callback: bool, parents: seq<Request>)
      ensures this.hash == hash && this.raw == raw && this.callback == callback
      ensures data == None && this.parents == parents && deps == 0
    {
      this.hash, this.raw, this.callback := hash, raw, callback;
      data, this.parents, deps := None, parents, 0;
    }
  }

  // ---- the dependency graph ----

  /** For each request made: the parents still to be told of its completion, and the requests it
      waits for, as often as they still have to tell it. */
  datatype Graph = Graph(todo: map<Request, seq<Request>>, waiting: map<Request, multiset<Request>>)

  ghost predicate Link(g: Graph, c: Request, p: Request)
    requires c in g.todo && p in g.waiting
  {
    multiset(g.todo[c])[p] == g.waiting[p][c]
  }

  /** Telling and waiting are two views of one relation, with multiplicity. */
  ghost predicate Mirror(g: Graph) {
    && g.todo.Keys == g.waiting.Keys
    && (forall c, p {:trigger Link(g, c, p)} | c in g.todo && p in g.waiting :: Link(g, c, p))
    && (forall c, p | c in g.todo && p in g.todo[c] :: p in g.todo)
    && (forall c, p | p in g.waiting && c in g.waiting[p] :: c in g.todo)
  }

  lemma {:induction false} MirrorKeys(g: Graph)
    requires Mirror(g)
    ensures g.todo.Keys == g.waiting.Keys
    ensures forall r :: r in g.todo <==> r in g.waiting
  {
    forall r ensures r in g.todo <==> r in g.waiting {
      assert r in g.todo.Keys <==> r in g.waiting.Keys;
    }
  }

  /** Request req tells the first of its parents. */
  ghost function Told(g: Graph, req: Request): Graph
    requires req in g.todo && g.todo[req] != [] && g.todo[req][0] in g.waiting
  {
    var p := g.todo[req][0];
    Graph(g.todo[req := g.todo[req][1..]], g.waiting[p := g.waiting[p] - multiset{req}])
  }

  lemma {:induction false} ToldLink(g: Graph, req: Request, c: Request, q: Request)
    requires req in g.todo && g.todo[req] != [] && g.todo[req][0] in g.waiting
    requires c in g.todo && q in g.waiting && Link(g, c, q)
    ensures c in Told(g, req).todo && q in Told(g, req).waiting && Link(Told(g, req), c, q)
  {
    if c == req {
      assert g.todo[req] == [g.todo[req][0]] + g.todo[req][1..];
    }
  }

  lemma {:induction false} ToldMirror(g: Graph, req: Request)
    requires Mirror(g) && req in g.todo && g.todo[req] != []
    ensures g.todo[req][0] in g.waiting && Mirror(Told(g, req))
  {
    var g' := Told(g, req);
    forall c, q | c in g'.todo && q in g'.waiting ensures Link(g', c, q) {
      ToldLink(g, req, c, q);
    }
    forall c, q | c in g'.todo && q in g'.todo[c] ensures q in g'.todo {
      assert q in g.todo[c];
    }
  }

  lemma {:induction false} ToldCount(g: Graph, req: Request)
    requires Mirror(g) && req in g.todo && g.todo[req] != []
    ensures var p := g.todo[req][0]; p in g.waiting && |Told(g, req).waiting[p]| == |g.waiting[p]| - 1
  {
    var p := g.todo[req][0];
    assert Link(g, req, p);
    assert p in multiset(g.todo[req]);
  }

  /** A new request c that has p to tell. */
  ghost function Linked(g: Graph, c: Request, p: Request): Graph
    requires p in g.waiting
  {
    Graph(g.todo[c := [p]], g.waiting[c := multiset{}][p := g.waiting[p] + multiset{c}])
  }

  lemma {:induction false} LinkedLink(g: Graph, c: Request, p: Request, x: Request, q: Request)
    requires Mirror(g) && c !in g.todo && p in g.todo && (x == c || x in g.todo) && (q == c || q in g.todo)
    ensures x in Linked(g, c, p).todo && q in Linked(g, c, p).waiting && Link(Linked(g, c, p), x, q)
  {
    if x == c {
      assert q == c || c !in g.waiting[q];
    } else if q == c {
      assert c !in g.todo[x];
    } else {
      assert Link(g, x, q);
    }
  }

  lemma {:induction false} LinkedMirror(g: Graph, c: Request, p: Request)
    requires Mirror(g) && c !in g.todo && p in g.todo
    ensures Mirror(Linked(g, c, p)) && |Linked(g, c, p).waiting[p]| == |g.waiting[p]| + 1
  {
    var g' := Linked(g, c, p);
    forall x, q | x in g'.todo && q in g'.waiting ensures Link(g', x, q) {
      LinkedLink(g, c, p, x, q);
    }
  }

  /** Request r gets one more parent to tell. */
  ghost function Joined(g: Graph, r: Request, p: Request): Graph
    requires r in g.todo && p in g.waiting
  {
    Graph(g.todo[r := g.todo[r] + [p]], g.waiting[p := g.waiting[p] + multiset{r}])
  }

  lemma {:induction false} JoinedLink(g: Graph, r: Request, p: Request, x: Request, q: Request)
    requires r in g.todo && p in g.waiting && x in g.todo && q in g.waiting && Link(g, x, q)
    ensures x in Joined(g, r, p).todo && q in Joined(g, r, p).waiting && Link(Joined(g, r, p), x, q)
  {
  }

  lemma {:induction false} JoinedMirror(g: Graph, r: Request, p: Request)
    requires Mirror(g) && r in g.todo && p in g.todo
    ensures Mirror(Joined(g, r, p)) && |Joined(g, r, p).waiting[p]| == |g.waiting[p]| + 1
  {
    var g' := Joined(g, r, p);
    forall x, q | x in g'.todo && q in g'.waiting ensures Link(g', x, q) {
      JoinedLink(g, r, p, x, q);
    }
    forall x, q | x in g'.todo && q in g'.todo[x] ensures q in g'.todo {
      assert q in g.todo[x] || q == p;
    }
    forall x, q | q in g'.waiting && x in g'.waiting[q] ensures x in g'.todo {
      assert x in g.waiting[q] || x == r;
    }
  }

  /** A new request that nobody depends on. */
  ghost function Added(g: Graph, c: Request): Graph {
    Graph(g.todo[c := []], g.waiting[c := multiset{}])
  }

  lemma {:induction false} AddedMirror(g: Graph, c: Request)
    requires Mirror(g) && c !in g.todo
    ensures Mirror(Added(g, c))
  {
    var g' := Added(g, c);
    forall x, q | x in g'.todo && q in g'.waiting ensures Link(g', x, q) {
      if x != c && q != c {
        assert Link(g, x, q);
      } else if x != c {
        assert c !in g.todo[x];
      } else if q != c {
        assert c !in g.waiting[q];
      }
    }
  }

  /** With nothing to wait for, nobody has it to tell. */
  lemma {:induction false} NobodyTells(g: Graph, p: Request)
    requires Mirror(g) && p in g.waiting && |g.waiting[p]| == 0
    ensures forall c | c in g.todo :: p !in g.todo[c]
  {
    forall c | c in g.todo ensures p !in g.todo[c] {
      assert Link(g, c, p);
      assert p in g.todo[c] <==> p in multiset(g.todo[c]);
    }
  }

  // ---- the completed entries ----

  /** A completed request. */
  datatype Entry = Entry(hash: Digest, data: Blob, raw: bool, callback: bool)

  function Required(e: Entry, leaf: Bytes -> Option<seq<LeafRef>>): set<Digest> {
    Needs(e.data, e.raw, e.callback, leaf)
  }

  ghost predicate Hashes(log: seq<Entry>, order: seq<Digest>) {
    |log| == |order| && forall i :: 0 <= i < |log| ==> log[i].hash == order[i]
  }

  ghost predicate Holds(log: seq<Entry>, batch: Store) {
    && (forall i :: 0 <= i < |log| ==> log[i].hash in batch && batch[log[i].hash] == log[i].data)
    && (forall h | h in batch :: exists i :: 0 <= i < |log| && log[i].hash == h)
  }

  /** Whatever an entry requires was stored before or completed before it. */
  ghost predicate Ordered(log: seq<Entry>, known: set<Digest>, leaf: Bytes -> Option<seq<LeafRef>>) {
    forall i, n :: 0 <= i < |log| && n in Required(log[i], leaf) ==>
      n in known || exists j :: 0 <= j < i && log[j].hash == n
  }

  ghost predicate Recorded(log: seq<Entry>, order: seq<Digest>, batch: Store, store: Store, leaf: Bytes -> Option<seq<LeafRef>>) {
    Hashes(log, order) && Holds(log, batch) && Ordered(log, store.Keys, leaf) && ContentAddressed(batch)
  }

  /** Of the entries completed since, only such with the data are raw. */
  ghost predicate RawOnly(log: seq<Entry>, log': seq<Entry>, data: set<Blob>) {
    log <= log' && forall i :: |log| <= i < |log'| && log'[i].raw ==> log'[i].data in data
  }

  lemma {:induction false} HoldsNext(log: seq<Entry>, batch: Store, e: Entry)
    requires Holds(log, batch) && e.hash !in batch
    ensures Holds(log + [e], batch[e.hash := e.data])
  {
    var batch' := batch[e.hash := e.data];
    forall h | h in batch'
      ensures exists i :: 0 <= i < |log + [e]| && (log + [e])[i].hash == h
    {
      if h == e.hash {
        assert (log + [e])[|log|].hash == h;
      } else {
        var i :| 0 <= i < |log| && log[i].hash == h;
        assert (log + [e])[i].hash == h;
      }
    }
  }

  lemma {:induction false} OrderedNext(log: seq<Entry>, batch: Store, known: set<Digest>, e: Entry, leaf: Bytes -> Option<seq<LeafRef>>)
    requires Holds(log, batch) && Ordered(log, known, leaf)
    requires Required(e, leaf) <= batch.Keys + known
    ensures Ordered(log + [e], known, leaf)
  {
    hide Required;
    var log' := log + [e];
    forall i, n | 0 <= i < |log'| && n in Required(log'[i], leaf)
      ensures n in known || exists j :: 0 <= j < i && log'[j].hash == n
    {
      if n !in known {
        if i < |log| {
          var j :| 0 <= j < i && log[j].hash == n;
          assert log'[j].hash == n;
        } else {
          assert n in batch;
          var j :| 0 <= j < |log| && log[j].hash == n;
          assert log'[j].hash == n;
        }
      }
    }
  }

  lemma {:induction false} RecordedNext(log: seq<Entry>, order: seq<Digest>, batch: Store, store: Store, e: Entry, leaf: Bytes -> Option<seq<LeafRef>>)
    requires Recorded(log, order, batch, store, leaf)
    requires e.hash !in batch && Required(e, leaf) <= batch.Keys + store.Keys && e.hash == Keccak(e.data)
    ensures Recorded(log + [e], order + [e.hash], batch[e.hash := e.data], store, leaf)
  {
    hide Required;
    HoldsNext(log, batch, e);
    OrderedNext(log, batch, store.Keys, e, leaf);
  }

  // ---- flushing ----

  /** The store after the first k entries in order are written. */
  ghost predicate Flushed(store: Store, order: seq<Digest>, batch: Store, k: nat, store': Store)
    requires k <= |order|
  {
    && (forall h :: h in store' <==> h in store || h in order[..k])
    && (forall h | h in store' :: if h in order[..k] then h in batch && store'[h] == batch[h] else store'[h] == store[h])
  }

  lemma {:induction false} FlushedNone(store: Store, order: seq<Digest>, batch: Store)
    ensures Flushed(store, order, batch, 0, store)
  {
  }

  lemma {:induction false} RecordedNone(store: Store, leaf: Bytes -> Option<seq<LeafRef>>)
    ensures Recorded([], [], map[], store, leaf)
  {
  }

  lemma {:induction false} RecordedBatch(log: seq<Entry>, order: seq<Digest>, batch: Store, store: Store, leaf: Bytes -> Option<seq<LeafRef>>, i: nat)
    requires Recorded(log, order, batch, store, leaf) && i < |order|
    ensures order[i] in batch && |log| == |order|
  {
  }

  lemma {:induction false} FlushedNext(store: Store, order: seq<Digest>, batch: Store, k: nat, store': Store)
    requires k < |order| && Flushed(store, order, batch, k, store') && order[k] in batch
    ensures Flushed(store, order, batch, k + 1, store'[order[k] := batch[order[k]]])
  {
    assert order[..k + 1] == order[..k] + [order[k]];
  }

  ghost predicate RefsIn(b: Blob, store: Store) {
    forall c | c in ChildrenOf(b) && c.BHash? :: c.d in store
  }

  /** No stored node refers to one that is not stored. */
  ghost predicate RefsClosed(store: Store) {
    forall h | h in store :: RefsIn(store[h], store)
  }

  ghost predicate RawClosed(log: seq<Entry>, k: nat, store: Store)
    requires k <= |log|
  {
    forall i :: 0 <= i < k && log[i].raw ==> RefsIn(log[i].data, store)
  }

  /** What the first k entries refer to is stored, or is among them. */
  ghost predicate WholeWrites(store: Store, order: seq<Digest>, batch: Store, k: nat)
    requires k <= |order|
  {
    forall i | 0 <= i < k && order[i] in batch :: forall c | c in ChildrenOf(batch[order[i]]) && c.BHash? :: c.d in store || c.d in order[..k]
  }

  lemma {:induction false} EntryRefs(e: Entry, store: Store, leaf: Bytes -> Option<seq<LeafRef>>)
    requires !e.raw && Required(e, leaf) <= store.Keys
    ensures RefsIn(e.data, store)
  {
    forall c | c in ChildrenOf(e.data) && c.BHash? ensures c.d in store {
      assert c.d in ChildNeeds(c, e.callback, leaf);
      assert c.d in Required(e, leaf);
    }
  }

  /** All that the entries written so far require is in the store: nothing waits for a later write. */
  lemma {:induction false} FlushedRequired(store: Store, log: seq<Entry>, order: seq<Digest>, batch: Store, k: nat, store': Store, leaf: Bytes -> Option<seq<LeafRef>>, i: nat)
    requires k <= |order| && Recorded(log, order, batch, store, leaf) && Flushed(store, order, batch, k, store') && i < k
    ensures Required(log[i], leaf) <= store'.Keys
  {
    hide Required;
    forall n | n in Required(log[i], leaf) ensures n in store' {
      if n !in store {
        var j :| 0 <= j < i && log[j].hash == n;
        assert order[..k][j] == n;
      }
    }
  }

  lemma {:induction false} FlushedRefs(store: Store, log: seq<Entry>, order: seq<Digest>, batch: Store, k: nat, store': Store, leaf: Bytes -> Option<seq<LeafRef>>)
    requires k <= |order| && Recorded(log, order, batch, store, leaf) && Flushed(store, order, batch, k, store')
    requires RefsClosed(store)
    ensures RefsClosed(store') <==> RawClosed(log, k, store')
    ensures RefsClosed(store') <==> WholeWrites(store, order, batch, k)
  {
    hide Required, Ordered;
    forall i | 0 <= i < k ensures log[i].hash in store' && store'[log[i].hash] == log[i].data {
      assert order[..k][i] == log[i].hash;
    }
    if RawClosed(log, k, store') {
      forall h | h in store' ensures RefsIn(store'[h], store') {
        if h in order[..k] {
          var i :| 0 <= i < k && order[i] == h;
          if !log[i].raw {
            FlushedRequired(store, log, order, batch, k, store', leaf, i);
            EntryRefs(log[i], store', leaf);
          }
        } else {
          assert RefsIn(store[h], store);
        }
      }
    }
  }

  lemma {:induction false} FlushedRecorded(store: Store, log: seq<Entry>, order: seq<Digest>, batch: Store, k: nat, store': Store, leaf: Bytes -> Option<seq<LeafRef>>)
    requires k <= |order| && Recorded(log, order, batch, store, leaf) && Flushed(store, order, batch, k, store')
    ensures Recorded(log, order, batch, store', leaf) && |log| == |order|
    ensures batch.Keys + store'.Keys == batch.Keys + store.Keys
    ensures ContentAddressed(store) ==> ContentAddressed(store')
    ensures k == |order| ==> store'.Keys == batch.Keys + store.Keys
  {
    hide Required;
    if k == |order| {
      assert order[..k] == order;
      forall h | h in batch ensures h in store' {
        var i :| 0 <= i < |log| && log[i].hash == h;
        assert order[i] == h;
      }
    }
  }

  // ---- the pending requests ----

  ghost predicate Pends(requests: map<Digest, Request>, r: Request) {
    r.hash in requests && requests[r.hash] == r
  }

  /** Each pending request is indexed by its hash, and its parents are still to be told. */
  ghost predicate Indexed(requests: map<Digest, Request>, g: Graph)
    reads g.todo.Keys`parents
  {
    forall h | h in requests ::
      requests[h].hash == h && requests[h] in g.todo && g.todo[requests[h]] == requests[h].parents
  }

  /** The dependency counter counts the notifications still to come. */
  ghost predicate Counted(g: Graph, due: Request?, extra: int)
    reads g.waiting.Keys`deps
  {
    forall p | p in g.waiting :: p.deps == |g.waiting[p]| + if p == due then extra else 0
  }

  ghost predicate Live(requests: map<Digest, Request>, p: Request)
    reads p`data
  {
    Pends(requests, p) && p.data.Some? && !p.raw
  }

  /** Only pending requests with data are waiting to be told. */
  ghost predicate Tells(requests: map<Digest, Request>, g: Graph)
    reads g.todo.Keys`data
  {
    forall c, p | c in g.todo && p in g.todo[c] :: p in g.todo && Live(requests, p)
  }

  ghost predicate Awaits(g: Graph, p: Request, n: Digest) {
    p in g.waiting && exists c | c in g.todo :: c in g.waiting[p] && c.hash == n
  }

  ghost function NeedsOf(p: Request, leaf: Bytes -> Option<seq<LeafRef>>): set<Digest>
    reads p`data
  {
    if p.data.Some? then Needs(p.data.value, p.raw, p.callback, leaf) else {}
  }

  ghost predicate Addressed(p: Request)
    reads p`data
  {
    p.data.Some? ==> p.hash == Keccak(p.data.value)
  }

  /** All that p needs is known or on its way. */
  ghost predicate Served(g: Graph, known: set<Digest>, p: Request, leaf: Bytes -> Option<seq<LeafRef>>)
    reads p`data
  {
    Addressed(p) && forall n | n in NeedsOf(p, leaf) :: n in known || Awaits(g, p, n)
  }

  ghost predicate AllServed(requests: map<Digest, Request>, g: Graph, known: set<Digest>, skip: Request?, leaf: Bytes -> Option<seq<LeafRef>>)
    reads g.todo.Keys`data
  {
    forall p | p in g.todo && Pends(requests, p) && p != skip :: Served(g, known, p, leaf)
  }

  /** Nothing that could be completed is left waiting. */
  ghost predicate Settled(requests: map<Digest, Request>, g: Graph, skip: Request?)
    reads g.todo.Keys`data
  {
    forall p | p in g.todo && Pends(requests, p) && p.data.Some? && p != skip :: p in g.waiting && |g.waiting[p]| > 0
  }

  lemma {:induction false} FinishTells(requests: map<Digest, Request>, g: Graph, req: Request)
    requires Mirror(g) && Tells(requests, g) && req in g.waiting && |g.waiting[req]| == 0 && Pends(requests, req)
    ensures Tells(requests - {req.hash}, g)
  {
    NobodyTells(g, req);
    forall c, p | c in g.todo && p in g.todo[c] ensures p in g.todo && Live(requests - {req.hash}, p) {
      assert Live(requests, p);
    }
  }

  lemma {:induction false} FinishServed(requests: map<Digest, Request>, g: Graph, known: set<Digest>, req: Request, leaf: Bytes -> Option<seq<LeafRef>>)
    requires AllServed(requests, g, known, req, leaf) && Pends(requests, req)
    ensures AllServed(requests - {req.hash}, g, known + {req.hash}, null, leaf)
  {
    hide NeedsOf;
    var requests' := requests - {req.hash};
    forall p | p in g.todo && Pends(requests', p) ensures Served(g, known + {req.hash}, p, leaf) {
      assert Pends(requests, p) && p != req;
      assert Served(g, known, p, leaf);
    }
  }

  lemma {:induction false} ReadyNeeds(g: Graph, known: set<Digest>, req: Request, leaf: Bytes -> Option<seq<LeafRef>>)
    requires Served(g, known, req, leaf) && req in g.waiting && |g.waiting[req]| == 0
    ensures NeedsOf(req, leaf) <= known && Addressed(req)
  {
    hide NeedsOf;
  }

  /** What holds of the requests and their dependencies, the counters aside. */
  ghost predicate Steady(requests: map<Digest, Request>, g: Graph, known: set<Digest>, skip: Request?, leaf: Bytes -> Option<seq<LeafRef>>)
    reads g.todo.Keys`data, g.todo.Keys`parents
  {
    Mirror(g) && Indexed(requests, g) && Tells(requests, g) && AllServed(requests, g, known, skip, leaf)
  }

  ghost predicate Sound(requests: map<Digest, Request>, g: Graph, known: set<Digest>, skip: Request?, leaf: Bytes -> Option<seq<LeafRef>>)
    reads g.todo.Keys, g.waiting.Keys
  {
    Steady(requests, g, known, skip, leaf) && Counted(g, null, 0) && Settled(requests, g, skip)
  }

  lemma {:induction false} SoundIndexed(requests: map<Digest, Request>, g: Graph, known: set<Digest>, skip: Request?, leaf: Bytes -> Option<seq<LeafRef>>)
    requires Sound(requests, g, known, skip, leaf)
    ensures Indexed(requests, g)
    ensures forall c, p | c in g.todo && p in g.todo[c] :: p in g.todo
  {
  }

  lemma {:induction false} FinishSound(requests: map<Digest, Request>, g: Graph, known: set<Digest>, req: Request, leaf: Bytes -> Option<seq<LeafRef>>)
    requires Sound(requests, g, known, req, leaf) && Served(g, known, req, leaf)
    requires Pends(requests, req) && req.deps == 0
    ensures Sound(requests - {req.hash}, g, known + {req.hash}, null, leaf)
    ensures NeedsOf(req, leaf) <= known && Addressed(req)
  {
    hide Mirror, Served, NeedsOf, Tells, AllServed;
    MirrorKeys(g);
    assert req in g.todo;
    assert req in g.waiting && |g.waiting[req]| == 0;
    FinishTells(requests, g, req);
    FinishServed(requests, g, known, req, leaf);
    ReadyNeeds(g, known, req, leaf);
  }

  lemma {:induction false} ToldServed(g: Graph, known: set<Digest>, req: Request, p: Request, leaf: Bytes -> Option<seq<LeafRef>>)
    requires req in g.todo && g.todo[req] != [] && g.todo[req][0] in g.waiting && req.hash in known
    requires Served(g, known, p, leaf)
    ensures Served(Told(g, req), known, p, leaf)
  {
    hide NeedsOf;
    var g' := Told(g, req);
    forall n | n in NeedsOf(p, leaf) ensures n in known || Awaits(g', p, n) {
      if n !in known {
        assert Awaits(g, p, n);
        var c :| c in g.todo && c in g.waiting[p] && c.hash == n;
        assert c in g'.waiting[p] && c in g'.todo;
      }
    }
  }

  lemma {:induction false} ToldTells(requests: map<Digest, Request>, g: Graph, req: Request)
    requires Mirror(g) && Tells(requests, g) && req in g.todo && g.todo[req] != []
    ensures g.todo[req][0] in g.waiting && Tells(requests, Told(g, req))
  {
    hide Live;
    MirrorKeys(g);
    var g' := Told(g, req);
    forall c, p | c in g'.todo && p in g'.todo[c] ensures p in g'.todo && Live(requests, p) {
      assert p in g.todo[c];
    }
  }

  /** Telling the first parent of a completed request keeps all but the counters. */
  lemma {:induction false} ToldSteady(requests: map<Digest, Request>, g: Graph, known: set<Digest>, req: Request, leaf: Bytes -> Option<seq<LeafRef>>)
    requires Steady(requests, g, known, null, leaf)
    requires req in g.todo && g.todo[req] != [] && !Pends(requests, req) && req.hash in known
    ensures g.todo[req][0] in g.waiting && Steady(requests, Told(g, req), known, g.todo[req][0], leaf)
    ensures Served(Told(g, req), known, g.todo[req][0], leaf) && Live(requests, g.todo[req][0])
  {
    hide Served, Mirror;
    ToldMirror(g, req);
    ToldTells(requests, g, req);
    var g' := Told(g, req);
    assert Live(requests, g.todo[req][0]) && g.todo[req][0] in g.todo;
    forall p | p in g'.todo && Pends(requests, p) ensures Served(g', known, p, leaf) {
      ToldServed(g, known, req, p, leaf);
    }
  }

  lemma {:induction false} ToldSettled(requests: map<Digest, Request>, g: Graph, req: Request)
    requires req in g.todo && g.todo[req] != [] && g.todo[req][0] in g.waiting
    requires Settled(requests, g, null)
    ensures Settled(requests, Told(g, req), g.todo[req][0])
  {
  }

  ghost predicate Shrunk(g: Graph, g': Graph, p: Request) {
    forall q | q in g'.waiting :: q in g.waiting && |g'.waiting[q]| == |g.waiting[q]| - if q == p then 1 else 0
  }

  lemma {:induction false} ToldSound(requests: map<Digest, Request>, g: Graph, known: set<Digest>, req: Request, leaf: Bytes -> Option<seq<LeafRef>>)
    requires Sound(requests, g, known, null, leaf)
    requires req in g.todo && g.todo[req] != [] && !Pends(requests, req) && req.hash in known
    ensures var p := g.todo[req][0];
            && p in g.waiting && p in g.todo && Live(requests, p)
            && Steady(requests, Told(g, req), known, p, leaf) && Settled(requests, Told(g, req), p)
            && Served(Told(g, req), known, p, leaf) && Shrunk(g, Told(g, req), p)
  {
    hide Mirror, Counted, Served, Indexed, Tells, AllServed;
    MirrorKeys(g);
    ToldSteady(requests, g, known, req, leaf);
    ToldSettled(requests, g, req);
    ToldCount(g, req);
  }

  /** What completing requests does: they move from the pending ones to the batch, and only they tell. */
  ghost predicate Advanced(requests: map<Digest, Request>, batch: Store, g: Graph,
                           requests': map<Digest, Request>, batch': Store, g': Graph, busy: Request?) {
    && g'.todo.Keys == g.todo.Keys
    && requests'.Keys <= requests.Keys
    && (forall h | h in requests' :: requests'[h] == requests[h])
    && requests'.Keys + batch'.Keys == requests.Keys + batch.Keys
    && (forall h | h in batch :: h in batch' && batch'[h] == batch[h])
    && (forall r | r in g.todo && !Pends(requests, r) :: g'.todo[r] == g.todo[r])
    && (forall r | r in g.todo && Pends(requests, r) && !Pends(requests', r) && r != busy :: g'.todo[r] == [])
  }

  lemma {:induction false} AdvancedTrans(r0: map<Digest, Request>, b0: Store, g0: Graph,
                                         r1: map<Digest, Request>, b1: Store, g1: Graph,
                                         r2: map<Digest, Request>, b2: Store, g2: Graph, busy: Request?)
    requires Advanced(r0, b0, g0, r1, b1, g1, busy) && Advanced(r1, b1, g1, r2, b2, g2, null)
    ensures Advanced(r0, b0, g0, r2, b2, g2, busy)
  {
    forall r | r in g0.todo && !Pends(r0, r) ensures g2.todo[r] == g0.todo[r] {
      assert r in g1.todo.Keys && !Pends(r1, r);
    }
    forall r | r in g0.todo && Pends(r0, r) && !Pends(r2, r) && r != busy ensures g2.todo[r] == [] {
      assert r in g1.todo.Keys;
    }
  }

  lemma {:induction false} AdvancedTold(r0: map<Digest, Request>, b0: Store, g0: Graph,
                                        r1: map<Digest, Request>, b1: Store, g1: Graph, g2: Graph, req: Request)
    requires Advanced(r0, b0, g0, r1, b1, g1, req) && Pends(r0, req) && req in g1.todo
    requires req in g2.todo && g2.todo == g1.todo[req := g2.todo[req]]
    ensures Advanced(r0, b0, g0, r1, b1, g2, req)
  {
    assert g2.todo.Keys == g1.todo.Keys;
    forall r | r in g0.todo && r != req ensures g2.todo[r] == g1.todo[r] {
      assert r in g1.todo.Keys;
    }
  }

  lemma {:induction false} AdvancedFinish(r0: map<Digest, Request>, b0: Store, g: Graph, req: Request, b: Blob)
    requires Pends(r0, req) && req.hash !in b0
    ensures Advanced(r0, b0, g, r0 - {req.hash}, b0[req.hash := b], g, req)
  {
  }

  lemma {:induction false} AdvancedDone(r0: map<Digest, Request>, b0: Store, g0: Graph,
                                        r1: map<Digest, Request>, b1: Store, g1: Graph, req: Request)
    requires Advanced(r0, b0, g0, r1, b1, g1, req) && req in g1.todo && g1.todo[req] == []
    ensures Advanced(r0, b0, g0, r1, b1, g1, null)
  {
  }

  lemma {:induction false} AdvancedFrame(r0: map<Digest, Request>, b0: Store, g0: Graph,
                                         r1: map<Digest, Request>, b1: Store, g1: Graph, req: Request)
    requires Advanced(r0, b0, g0, r1, b1, g1, null) && req in g0.todo && req.hash !in r0
    ensures r1.Keys <= r0.Keys && req in g1.todo && g1.todo[req] == g0.todo[req] && g0.todo.Keys == g1.todo.Keys
    ensures req.hash in b0 ==> req.hash in b1
  {
    assert req in g1.todo.Keys;
  }

  /** Between the calls, only pending requests have parents to tell. */
  ghost predicate Quiet(requests: map<Digest, Request>, g: Graph) {
    forall c | c in g.todo && !Pends(requests, c) :: g.todo[c] == []
  }

  lemma {:induction false} AdvancedQuiet(r0: map<Digest, Request>, b0: Store, g0: Graph,
                                         r1: map<Digest, Request>, b1: Store, g1: Graph)
    requires Advanced(r0, b0, g0, r1, b1, g1, null) && Quiet(r0, g0)
    ensures Quiet(r1, g1)
  {
    forall c | c in g1.todo && !Pends(r1, c) ensures g1.todo[c] == [] {
      assert c in g0.todo.Keys;
    }
  }

  lemma {:induction false} SubsetSize<T>(a: set<T>, b: set<T>)
    requires a <= b
    ensures |a| <= |b|
  {
    assert b == a + (b - a);
  }

  /** A request that still waits for something need not be set aside. */
  lemma {:induction false} SoundSkip(requests: map<Digest, Request>, g: Graph, known: set<Digest>, skip: Request, leaf: Bytes -> Option<seq<LeafRef>>)
    requires Sound(requests, g, known, skip, leaf) && Served(g, known, skip, leaf) && skip in g.todo && skip.deps != 0
    ensures Sound(requests, g, known, null, leaf)
  {
    hide Mirror, Served;
    MirrorKeys(g);
  }

  // ---- new requests ----

  /** Requests and their dependencies only become more. */
  ghost predicate Widens(g: Graph, g': Graph) {
    && g.todo.Keys <= g'.todo.Keys
    && (forall p | p in g.waiting :: p in g'.waiting && g.waiting[p] <= g'.waiting[p])
  }

  /** One more notification is to come for p, and none for new requests. */
  ghost predicate Gains(g: Graph, g': Graph, p: Request?) {
    forall q | q in g'.waiting ::
      |g'.waiting[q]| == (if q in g.waiting then |g.waiting[q]| else 0) + if q == p then 1 else 0
  }

  lemma {:induction false} WidensRefl(g: Graph)
    ensures Widens(g, g)
  {
  }

  lemma {:induction false} WidensKeys(g: Graph, g': Graph)
    requires Widens(g, g')
    ensures g.todo.Keys <= g'.todo.Keys
  {
  }

  lemma {:induction false} WidensTrans(g0: Graph, g1: Graph, g2: Graph)
    requires Widens(g0, g1) && Widens(g1, g2)
    ensures Widens(g0, g2)
  {
  }

  lemma {:induction false} AwaitsMono(g: Graph, g': Graph, p: Request, n: Digest)
    requires Widens(g, g') && Awaits(g, p, n)
    ensures Awaits(g', p, n)
  {
    var c :| c in g.todo && c in g.waiting[p] && c.hash == n;
    assert c in g'.todo.Keys;
    assert g.waiting[p] <= g'.waiting[p];
    assert g'.waiting[p][c] >= g.waiting[p][c] > 0;
  }

  lemma {:induction false} ServedMono(g: Graph, g': Graph, known: set<Digest>, p: Request, leaf: Bytes -> Option<seq<LeafRef>>)
    requires Widens(g, g') && Served(g, known, p, leaf)
    ensures Served(g', known, p, leaf)
  {
    hide NeedsOf, Awaits, Widens;
    forall n | n in NeedsOf(p, leaf) ensures n in known || Awaits(g', p, n) {
      if n !in known {
        AwaitsMono(g, g', p, n);
      }
    }
  }

  /** A request enters the graph, with p to tell if there is one. */
  ghost function Entered(g: Graph, c: Request, p: Request?): Graph
    requires p != null ==> p in g.waiting
  {
    if p == null then Added(g, c) else Linked(g, c, p)
  }

  ghost function Attached(g: Graph, r: Request, p: Request?): Graph
    requires r in g.todo && (p != null ==> p in g.waiting)
  {
    if p == null then g else Joined(g, r, p)
  }

  ghost function Parents(p: Request?): seq<Request> {
    if p == null then [] else [p]
  }

  lemma {:induction false} EnteredGraph(g: Graph, c: Request, p: Request?)
    requires Mirror(g) && c !in g.todo && (p != null ==> p in g.todo)
    ensures p != null ==> p in g.waiting
    ensures Mirror(Entered(g, c, p)) && Widens(g, Entered(g, c, p)) && Gains(g, Entered(g, c, p), p)
    ensures Entered(g, c, p).todo == g.todo[c := Parents(p)]
    ensures p != null ==> Awaits(Entered(g, c, p), p, c.hash)
  {
    hide Mirror;
    MirrorKeys(g);
    if p == null {
      AddedMirror(g, c);
    } else {
      LinkedMirror(g, c, p);
      LinkedGraph(g, c, p);
    }
  }

  lemma {:induction false} LinkedGraph(g: Graph, c: Request, p: Request)
    requires g.todo.Keys == g.waiting.Keys && c !in g.todo && p in g.waiting
    requires |Linked(g, c, p).waiting[p]| == |g.waiting[p]| + 1
    ensures Widens(g, Linked(g, c, p)) && Gains(g, Linked(g, c, p), p) && Awaits(Linked(g, c, p), p, c.hash)
  {
    assert c !in g.waiting.Keys && p in g.todo.Keys;
    assert c in Linked(g, c, p).waiting[p] && c in Linked(g, c, p).todo;
  }

  lemma {:induction false} AttachedGraph(g: Graph, r: Request, p: Request?)
    requires Mirror(g) && r in g.todo && (p != null ==> p in g.todo)
    ensures p != null ==> p in g.waiting
    ensures Mirror(Attached(g, r, p)) && Widens(g, Attached(g, r, p)) && Gains(g, Attached(g, r, p), p)
    ensures Attached(g, r, p).todo == g.todo[r := g.todo[r] + Parents(p)]
    ensures p != null ==> Awaits(Attached(g, r, p), p, r.hash)
  {
    hide Mirror;
    MirrorKeys(g);
    if p == null {
      assert g.todo[r] + [] == g.todo[r];
    } else {
      JoinedMirror(g, r, p);
      assert r in Joined(g, r, p).waiting[p] && r in Joined(g, r, p).todo;
    }
  }

  ghost predicate Extends(requests: map<Digest, Request>, requests': map<Digest, Request>) {
    forall h | h in requests :: h in requests' && requests'[h] == requests[h]
  }

  /** The pending requests of an extension that were in the graph were pending before. */
  ghost predicate NoneRevived(requests: map<Digest, Request>, requests': map<Digest, Request>, g: Graph) {
    forall r | r in g.todo && Pends(requests', r) :: Pends(requests, r)
  }

  ghost predicate Unloaded(g: Graph, g': Graph)
    reads g'.todo.Keys`data
  {
    forall r | r in g'.todo && r !in g.todo :: r.data == None
  }

  /** All that is newly to be told is p. */
  ghost predicate TellsMore(g: Graph, g': Graph, p: Request?) {
    forall c, q | c in g'.todo && q in g'.todo[c] :: q == p || (c in g.todo && q in g.todo[c])
  }

  lemma {:induction false} GrowTells(requests: map<Digest, Request>, requests': map<Digest, Request>, g: Graph, g': Graph, p: Request?)
    requires Extends(requests, requests') && Widens(g, g') && TellsMore(g, g', p)
    requires Tells(requests, g) && (p != null ==> p in g.todo && Live(requests, p))
    ensures Tells(requests', g')
  {
    forall c, q | c in g'.todo && q in g'.todo[c] ensures q in g'.todo && Live(requests', q) {
      assert q in g.todo.Keys && Live(requests, q);
    }
  }

  lemma {:induction false} GrowServed(requests: map<Digest, Request>, requests': map<Digest, Request>, g: Graph, g': Graph, known: set<Digest>, skip: Request?, leaf: Bytes -> Option<seq<LeafRef>>)
    requires NoneRevived(requests, requests', g) && Widens(g, g') && Unloaded(g, g')
    requires AllServed(requests, g, known, skip, leaf)
    ensures AllServed(requests', g', known, skip, leaf)
  {
    hide Served, Widens;
    forall q | q in g'.todo && Pends(requests', q) && q != skip ensures Served(g', known, q, leaf) {
      if q in g.todo {
        ServedMono(g, g', known, q, leaf);
      } else {
        Unneeded(g', known, q, leaf);
      }
    }
  }

  lemma {:induction false} Idle(requests: map<Digest, Request>, g: Graph, r: Request)
    requires Mirror(g) && Tells(requests, g) && r in g.todo && !Live(requests, r)
    ensures r in g.waiting && |g.waiting[r]| == 0
  {
    forall c | c in g.todo ensures c !in g.waiting[r] {
      assert Link(g, c, r);
      assert r !in g.todo[c];
    }
    assert forall c :: c !in g.waiting[r];
    assert g.waiting[r] == multiset{};
  }

  lemma {:induction false} Unneeded(g: Graph, known: set<Digest>, q: Request, leaf: Bytes -> Option<seq<LeafRef>>)
    requires q.data == None
    ensures Served(g, known, q, leaf)
  {
  }

  lemma {:induction false} GrowSettled(requests: map<Digest, Request>, requests': map<Digest, Request>, g: Graph, g': Graph, skip: Request?)
    requires NoneRevived(requests, requests', g) && Widens(g, g') && Unloaded(g, g')
    requires Settled(requests, g, skip)
    ensures Settled(requests', g', skip)
  {
    forall q | q in g'.todo && Pends(requests', q) && q.data.Some? && q != skip
      ensures q in g'.waiting && |g'.waiting[q]| > 0
    {
      assert q in g.todo && Pends(requests, q);
      Larger(g.waiting[q], g'.waiting[q]);
    }
  }

  lemma {:induction false} Larger<T>(a: multiset<T>, b: multiset<T>)
    requires a <= b
    ensures |a| <= |b|
  {
    assert b == a + (b - a);
  }

  /** The invariant while skip is at work on and extra of its dependencies are counted ahead. */
  ghost predicate Owed(requests: map<Digest, Request>, g: Graph, known: set<Digest>, skip: Request?, extra: int, leaf: Bytes -> Option<seq<LeafRef>>)
    reads g.todo.Keys, g.waiting.Keys
  {
    Steady(requests, g, known, skip, leaf) && Settled(requests, g, skip) && Counted(g, skip, extra) && Quiet(requests, g)
  }

  lemma {:induction false} EnterShape(requests: map<Digest, Request>, g: Graph, g': Graph, c: Request, p: Request?)
    requires c !in g.todo && c.data == None && c.hash !in requests && c.parents == Parents(p)
    requires g'.todo == g.todo[c := Parents(p)] && Indexed(requests, g)
    ensures TellsMore(g, g', p) && Unloaded(g, g') && NoneRevived(requests, requests[c.hash := c], g)
    ensures Indexed(requests[c.hash := c], g')
  {
  }

  lemma {:induction false} EnterSteady(requests: map<Digest, Request>, g: Graph, known: set<Digest>, skip: Request?, leaf: Bytes -> Option<seq<LeafRef>>, c: Request, p: Request?)
    requires Steady(requests, g, known, skip, leaf) && Settled(requests, g, skip)
    requires c !in g.todo && c.data == None && c.hash !in requests && c.parents == Parents(p)
    requires p != null ==> p in g.todo && Live(requests, p)
    ensures p != null ==> p in g.waiting
    ensures Steady(requests[c.hash := c], Entered(g, c, p), known, skip, leaf)
    ensures Settled(requests[c.hash := c], Entered(g, c, p), skip)
    ensures Widens(g, Entered(g, c, p)) && Gains(g, Entered(g, c, p), p)
    ensures Entered(g, c, p).todo == g.todo[c := Parents(p)]
    ensures p != null ==> Awaits(Entered(g, c, p), p, c.hash)
  {
    hide Mirror, AllServed, Settled, Tells, Entered, Gains, Awaits, Widens, Indexed, Unloaded, TellsMore, NoneRevived;
    EnteredGraph(g, c, p);
    var g', requests' := Entered(g, c, p), requests[c.hash := c];
    EnterShape(requests, g, g', c, p);
    GrowTells(requests, requests', g, g', p);
    GrowServed(requests, requests', g, g', known, skip, leaf);
    GrowSettled(requests, requests', g, g', skip);
  }

  lemma {:induction false} AttachSteady(requests: map<Digest, Request>, g: Graph, known: set<Digest>, skip: Request?, leaf: Bytes -> Option<seq<LeafRef>>, r: Request, p: Request?)
    requires Steady(requests, g, known, skip, leaf) && Settled(requests, g, skip)
    requires r in g.todo && (p != null ==> p in g.todo && Live(requests, p))
    ensures p != null ==> p in g.waiting
    ensures var g' := Attached(g, r, p);
            && Mirror(g') && Tells(requests, g') && AllServed(requests, g', known, skip, leaf) && Settled(requests, g', skip)
            && Widens(g, g') && Gains(g, g', p) && (p != null ==> Awaits(g', p, r.hash))
            && g'.todo == g.todo[r := g.todo[r] + Parents(p)]
  {
    AttachedGraph(g, r, p);
    hide Mirror, AllServed, Settled, Tells, Attached, Gains, Awaits, Widens;
    var g' := Attached(g, r, p);
    assert TellsMore(g, g', p);
    assert Unloaded(g, g');
    assert NoneRevived(requests, requests, g);
    GrowTells(requests, requests, g, g', p);
    GrowServed(requests, requests, g, g', known, skip, leaf);
    GrowSettled(requests, requests, g, g', skip);
  }

  lemma {:induction false} GainsCounted(g: Graph, g': Graph, skip: Request?, extra: int, p: Request?)
    requires Counted(g, skip, extra) && Gains(g, g', p) && (p == skip || p == null)
    requires Mirror(g) && Mirror(g')
    requires forall q | q in g'.todo && q !in g.todo :: q.deps == 0 && q != skip
    ensures Counted(g', skip, extra - |Parents(p)|)
  {
    hide Mirror;
    MirrorKeys(g);
    MirrorKeys(g');
  }

  lemma {:induction false} EnterQuiet(requests: map<Digest, Request>, g: Graph, g': Graph, c: Request, p: Request?)
    requires Quiet(requests, g) && c.hash !in requests && c !in g.todo && g'.todo == g.todo[c := Parents(p)]
    ensures Quiet(requests[c.hash := c], g')
  {
    var requests' := requests[c.hash := c];
    forall r | r in g'.todo && !Pends(requests', r) ensures g'.todo[r] == [] {
      assert r != c && r in g.todo && !Pends(requests, r);
    }
  }

  lemma {:induction false} AttachQuiet(requests: map<Digest, Request>, g: Graph, g': Graph, r: Request, p: Request?)
    requires Quiet(requests, g) && Pends(requests, r) && r in g.todo && g'.todo == g.todo[r := g.todo[r] + Parents(p)]
    ensures Quiet(requests, g')
  {
    forall c | c in g'.todo && !Pends(requests, c) ensures g'.todo[c] == [] {
      assert c != r && c in g.todo;
    }
  }

  lemma {:induction false} EnterOwed(requests: map<Digest, Request>, g: Graph, known: set<Digest>, skip: Request?, extra: int, leaf: Bytes -> Option<seq<LeafRef>>, c: Request, p: Request?)
    requires Owed(requests, g, known, skip, extra, leaf) && (p == skip || p == null)
    requires c !in g.todo && c.data == None && c.hash !in requests && c.parents == Parents(p) && c.deps == 0 && c != skip
    requires p != null ==> p in g.todo && Live(requests, p)
    ensures p != null ==> p in g.waiting
    ensures Owed(requests[c.hash := c], Entered(g, c, p), known, skip, extra - |Parents(p)|, leaf)
    ensures Widens(g, Entered(g, c, p)) && (p != null ==> Awaits(Entered(g, c, p), p, c.hash))
    ensures Entered(g, c, p).todo == g.todo[c := Parents(p)]
  {
    hide Mirror, AllServed, Settled, Tells, Entered, Gains, Awaits, Widens, Counted, Quiet, Indexed;
    EnterSteady(requests, g, known, skip, leaf, c, p);
    EnterQuiet(requests, g, Entered(g, c, p), c, p);
    GainsCounted(g, Entered(g, c, p), skip, extra, p);
  }

  lemma {:induction false} AttachCounted(requests: map<Digest, Request>, g: Graph, known: set<Digest>, skip: Request?, extra: int, leaf: Bytes -> Option<seq<LeafRef>>, r: Request, p: Request?)
    requires Owed(requests, g, known, skip, extra, leaf) && (p == skip || p == null)
    requires r in g.todo && (p != null ==> p in g.todo && Live(requests, p))
    ensures p != null ==> p in g.waiting
    ensures Counted(Attached(g, r, p), skip, extra - |Parents(p)|)
  {
    hide AllServed, Settled, Tells, Attached, Gains, Awaits, Widens, Counted;
    AttachSteady(requests, g, known, skip, leaf, r, p);
    GainsCounted(g, Attached(g, r, p), skip, extra, p);
  }

  lemma {:induction false} OwedSettled(requests: map<Digest, Request>, g: Graph, known: set<Digest>, req: Request, leaf: Bytes -> Option<seq<LeafRef>>)
    requires Owed(requests, g, known, req, 0, leaf) && Served(g, known, req, leaf) && req in g.todo && req.deps != 0
    ensures Sound(requests, g, known, null, leaf) && Quiet(requests, g)
  {
    hide Steady, Settled, Served;
    assert Sound(requests, g, known, req, leaf);
    SoundSkip(requests, g, known, req, leaf);
  }

  lemma {:induction false} OwedCount(requests: map<Digest, Request>, g: Graph, known: set<Digest>, req: Request, leaf: Bytes -> Option<seq<LeafRef>>)
    requires Owed(requests, g, known, req, 0, leaf) && req in g.todo
    ensures req in g.waiting && req.deps == |g.waiting[req]|
  {
    hide Mirror, Settled;
    MirrorKeys(g);
  }

  lemma {:induction false} OwedSound(requests: map<Digest, Request>, g: Graph, known: set<Digest>, req: Request?, leaf: Bytes -> Option<seq<LeafRef>>)
    requires Owed(requests, g, known, req, 0, leaf)
    ensures Sound(requests, g, known, req, leaf) && Quiet(requests, g)
  {
    hide Steady, Settled;
  }

  lemma {:induction false} OwedIndexed(requests: map<Digest, Request>, g: Graph, known: set<Digest>, skip: Request?, extra: int, leaf: Bytes -> Option<seq<LeafRef>>)
    requires Owed(requests, g, known, skip, extra, leaf)
    ensures Indexed(requests, g)
  {
  }

  lemma {:induction false} EmptyOwed(known: set<Digest>, leaf: Bytes -> Option<seq<LeafRef>>)
    ensures Owed(map[], Graph(map[], map[]), known, null, 0, leaf)
  {
  }

  ghost predicate Lists(list: seq<Request>, n: Digest) {
    exists i :: 0 <= i < |list| && list[i].hash == n
  }

  /** Requests made for parent req and not scheduled yet. */
  ghost predicate Unscheduled(list: seq<Request>, req: Request, g: Graph, batch: Store)
    reads list
  {
    && (forall i, j :: 0 <= i < j < |list| ==> list[i] != list[j])
    && (forall i :: 0 <= i < |list| ==> list[i] != req && list[i] !in g.todo && list[i].hash !in batch)
    && (forall i :: 0 <= i < |list| ==> list[i].data == None && list[i].deps == 0 && list[i].parents == [req])
    && (forall i :: 0 <= i < |list| ==> !list[i].raw && list[i].callback == req.callback)
  }

  // ---- what the counters count ----

  /** How often p is listed as a parent by requests rs. */
  ghost function Occurrences(rs: set<Request>, p: Request): nat
    reads rs`parents
  {
    if rs == {} then 0
    else var c :| c in rs; multiset(c.parents)[p] + Occurrences(rs - {c}, p)
  }

  lemma {:induction false} OccurrencesSum(rs: set<Request>, p: Request, w: multiset<Request>)
    requires forall c | c in rs :: multiset(c.parents)[p] == w[c]
    requires forall c | c in w :: c in rs
    ensures Occurrences(rs, p) == |w|
    decreases |rs|
  {
    if rs == {} {
      assert w == multiset{};
    } else {
      var c: Request :| c in rs && Occurrences(rs, p) == multiset(c.parents)[p] + Occurrences(rs - {c}, p);
      var w' := w[c := 0];
      OccurrencesSum(rs - {c}, p, w');
      assert w == w'[c := w[c]];
    }
  }

  // ---- the scheduler ----

  class TrieSync {
    const database: Database
    const leaf: Bytes -> Option<seq<LeafRef>>
    var batch: Store
    var order: seq<Digest>
    var requests: map<Digest, Request>
    ghost var g: Graph
    ghost var log: seq<Entry>  // the entries of the batch
    ghost var past: seq<Entry>  // the entries of earlier batches

    constructor (root: Digest, database: Database, leaf: Bytes -> Option<seq<LeafRef>>, callback: bool)
      ensures this.database == database && this.leaf == leaf && Valid()
      ensures batch == map[] && order == [] && log == [] && past == [] && fresh(g.todo.Keys)
      ensures root == EmptyRoot || root in Known() + requests.Keys
      ensures root in requests ==> Awaited(root, false, callback)
      ensures requests.Keys == if HasNode(root) then {} else {root}
    {
      this.database, this.leaf := database, leaf;
      batch, order, requests := map[], [], map[];
      g, log, past := Graph(map[], map[]), [], [];
      new;
      hide Recorded, Owed, Sound, Quiet, HasNode;
      RecordedNone(database.store, leaf);
      EmptyOwed(Known(), leaf);
      AddRoot(root, callback);
    }

    /** Ask for a trie that nothing waits for. */
    method AddRoot(root: Digest, callback: bool)
      requires Stored() && Owed(requests, g, Known(), null, 0, leaf)
      modifies this`requests, this`g, g.todo.Keys`parents, g.todo.Keys`deps
      ensures Valid() && forall r | r in g.todo && r !in old(g.todo) :: fresh(r)
      ensures root == EmptyRoot || root in Known() + requests.Keys
      ensures requests.Keys == old(requests.Keys) + if HasNode(root) then {} else {root}
      ensures root in requests && root !in old(requests) ==> Awaited(root, false, callback)
    {
      hide Recorded, Owed, Sound, Quiet, Awaits, Widens, HasNode;
      AddSubTrie(root, ZeroHash, callback);
      OwedSound(requests, g, Known(), null, leaf);
    }

    ghost function Known(): set<Digest>
      reads this, database
    {
      batch.Keys + database.store.Keys
    }

    /** The hashes asked for, now or before, as raw entries. */
    ghost function RawHashes(): set<Digest>
      reads this`requests, this`past, this`log
    {
      RawPending(requests) + RawLogged(past + log)
    }

    ghost predicate Stored()
      reads this, database
    {
      requests.Keys !! batch.Keys && Recorded(log, order, batch, database.store, leaf)
    }

    ghost predicate Inv(skip: Request?)
      reads this, database, g.todo.Keys, g.waiting.Keys
    {
      Stored() && Sound(requests, g, Known(), skip, leaf)
    }

    ghost predicate Valid()
      reads this, database, g.todo.Keys, g.waiting.Keys
    {
      Inv(null) && Quiet(requests, g)
    }

    /** Whoever a pending request lists as a parent is pending itself, as a node whose data has come. */
    lemma {:induction false} ParentsLive(c: Request, p: Request)
      requires Valid() && c in requests.Values && p in c.parents
      ensures Live(requests, p)
    {
      var h :| h in requests && requests[h] == c;
      assert p in g.todo[c];
    }

    /** The dependency counter of a pending request is the number of times that pending requests list it as a
        parent; and what has its data waits for a pending request. */
    lemma {:induction false} DepsCountParents(p: Request)
      requires Valid() && Pends(requests, p)
      ensures p.deps == Occurrences(requests.Values, p)
      ensures p.data.Some? ==> exists c :: c in requests.Values && p in c.parents
    {
      hide Stored, AllServed;
      MirrorKeys(g);
      forall c | c in requests.Values ensures c in g.todo && g.todo[c] == c.parents {
        var h :| h in requests && requests[h] == c;
      }
      assert p in g.todo;
      forall c | c in requests.Values ensures multiset(c.parents)[p] == g.waiting[p][c] {
        assert Link(g, c, p);
      }
      forall c | c in g.waiting[p] ensures c in requests.Values && p in c.parents {
        assert Link(g, c, p);
        assert p in multiset(g.todo[c]);
        assert Pends(requests, c);
      }
      OccurrencesSum(requests.Values, p, g.waiting[p]);
      if p.data.Some? {
        var c :| c in g.waiting[p];
      }
    }

    ghost function RawData(req: Request): set<Blob>
      reads req`data
    {
      if req.raw && req.data.Some? then {req.data.value} else {}
    }

    /** A request whose dependencies are all there moves to the batch. */
    method Finish(req: Request)
      requires Inv(req) && Served(g, Known(), req, leaf) && Pends(requests, req) && req.data.Some? && req.deps == 0
      modifies this
      ensures Inv(null) && g == old(g) && requests == old(requests) - {req.hash}
      ensures batch == old(batch)[req.hash := req.data.value] && order == old(order) + [req.hash]
      ensures req in g.todo && g.todo[req] == req.parents && req.hash !in old(batch)
      ensures past == old(past) && RawOnly(old(log), log, RawData(req))
    {
      hide Sound, Served, Recorded, Needs;
      assert req in g.todo && g.todo[req] == req.parents by { SoundIndexed(requests, g, Known(), req, leaf); }
      FinishSound(requests, g, Known(), req, leaf);
      ghost var e := Entry(req.hash, req.data.value, req.raw, req.callback);
      RecordedNext(log, order, batch, database.store, e, leaf);
      ghost var rs: set<object> := g.todo.Keys + g.waiting.Keys;
      assert this !in rs;
      assert Sound(requests - {req.hash}, g, Known() + {req.hash}, null, leaf);
      log := log + [e];
      batch := batch[req.hash := req.data.value];
      order := order + [req.hash];
      requests := requests - {req.hash};
      assert Known() == old(Known()) + {req.hash};
      assert Stored();
      assert Sound(requests, g, Known(), null, leaf);
    }

    /** A completed request tells its next parent. */
    method Tell(req: Request, parent: Request)
      requires Inv(null) && req in g.todo && g.todo[req] != [] && parent == g.todo[req][0]
      requires !Pends(requests, req) && req.hash in Known()
      modifies this`g, parent`deps
      ensures Stored() && Sound(requests, g, Known(), parent, leaf) && Served(g, Known(), parent, leaf)
      ensures g.todo == old(g.todo)[req := old(g.todo[req])[1..]] && Live(requests, parent) && parent in g.todo
    {
      hide Settled, Steady, Served, Recorded;
      ToldSound(requests, g, Known(), req, leaf);
      parent.deps := parent.deps - 1;
      g := Told(g, req);
    }

    method Complete(req: Request)
      requires Inv(req) && Served(g, Known(), req, leaf) && Pends(requests, req) && req.data.Some? && req.deps == 0
      modifies this, g.todo.Keys`deps
      ensures Inv(null) && req.hash in batch
      ensures Advanced(old(requests), old(batch), old(g), requests, batch, g, null) && old(order) < order
      ensures past == old(past) && RawOnly(old(log), log, RawData(req))
      decreases |requests|, 1
    {
      hide Inv, Served, Advanced;
      Finish(req);
      AdvancedFinish(old(requests), old(batch), g, req, req.data.value);
      var i := 0;
      while i < |req.parents|
        invariant 0 <= i <= |req.parents|
        invariant Inv(null) && req.hash in batch
        invariant req in g.todo && g.todo[req] == req.parents[i..]
        invariant requests.Keys <= old(requests.Keys) - {req.hash} && g.todo.Keys == old(g.todo.Keys)
        invariant Advanced(old(requests), old(batch), old(g), requests, batch, g, req) && old(order) < order
        invariant past == old(past) && RawOnly(old(log), log, RawData(req))
      {
        SubsetSize(requests.Keys, old(requests.Keys) - {req.hash});
        Notify(req, req.parents[i], old(requests), old(batch), old(g));
        i := i + 1;
      }
      AdvancedDone(old(requests), old(batch), old(g), requests, batch, g, req);
    }

    /** Tell the next parent, and complete it when that was the last it waited for. */
    method Notify(req: Request, parent: Request, ghost r0: map<Digest, Request>, ghost b0: Store, ghost g0: Graph)
      requires Inv(null) && req in g.todo && g.todo[req] != [] && g.todo[req][0] == parent
      requires req.hash in batch && req.hash !in requests
      requires Advanced(r0, b0, g0, requests, batch, g, req) && Pends(r0, req)
      modifies this, g.todo.Keys`deps
      ensures Inv(null) && req.hash in batch
      ensures req in g.todo && g.todo[req] == old(g.todo[req])[1..]
      ensures Advanced(r0, b0, g0, requests, batch, g, req) && old(order) <= order
      ensures requests.Keys <= old(requests.Keys) && g.todo.Keys == old(g.todo.Keys) && past == old(past) && RawOnly(old(log), log, {})
      decreases |requests|, 2
    {
      hide Sound, Served, Stored, Advanced;
      ghost var r1, b1, g1 := requests, batch, g;
      assert parent in g.todo.Keys by { SoundIndexed(requests, g, Known(), null, leaf); assert parent in g.todo[req]; }
      Tell(req, parent);
      AdvancedTold(r0, b0, g0, r1, b1, g1, g, req);
      assert g.todo.Keys == g1.todo.Keys;
      if parent.deps == 0 {
        ghost var r2, b2, g2 := requests, batch, g;
        Complete(parent);
        AdvancedTrans(r0, b0, g0, r2, b2, g2, requests, batch, g, req);
        AdvancedFrame(r2, b2, g2, requests, batch, g, req);
      } else {
        SoundSkip(requests, g, Known(), parent, leaf);
      }
    }

    /** A request for data already asked for only adds its parent to the earlier one. */
    method Schedule(req: Request, ghost p: Request?, ghost skip: Request?, ghost extra: int)
      requires Stored() && Owed(requests, g, Known(), skip, extra, leaf) && (p == skip || p == null)
      requires req !in g.todo && req.data == None && req.hash !in batch && req.deps == 0 && req.parents == Parents(p)
      requires req != skip && (p != null ==> p in g.todo && Live(requests, p))
      modifies this`requests, this`g, g.todo.Keys`parents
      ensures Stored() && Owed(requests, g, Known(), skip, extra - |Parents(p)|, leaf)
      ensures Extends(old(requests), requests) && requests.Keys == old(requests.Keys) + {req.hash}
      ensures Widens(old(g), g) && (p != null ==> Awaits(g, p, req.hash))
      ensures g.todo.Keys <= old(g.todo.Keys) + {req} && (req.hash !in old(requests) ==> requests[req.hash] == req)
    {
      hide Steady, Owed, Recorded, Indexed;
      if req.hash in requests {
        var earlier := requests[req.hash];
        assert earlier.hash == req.hash && earlier in g.todo by { OwedIndexed(requests, g, Known(), skip, extra, leaf); }
        Merge(earlier, req.parents, p, skip, extra);
      } else {
        Insert(req, p, skip, extra);
      }
    }

    method Merge(earlier: Request, parents: seq<Request>, ghost p: Request?, ghost skip: Request?, ghost extra: int)
      requires Stored() && Owed(requests, g, Known(), skip, extra, leaf) && (p == skip || p == null)
      requires Pends(requests, earlier) && earlier in g.todo && parents == Parents(p)
      requires p != null ==> p in g.todo && Live(requests, p)
      modifies this`g, earlier`parents
      ensures Stored() && Owed(requests, g, Known(), skip, extra - |Parents(p)|, leaf)
      ensures Widens(old(g), g) && (p != null ==> Awaits(g, p, earlier.hash))
      ensures g.todo.Keys == old(g.todo.Keys)
    {
      hide Mirror, Tells, AllServed, Settled, Recorded, Widens, Awaits, Counted, Attached, Gains, Quiet;
      AttachSteady(requests, g, Known(), skip, leaf, earlier, p);
      AttachCounted(requests, g, Known(), skip, extra, leaf, earlier, p);
      AttachQuiet(requests, g, Attached(g, earlier, p), earlier, p);
      earlier.parents := earlier.parents + parents;
      g := Attached(g, earlier, p);
    }

    method Insert(req: Request, ghost p: Request?, ghost skip: Request?, ghost extra: int)
      requires Stored() && Owed(requests, g, Known(), skip, extra, leaf) && (p == skip || p == null)
      requires req !in g.todo && req.data == None && req.hash !in batch && req.deps == 0 && req.parents == Parents(p)
      requires req.hash !in requests && req != skip && (p != null ==> p in g.todo && Live(requests, p))
      modifies this`requests, this`g
      ensures Stored() && Owed(requests, g, Known(), skip, extra - |Parents(p)|, leaf)
      ensures requests == old(requests)[req.hash := req]
      ensures Widens(old(g), g) && (p != null ==> Awaits(g, p, req.hash))
      ensures g.todo.Keys == old(g.todo.Keys) + {req}
    {
      hide Owed, Recorded, Widens, Awaits, Entered;
      EnterOwed(requests, g, Known(), skip, extra, leaf, req, p);
      requests := requests[req.hash := req];
      g := Entered(g, req, p);
    }

    /** The request a parent hash stands for; the zero hash stands for none. */
    ghost function Ancestor(parent: Digest): Request?
      reads this
    {
      if parent != ZeroHash && parent in requests then requests[parent] else null
    }

    ghost predicate Linkable(parent: Digest)
      reads this, g.todo.Keys`data
    {
      parent == ZeroHash || (parent in requests && requests[parent] in g.todo && Live(requests, requests[parent]))
    }

    /** What stays of the requests while new ones are added. */
    twostate predicate Grew()
      reads this
    {
      && Extends(old(requests), requests) && Widens(old(g), g)
      && (forall r | r in g.todo && r !in old(g.todo) :: fresh(r))
    }

    /** What is newly asked for is asked for as a raw entry and without the callback, if it is among raws; as a node and
        without the callback, if it is among subs. */
    twostate predicate AskedAs(raws: set<Digest>, subs: set<Digest>)
      reads this`requests, requests.Values`data
    {
      forall h | h in requests && h !in old(requests) ::
        Awaited(h, requests[h].raw, false) && if requests[h].raw then h in raws else h in subs
    }

    method CountDep(parent: Request)
      requires Stored() && Owed(requests, g, Known(), parent, 0, leaf) && parent in g.todo
      modifies parent`deps
      ensures Stored() && Owed(requests, g, Known(), parent, 1, leaf)
    {
      hide Steady, Settled, Recorded;
      parent.deps := parent.deps + 1;
    }

    /** Asked for, and no data has come yet. */
    ghost predicate Awaited(hash: Digest, raw: bool, callback: bool)
      reads this`requests, requests.Values`data
    {
      hash in requests && requests[hash].raw == raw && requests[hash].callback == callback && requests[hash].data == None
    }

    method Enlist(hash: Digest, raw: bool, callback: bool, parent: Digest)
      requires Stored() && Linkable(parent) && Owed(requests, g, Known(), Ancestor(parent), 0, leaf) && hash !in batch
      modifies this`requests, this`g, g.todo.Keys`parents, g.todo.Keys`deps
      ensures Stored() && Linkable(parent) && Owed(requests, g, Known(), Ancestor(parent), 0, leaf)
      ensures Ancestor(parent) == old(Ancestor(parent)) && Grew()
      ensures requests.Keys == old(requests.Keys) + {hash}
      ensures hash !in old(requests) ==> Awaited(hash, raw, callback)
      ensures parent != ZeroHash ==> Awaits(g, requests[parent], hash)
    {
      hide Owed, Recorded, Awaits;
      if parent == ZeroHash {
        var req := new Request(hash, raw, callback, []);
        Schedule(req, null, null, 0);
      } else {
        var ancestor := requests[parent];
        CountDep(ancestor);
        var req := new Request(hash, raw, callback, [ancestor]);
        Schedule(req, ancestor, ancestor, 1);
      }
    }

    /** What is asked for is empty, already there, or asked for, and then the parent waits for it. */
    ghost predicate Covers(hash: Digest, parent: Digest)
      reads this, database
      requires parent == ZeroHash || parent in requests
    {
      hash in Known() || (hash in requests && (parent != ZeroHash ==> Awaits(g, requests[parent], hash)))
    }

    /** The trie is empty, or its root node is there. */
    ghost predicate HasNode(root: Digest)
      reads this`batch, database
    {
      root == EmptyRoot || root in batch || (root in database.store && Decodes(database.store[root]))
    }

    method AddSubTrie(root: Digest, parent: Digest, callback: bool)
      requires Stored() && Linkable(parent) && Owed(requests, g, Known(), Ancestor(parent), 0, leaf)
      modifies this`requests, this`g, g.todo.Keys`parents, g.todo.Keys`deps
      ensures Stored() && Linkable(parent) && Owed(requests, g, Known(), Ancestor(parent), 0, leaf)
      ensures Ancestor(parent) == old(Ancestor(parent)) && Grew()
      ensures root == EmptyRoot || Covers(root, parent)
      ensures requests.Keys == old(requests.Keys) + if HasNode(root) then {} else {root}
      ensures root in requests && root !in old(requests) ==> Awaited(root, false, callback)
    {
      hide Owed, Recorded, Awaits, Decodes;
      if root == EmptyRoot {
        return;
      }
      if root in batch {
        return;
      }
      if root in database.store && Decodes(database.store[root]) {
        return;
      }
      Enlist(root, false, callback, parent);
    }

    method AddRawEntry(hash: Digest, parent: Digest)
      requires Stored() && Linkable(parent) && Owed(requests, g, Known(), Ancestor(parent), 0, leaf)
      modifies this`requests, this`g, g.todo.Keys`parents, g.todo.Keys`deps
      ensures Stored() && Linkable(parent) && Owed(requests, g, Known(), Ancestor(parent), 0, leaf)
      ensures Ancestor(parent) == old(Ancestor(parent)) && Grew()
      ensures hash == EMPTY_STATE || Covers(hash, parent)
      ensures requests.Keys == old(requests.Keys) + if hash == EMPTY_STATE || hash in Known() then {} else {hash}
      ensures hash in requests && hash !in old(requests) ==> Awaited(hash, true, false)
    {
      hide Owed, Recorded, Awaits;
      if hash == EMPTY_STATE {
        return;
      }
      if hash in batch {
        return;
      }
      if hash in database.store {
        return;
      }
      Enlist(hash, true, false, parent);
    }

    /** Each of the hashes is there, awaited by req, or on the list of requests still to be scheduled. */
    ghost predicate AllCovered(hashes: set<Digest>, list: seq<Request>, req: Request)
      reads this, database
    {
      forall n | n in hashes :: n in Known() || Awaits(g, req, n) || Lists(list, n)
    }

    ghost predicate AtWork(req: Request)
      reads this, database, req, g.todo.Keys, g.waiting.Keys
    {
      && Stored() && req in g.todo && Live(requests, req) && req.hash != ZeroHash
      && Owed(requests, g, Known(), req, 0, leaf)
    }

    /** The state callback on a leaf: what the leaf names is asked for on behalf of the node above it. */
    method AddLeaf(refs: seq<LeafRef>, req: Request)
      requires AtWork(req)
      modifies this`requests, this`g, g.todo.Keys`parents, g.todo.Keys`deps
      ensures AtWork(req) && Grew() && CoverKept(req)
      ensures AskedAs(Named(refs, true), Named(refs, false))
      ensures forall r | r in refs && !EmptyRef(r) :: r.hash in Known() || Awaits(g, req, r.hash)
    {
      hide Owed, Recorded, Awaits, Stored, Named, Widens;
      WidensRefl(g);
      var i := 0;
      while i < |refs|
        invariant 0 <= i <= |refs|
        invariant AtWork(req) && Grew() && CoverKept(req)
        invariant AskedAs(Named(refs[..i], true), Named(refs[..i], false))
        invariant forall r | r in refs[..i] && !EmptyRef(r) :: r.hash in Known() || Awaits(g, req, r.hash)
      {
        ghost var g1 := g;
        AddRef(refs[i], req);
        WidensTrans(old(g), g1, g);
        assert refs[..i + 1] == refs[..i] + [refs[i]];
        NamedNext(refs, i, true);
        NamedNext(refs, i, false);
        i := i + 1;
      }
      assert refs[..i] == refs;
    }

    method AddRef(r: LeafRef, req: Request)
      requires AtWork(req)
      modifies this`requests, this`g, g.todo.Keys`parents, g.todo.Keys`deps
      ensures AtWork(req) && Grew() && CoverKept(req)
      ensures AskedAs(Named([r], true), Named([r], false))
      ensures EmptyRef(r) || r.hash in Known() || Awaits(g, req, r.hash)
    {
      hide Owed, Recorded, Awaits, Stored, Widens;
      ghost var g0 := g;
      if r.raw {
        AddRawEntry(r.hash, req.hash);
      } else {
        AddSubTrie(r.hash, req.hash, false);
      }
      forall n | Awaits(g0, req, n) ensures Awaits(g, req, n) {
        AwaitsMono(g0, g, req, n);
      }
    }

    twostate predicate CoverKept(req: Request)
      reads this, database
    {
      Known() == old(Known()) && forall n | old(Awaits(g, req, n)) :: Awaits(g, req, n)
    }

    /** One child of the node of req: what it names is asked for, or it is put on the list, or it is known. */
    method Child(b: Blob, req: Request, list: seq<Request>) returns (list': seq<Request>, ok: bool)
      requires AtWork(req) && Unscheduled(list, req, g, batch)
      modifies this`requests, this`g, g.todo.Keys`parents, g.todo.Keys`deps
      ensures AtWork(req) && Unscheduled(list', req, g, batch) && list <= list'
      ensures Grew() && CoverKept(req) && fresh(set r | r in list'[|list|..])
      ensures forall r | r in list' :: r in list || r.hash !in Known()
      ensures ok == !(LeafTold(b, req.callback) && leaf(b.v) == None)
      ensures !ok || !LeafTold(b, req.callback) ==> req.deps == old(req.deps)
      ensures AskedFor(old(requests), requests, [b], req.callback, leaf) && NewOpen()
      ensures forall r | r in list' :: r in list || b == BHash(r.hash)
      ensures ok ==> AllCovered(ChildNeeds(b, req.callback, leaf), list', req)
    {
      hide Owed, Recorded, Awaits, Named, AskedFor;
      AskedNone(requests, [b], req.callback, leaf);
      list', ok := list, true;
      if LeafTold(b, req.callback) {
        match leaf(b.v) {
          case None => ok := false;
          case Some(refs) =>
            AddLeaf(refs, req);
            AskedLeaf(old(requests), requests, b, req.callback, leaf);
        }
      } else if b.BHash? && b.d !in batch && b.d !in database.store {
        var c := new Request(b.d, false, req.callback, [req]);
        list' := list + [c];
        assert list'[|list|].hash == b.d;
      }
    }

    /** What is newly asked for has no data yet. */
    twostate predicate NewOpen()
      reads this`requests, requests.Values`data
    {
      forall h | h in requests && h !in old(requests) :: requests[h].data == None
    }

    /** The first i children are seen to. */
    ghost predicate SeenTo(cs: seq<Blob>, i: nat, list: seq<Request>, req: Request)
      requires i <= |cs|
      reads this, database
    {
      forall j :: 0 <= j < i ==> AllCovered(ChildNeeds(cs[j], req.callback, leaf), list, req)
    }

    method NextChild(cs: seq<Blob>, i: nat, req: Request, list: seq<Request>) returns (list': seq<Request>, ok: bool)
      requires AtWork(req) && Unscheduled(list, req, g, batch) && i < |cs| && SeenTo(cs, i, list, req)
      modifies this`requests, this`g, g.todo.Keys`parents, g.todo.Keys`deps
      ensures AtWork(req) && Unscheduled(list', req, g, batch) && list <= list'
      ensures Grew() && Known() == old(Known()) && fresh(set r | r in list'[|list|..])
      ensures forall r | r in list' :: r in list || (r.hash !in Known() && cs[i] == BHash(r.hash))
      ensures ok == !(LeafTold(cs[i], req.callback) && leaf(cs[i].v) == None)
      ensures !ok || !LeafTold(cs[i], req.callback) ==> req.deps == old(req.deps)
      ensures AskedFor(old(requests), requests, [cs[i]], req.callback, leaf) && NewOpen()
      ensures ok ==> SeenTo(cs, i + 1, list', req)
    {
      hide AtWork, Unscheduled, Awaits, ChildNeeds, AskedFor;
      list', ok := Child(cs[i], req, list);
    }

    lemma {:induction false} AllSeenTo(cs: seq<Blob>, list: seq<Request>, req: Request)
      requires req.data.Some? && IsNode(req.data.value) && cs == ChildrenOf(req.data.value)
      ensures SeenTo(cs, 0, list, req) && (SeenTo(cs, |cs|, list, req) ==> AllCovered(NeedsOf(req, leaf), list, req))
    {
      hide Awaits, ChildNeeds;
      if SeenTo(cs, |cs|, list, req) {
        forall n | n in NeedsOf(req, leaf) ensures n in Known() || Awaits(g, req, n) || Lists(list, n) {
          var j :| 0 <= j < |cs| && n in ChildNeeds(cs[j], req.callback, leaf);
        }
      }
    }

    /** Go through the children of the node of req; a rejected leaf stops it. */
    method Children(req: Request) returns (list: seq<Request>, ok: bool)
      requires AtWork(req) && req.data.Some? && IsNode(req.data.value)
      modifies this`requests, this`g, g.todo.Keys`parents, g.todo.Keys`deps
      ensures AtWork(req) && Unscheduled(list, req, g, batch) && Grew() && fresh(set r | r in list) && NothingUndone()
      ensures Known() == old(Known()) && forall r | r in list :: r.hash !in Known()
      ensures ok == Accepted(ChildrenOf(req.data.value), req.callback, leaf)
      ensures AskedFor(old(requests), requests, ChildrenOf(req.data.value), req.callback, leaf) && NewOpen()
      ensures forall r | r in list :: BHash(r.hash) in ChildrenOf(req.data.value)
      ensures ok ==> AllCovered(NeedsOf(req, leaf), list, req)
      ensures !ok && OneLeaf(ChildrenOf(req.data.value)) ==> req.deps == old(req.deps)
    {
      hide AtWork, Recorded, Awaits, AskedFor, SeenTo, NeedsOf, AllCovered;
      AskedNone(requests, ChildrenOf(req.data.value), req.callback, leaf);
      var cs := ChildrenOf(req.data.value);
      list, ok := [], true;
      assert Unscheduled([], req, g, batch);
      WidensRefl(g);
      hide Widens, Unscheduled;
      AllSeenTo(cs, list, req);
      var i := 0;
      while i < |cs|
        invariant 0 <= i <= |cs|
        invariant AtWork(req) && Unscheduled(list, req, g, batch) && Grew() && fresh(set r | r in list)
        invariant Known() == old(Known()) && forall r | r in list :: r.hash !in Known()
        invariant AskedFor(old(requests), requests, cs, req.callback, leaf) && NewOpen()
        invariant forall r | r in list :: BHash(r.hash) in cs
        invariant Accepted(cs[..i], req.callback, leaf)
        invariant (forall j :: 0 <= j < i ==> !LeafTold(cs[j], req.callback)) ==> req.deps == old(req.deps)
        invariant SeenTo(cs, i, list, req)
      {
        ghost var r1, g1 := requests, g;
        list, ok := NextChild(cs, i, req, list);
        WidensTrans(old(g), g1, g);
        AskedNext(old(requests), r1, requests, cs, i, req.callback, leaf);
        if !ok {
          return;
        }
        i := i + 1;
      }
      assert cs[..i] == cs;
      AllSeenTo(cs, list, req);
    }

    /** Data delivered is in the batch, or with the request that waits for more. */
    ghost predicate Taken(b: Blob)
      reads this, requests.Values`data
    {
      Keccak(b) in batch || (Keccak(b) in requests && requests[Keccak(b)].data == Some(b))
    }

    /** Data once taken stays taken. */
    twostate predicate NothingUndone()
      reads this, requests.Values`data
    {
      forall b: Blob | old(Taken(b)) :: Taken(b)
    }

    /** A request receives its data; what the data needs is not seen to yet. */
    method Load(req: Request, data: Blob)
      requires Valid() && Pends(requests, req) && req.data == None
      modifies req`data
      ensures req.data == Some(data) && req in g.todo && req.deps == |g.waiting[req]| == 0
      ensures Stored() && Owed(requests, g, Known(), req, 0, leaf)
      ensures NothingUndone()
    {
      hide Mirror, Recorded, Served, Quiet;
      MirrorKeys(g);
      Idle(requests, g, req);
      req.data := Some(data);
    }

    /** The first i of the listed requests are scheduled; their parent has counted all of them already. */
    ghost predicate Handing(list: seq<Request>, i: nat, req: Request)
      requires i <= |list|
      reads this, database, req, list, g.todo.Keys, g.waiting.Keys
    {
      && Stored() && req in g.todo && Live(requests, req)
      && Owed(requests, g, Known(), req, |list| - i, leaf)
      && Unscheduled(list[i..], req, g, batch)
      && (forall j :: 0 <= j < i ==> Awaits(g, req, list[j].hash))
    }

    method ScheduleNext(list: seq<Request>, i: nat, req: Request)
      requires i < |list| && Handing(list, i, req)
      modifies this`requests, this`g, g.todo.Keys`parents
      ensures Handing(list, i + 1, req) && Extends(old(requests), requests) && Widens(old(g), g)
      ensures g.todo.Keys <= old(g.todo.Keys) + {list[i]}
      ensures forall h | h in requests && h !in old(requests) :: requests[h] == list[i] && h == list[i].hash
    {
      hide Owed, Recorded, Awaits, Widens, Stored;
      ghost var g1 := g;
      assert list[i] == list[i..][0];
      assert list[i].hash !in batch;
      Schedule(list[i], req, req, |list| - i);
      assert list[i..][1..] == list[i + 1..];
      forall j | 0 <= j < i ensures Awaits(g, req, list[j].hash) {
        AwaitsMono(g1, g, req, list[j].hash);
      }
      assert req in g.todo.Keys by { WidensKeys(g1, g); }
    }

    method ScheduleAll(list: seq<Request>, req: Request)
      requires Handing(list, 0, req)
      modifies this`requests, this`g, g.todo.Keys`parents, list`parents
      ensures Handing(list, |list|, req) && Extends(old(requests), requests) && Widens(old(g), g)
      ensures forall h | h in requests && h !in old(requests) :: requests[h] in list && requests[h].hash == h
      ensures forall r | r in g.todo :: r in old(g.todo) || r in list
    {
      hide Handing, Widens;
      WidensRefl(g);
      var i := 0;
      while i < |list|
        invariant 0 <= i <= |list| && Handing(list, i, req)
        invariant Extends(old(requests), requests) && Widens(old(g), g)
        invariant forall h | h in requests && h !in old(requests) :: requests[h] in list && requests[h].hash == h
        invariant forall r | r in g.todo :: r in old(g.todo) || r in list
      {
        ghost var g1 := g;
        ScheduleNext(list, i, req);
        WidensTrans(old(g), g1, g);
        i := i + 1;
      }
    }

    /** Count the listed requests as dependencies of req, and schedule them. */
    method Dispatch(list: seq<Request>, req: Request)
      requires AtWork(req) && Unscheduled(list, req, g, batch) && Addressed(req)
      requires AllCovered(NeedsOf(req, leaf), list, req) && (list != [] || req.deps != 0)
      modifies this`requests, this`g, g.todo.Keys`parents, list`parents, req`deps
      ensures Valid() && Extends(old(requests), requests) && NothingUndone()
      ensures forall h | h in requests && h !in old(requests) ::
                requests[h] in list && requests[h].hash == h && !requests[h].raw && requests[h].callback == req.callback
      ensures NewOpen()
      ensures forall r | r in g.todo :: r in old(g.todo) || r in list
    {
      hide Steady, Settled, Recorded, Awaits, Widens, NeedsOf;
      OwedCount(requests, g, Known(), req, leaf);
      req.deps := req.deps + |list|;
      ghost var g1, needs, known := g, NeedsOf(req, leaf), Known();
      assert Handing(list, 0, req);
      ScheduleAll(list, req);
      assert NeedsOf(req, leaf) == needs && Known() == known;
      assert Served(g, Known(), req, leaf) by {
        forall n | n in needs ensures n in known || Awaits(g, req, n) {
          if Awaits(g1, req, n) {
            AwaitsMono(g1, g, req, n);
          }
        }
      }
      OwedSettled(requests, g, Known(), req, leaf);
    }

    /** Whatever was pending or there still is. */
    twostate predicate NothingLost()
      reads this, database
    {
      old(requests.Keys + Known()) <= requests.Keys + Known()
    }

    /** Nothing but pending requests is completed. */
    twostate predicate OnlyPending()
      reads this`batch
    {
      batch.Keys <= old(batch.Keys + requests.Keys)
    }

    /** Complete a request from outside: afterwards nobody is left to be told. */
    method Close(req: Request)
      requires Inv(req) && Quiet(requests, g) && Served(g, Known(), req, leaf)
      requires Pends(requests, req) && req.data.Some? && req.deps == 0
      modifies this, g.todo.Keys`deps
      ensures Valid() && req.hash in batch && old(order) < order && g.todo.Keys == old(g.todo.Keys)
      ensures Extends(requests, old(requests))
      ensures NothingLost() && NothingUndone() && OnlyPending() && past == old(past) && RawOnly(old(log), log, RawData(req))
    {
      hide Inv, Served, Quiet;
      ghost var r1, b1, g1 := requests, batch, g;
      Complete(req);
      AdvancedQuiet(r1, b1, g1, requests, batch, g);
    }

    method ProcessRaw(req: Request, data: Blob)
      requires Valid() && Pends(requests, req) && req.data == None && req.raw && req.hash == Keccak(data)
      modifies this, g.todo.Keys
      ensures Valid() && req.hash in batch && NothingLost() && g.todo.Keys == old(g.todo.Keys)
      ensures Extends(requests, old(requests))
      ensures NothingUndone() && OnlyPending() && old(order) < order && past == old(past) && RawOnly(old(log), log, {data})
    {
      hide Sound, Recorded, Taken;
      SoundIndexed(requests, g, Known(), null, leaf);
      Load(req, data);
      assert Served(g, Known(), req, leaf);
      assert Sound(requests, g, Known(), req, leaf) by { OwedSound(requests, g, Known(), req, leaf); }
      Close(req);
    }

    lemma {:induction false} CoveredServed(req: Request)
      requires AllCovered(NeedsOf(req, leaf), [], req) && Addressed(req)
      ensures Served(g, Known(), req, leaf)
    {
      hide NeedsOf, Awaits;
    }

    /** When the work on a node stops, all is well exactly if what it needs is on its way and it waits for something.
        A node with its data that waits for nothing will never be completed. */
    lemma {:induction false} StoppedAt(req: Request)
      requires AtWork(req)
      ensures Valid() <==> Served(g, Known(), req, leaf) && req.deps != 0
    {
      hide Recorded, Quiet, Mirror, Served, Tells, Indexed;
      OwedCount(requests, g, Known(), req, leaf);
      if Served(g, Known(), req, leaf) && req.deps != 0 {
        OwedSettled(requests, g, Known(), req, leaf);
      }
    }

    /** The leaves of the node of req are accepted: it is completed if it waits for nothing, and else it waits. */
    method Conclude(list: seq<Request>, req: Request) returns (committed: bool)
      requires AtWork(req) && Pends(requests, req) && Unscheduled(list, req, g, batch) && Addressed(req)
      requires AllCovered(NeedsOf(req, leaf), list, req)
      modifies this, g.todo.Keys`parents, g.todo.Keys`deps, list`parents
      ensures Valid() && NothingLost() && NothingUndone() && if committed then req.hash in batch else Pends(requests, req)
      ensures forall h | h in requests && h !in old(requests) ::
                requests[h] in list && requests[h].hash == h && !requests[h].raw && requests[h].callback == req.callback
      ensures NewOpen() && forall h | h in requests && h in old(requests) :: requests[h] == old(requests)[h]
      ensures past == old(past) && RawOnly(old(log), log, RawData(req)) && if committed then old(order) < order else order == old(order)
      ensures forall r | r in g.todo :: r in old(g.todo) || r in list
    {
      hide Sound, Owed, Stored, Widens, Served, AllCovered, Taken;
      committed := list == [] && req.deps == 0;
      if committed {
        CoveredServed(req);
        OwedSound(requests, g, Known(), req, leaf);
        Close(req);
      } else {
        Dispatch(list, req);
      }
    }

    method ProcessNode(req: Request, data: Blob) returns (committed: bool, ok: bool)
      requires Valid() && Pends(requests, req) && req.data == None && !req.raw && req.hash == Keccak(data) && IsNode(data)
      modifies this, g.todo.Keys
      ensures ok == Accepted(ChildrenOf(data), req.callback, leaf)
      ensures AskedFor(old(requests), requests, ChildrenOf(data), req.callback, leaf) && NewOpen()
      ensures NothingLost() && NothingUndone() && req.data == Some(data)
      ensures past == old(past) && RawOnly(old(log), log, {}) && if committed then old(order) < order else order == old(order)
      ensures forall r | r in g.todo && r !in old(g.todo) :: fresh(r)
      ensures ok ==> Valid() && if committed then req.hash in batch else Pends(requests, req)
      ensures !ok ==> !committed && Pends(requests, req) && AtWork(req)
      ensures !ok && OneLeaf(ChildrenOf(data)) ==> req.deps == 0 && !Valid()
    {
      hide Sound, Owed, Stored, Accepted, Widens, Served, AllCovered, Taken, AskedFor, Unscheduled;
      SoundIndexed(requests, g, Known(), null, leaf);
      Load(req, data);
      var list;
      list, ok := Children(req);
      committed := false;
      if !ok {
        StoppedAt(req);
        return;
      }
      ghost var r1 := requests;
      committed := Conclude(list, req);
      AskedMore(old(requests), r1, requests, ChildrenOf(data), req.callback, leaf);
    }

    /** The reasons for which an item is refused before anything changes. */
    function Refusal(item: SyncResult): Option<SyncError>
      reads this, requests.Values
    {
      if item.hash !in requests then Some(NotRequested)
      else if requests[item.hash].data.Some? then Some(AlreadyProcessed)
      else if !requests[item.hash].raw && !IsNode(item.data) then Some(BadNode)
      else None
    }

    /** The item was taken, but one of its leaves was not. */
    ghost predicate Rejects(item: SyncResult)
      reads this, database, requests.Values, g.todo.Keys, g.waiting.Keys
    {
      && item.hash in requests && AtWork(requests[item.hash]) && requests[item.hash].data == Some(item.data)
      && !Accepted(ChildrenOf(item.data), requests[item.hash].callback, leaf)
    }

    /** The callback accepts the leaves of the item, if it is told of them. */
    ghost predicate Agreeable(item: SyncResult)
      reads this, requests.Values
    {
      item.hash in requests &&
      (requests[item.hash].raw || Accepted(ChildrenOf(item.data), requests[item.hash].callback, leaf))
    }

    method ProcessItem(item: SyncResult) returns (committed: bool, err: Option<SyncError>)
      requires Valid() && item.hash == Keccak(item.data)
      modifies this, g.todo.Keys
      ensures old(Refusal(item)).Some? ==> err == old(Refusal(item)) && !committed && unchanged(this) && unchanged(old(g.todo.Keys))
      ensures old(Refusal(item)).None? ==> err == if old(Agreeable(item)) then None else Some(LeafRejected)
      ensures err == Some(LeafRejected) ==> Rejects(item)
      ensures err != Some(LeafRejected) ==> Valid()
      ensures err == Some(LeafRejected) && OneLeaf(ChildrenOf(item.data)) ==> requests[item.hash].deps == 0 && !Valid()
      ensures old(Refusal(item)).None? && old(requests[item.hash].raw) ==> committed && OnlyPending()
      ensures past == old(past) && RawOnly(old(log), log, if item.hash in old(requests) && old(requests)[item.hash].raw then {item.data} else {})
      ensures err == None ==> Taken(item.data) && (committed ==> item.hash in batch)
      ensures NothingUndone() && (err.Some? ==> !committed) && if committed then old(order) < order else order == old(order)
      ensures item.hash in old(requests) ==>
                AskedFor(old(requests), requests, ChildrenOf(item.data), old(requests)[item.hash].callback, leaf) && NewOpen()
      ensures RawHashes() <= old(RawHashes()) + NamedBy(ChildrenOf(item.data), true, true, leaf)
      ensures NothingLost() && forall r | r in g.todo && r !in old(g.todo) :: fresh(r)
    {
      hide Sound, Recorded, Stored, Owed, Asked;
      committed, err := false, None;
      if item.hash !in requests {
        return false, Some(NotRequested);
      }
      var req := requests[item.hash];
      assert Pends(requests, req) && req in g.todo && req.hash == item.hash by { SoundIndexed(requests, g, Known(), null, leaf); }
      if req.data.Some? {
        return false, Some(AlreadyProcessed);
      }
      if req.raw {
        ProcessRaw(req, item.data);
        RawGrowth(old(requests), requests, past, old(log), log, {item.data}, ChildrenOf(item.data), req.callback, leaf);
        return true, None;
      }
      if !IsNode(item.data) {
        return false, Some(BadNode);
      }
      var ok;
      committed, ok := ProcessNode(req, item.data);
      RawGrowth(old(requests), requests, past, old(log), log, {}, ChildrenOf(item.data), req.callback, leaf);
      err := if ok then None else Some(LeafRejected);
    }

    method Process(results: seq<SyncResult>) returns (committed: bool, index: nat, err: Option<SyncError>)
      requires Valid() && forall i :: 0 <= i < |results| ==> results[i].hash == Keccak(results[i].data)
      modifies this, g.todo.Keys
      ensures NothingLost()
      ensures if err == None then index == 0 else index < |results|
      ensures forall i :: 0 <= i < (if err == None then |results| else index) ==> Taken(results[i].data)
      ensures err == Some(LeafRejected) ==> Rejects(results[index])
      ensures err != Some(LeafRejected) ==> Valid() && (err.Some? ==> err == Refusal(results[index]))
      ensures old(order) <= order && committed == (order != old(order))
      ensures (forall i :: 0 <= i < |results| ==> OneLeaf(ChildrenOf(results[i].data))) ==> (Valid() <==> err != Some(LeafRejected))
      ensures RawHashes() <= old(RawHashes()) + NamedIn(results, leaf)
      ensures past == old(past) && RawOnly(old(log), log, set i | 0 <= i < |results| :: results[i].data)
      ensures forall r | r in g.todo && r !in old(g.todo) :: fresh(r)
    {
      hide Valid, AtWork, RawHashes, NamedBy;
      committed, index, err := false, 0, None;
      while index < |results|
        invariant 0 <= index <= |results| && Valid() && NothingLost() && err == None
        invariant forall i :: 0 <= i < index ==> Taken(results[i].data)
        invariant old(order) <= order && committed == (order != old(order))
        invariant RawHashes() <= old(RawHashes()) + NamedIn(results, leaf)
        invariant past == old(past) && RawOnly(old(log), log, set i | 0 <= i < |results| :: results[i].data)
        invariant forall r | r in g.todo && r !in old(g.todo) :: fresh(r)
      {
        var c;
        c, err := ProcessItem(results[index]);
        assert NamedBy(ChildrenOf(results[index].data), true, true, leaf) <= NamedIn(results, leaf);
        if err.Some? {
          return;
        }
        committed := committed || c;
        index := index + 1;
      }
      index := 0;
    }

    /** Write the batch in order of completion, up to the entry that the writer refuses, if there is one. */
    method WriteOut(failAt: nat) returns (written: nat)
      requires Stored()
      modifies database
      ensures written == if failAt < |order| then failAt else |order|
      ensures Flushed(old(database.store), order, batch, written, database.store)
    {
      hide Recorded, Flushed;
      written := 0;
      ghost var store := database.store;
      FlushedNone(store, order, batch);
      while written < |order| && written != failAt
        invariant 0 <= written <= |order| && written <= failAt
        invariant Flushed(store, order, batch, written, database.store)
        modifies database
      {
        RecordedBatch(log, order, batch, store, leaf, written);
        FlushedNext(store, order, batch, written, database.store);
        database.Put(order[written], batch[order[written]]);
        written := written + 1;
      }
    }

    /** Flush the batch: it is dropped when all of it is written, and kept otherwise. */
    method Commit(failAt: nat) returns (written: nat, ok: bool)
      requires Valid()
      modifies this`batch, this`order, this`log, this`past, database
      ensures ok == (failAt >= |old(order)|) && written == if ok then |old(order)| else failAt
      ensures Valid() && Known() == old(Known())
      ensures Flushed(old(database.store), old(order), old(batch), written, database.store)
      ensures old(ContentAddressed(database.store)) ==> ContentAddressed(database.store)
      ensures written <= |old(log)| && past + log == old(past + log) && log == if ok then [] else old(log)
      ensures old(RefsClosed(database.store)) ==>
                (RefsClosed(database.store) <==> WholeWrites(old(database.store), old(order), old(batch), written))
      ensures old(RefsClosed(database.store)) ==> (RefsClosed(database.store) <==> RawClosed(old(log), written, database.store))
      ensures if ok then batch == map[] && order == [] else batch == old(batch) && order == old(order)
    {
      hide Sound, Recorded, Flushed, RefsClosed, RawClosed, WholeWrites, ContentAddressed, Quiet;
      ghost var store := database.store;
      written := WriteOut(failAt);
      FlushedRecorded(store, log, order, batch, written, database.store, leaf);
      if RefsClosed(store) {
        FlushedRefs(store, log, order, batch, written, database.store, leaf);
      }
      ok := written == |order|;
      ghost var rs: set<object> := g.todo.Keys + g.waiting.Keys;
      assert this !in rs && database !in rs;
      assert Known() == old(Known());
      assert Sound(requests, g, Known(), null, leaf);
      if ok {
        RecordedNone(database.store, leaf);
        Drop();
      }
    }

    /** A batch that is written makes way for an empty one. */
    method Drop()
      requires Sound(requests, g, Known(), null, leaf) && Quiet(requests, g) && batch.Keys <= database.store.Keys
      modifies this`batch, this`order, this`log, this`past
      ensures batch == map[] && order == [] && log == [] && past == old(past + log)
      ensures Known() == old(Known()) && Sound(requests, g, Known(), null, leaf)
    {
      hide Sound, Quiet;
      ghost var rs: set<object> := g.todo.Keys + g.waiting.Keys;
      assert this !in rs;
      batch, order, past, log := map[], [], past + log, [];
      assert Known() == old(Known());
    }
  }
}

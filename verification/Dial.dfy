/** Scheduling of outgoing connections: which nodes are dialled, and how many at a time. */
module Dial {
  import opened Options

  type Id = nat

  datatype Node = Node(id: Id, ip: nat)

  datatype Flag = Dyn | Static | Inbound

  datatype Task = DialTask(flag: Flag, dest: Node) | DiscoverTask | WaitExpireTask

  datatype PastDial = PastDial(id: Id, exp: int)

  datatype DialError = AlreadyDialing | AlreadyConnected | Self | NotWhitelisted | RecentlyDialed

  const FALLBACK_INTERVAL: int := 20
  const DIAL_HISTORY_EXPIRATION: int := 30
  const MAX_ACTIVE_DIAL_TASKS: nat := 16

  // ---- dynamic connections ----

  ghost function DynIn(m: map<Id, Flag>): set<Id> {
    set id | id in m && m[id] == Dyn
  }

  /** Nodes that are dynamic peers or are being dialled as such. */
  ghost function DynIds(dialing: map<Id, Flag>, peers: map<Id, Flag>): set<Id> {
    DynIn(dialing) + DynIn(peers)
  }

  lemma {:induction false} UnionSize<T>(a: set<T>, b: set<T>)
    ensures |a + b| <= |a| + |b|
  {
    assert |a + b| + |a * b| == |a| + |b|;
  }

  /** How many entries of m are dynamic. */
  method CountDyn(m: map<Id, Flag>) returns (n: nat)
    ensures n == |DynIn(m)|
  {
    n := 0;
    var rest := m.Keys;
    ghost var seen: set<Id> := {};
    while rest != {}
      invariant rest <= m.Keys && seen == DynIn(m) - rest && n == |seen|
      decreases |rest|
    {
      var id :| id in rest;
      if m[id] == Dyn {
        n := n + 1;
        seen := seen + {id};
      }
      rest := rest - {id};
    }
    assert seen == DynIn(m);
  }

  lemma {:induction false} DynInWith(m: map<Id, Flag>, id: Id, flag: Flag)
    requires id !in m
    ensures DynIn(m[id := flag]) == DynIn(m) + if flag == Dyn then {id} else {}
  {
  }

  lemma {:induction false} DynGrown(m: map<Id, Flag>, id: Id, flag: Flag)
    requires id !in m
    ensures |DynIn(m[id := flag])| == |DynIn(m)| + if flag == Dyn then 1 else 0
  {
    DynInWith(m, id, flag);
    assert id !in DynIn(m) && DynIn(m) + {} == DynIn(m);
  }

  lemma {:induction false} UnionAdd<T>(a: set<T>, b: set<T>, x: T)
    requires x !in a && x !in b
    ensures |(a + {x}) + b| == |a + b| + 1
  {
    assert (a + {x}) + b == (a + b) + {x};
  }

  lemma {:induction false} DynAdd(dialing: map<Id, Flag>, peers: map<Id, Flag>, id: Id, flag: Flag)
    requires id !in dialing && id !in peers
    ensures |DynIds(dialing[id := flag], peers)| == |DynIds(dialing, peers)| + if flag == Dyn then 1 else 0
  {
    DynInWith(dialing, id, flag);
    assert id !in DynIn(dialing) && id !in DynIn(peers);
    hide DynIn;
    if flag == Dyn {
      UnionAdd(DynIn(dialing), DynIn(peers), id);
    } else {
      assert DynIn(dialing) + {} == DynIn(dialing);
    }
  }

  // ---- history ----

  predicate Remembers(hist: seq<PastDial>, id: Id) {
    exists i :: 0 <= i < |hist| && hist[i].id == id
  }

  function Expired(hist: seq<PastDial>, now: int): seq<PastDial> {
    if hist == [] then [] else (if hist[0].exp < now then [] else [hist[0]]) + Expired(hist[1..], now)
  }

  lemma {:induction false} ExpiredKeeps(hist: seq<PastDial>, now: int, d: PastDial)
    ensures d in Expired(hist, now) <==> d in hist && d.exp >= now
  {
    if hist != [] {
      ExpiredKeeps(hist[1..], now, d);
    }
  }

  method ComputeExpired(hist: seq<PastDial>, now: int) returns (r: seq<PastDial>)
    ensures r == Expired(hist, now)
  {
    r := [];
    var i := |hist|;
    assert hist[i..] == [];
    while i > 0
      invariant 0 <= i <= |hist| && r == Expired(hist[i..], now)
    {
      i := i - 1;
      assert hist[i..][1..] == hist[i + 1..];
      if !(hist[i].exp < now) {
        r := [hist[i]] + r;
      }
    }
    assert hist[i..] == hist;
  }

  // ---- tasks ----

  predicate Dials(t: Task, id: Id) {
    t.DialTask? && t.dest.id == id
  }

  ghost predicate DialledBy(tasks: seq<Task>, id: Id) {
    exists i :: 0 <= i < |tasks| && Dials(tasks[i], id)
  }

  /** The dial tasks are of distinct nodes; besides those of before, exactly they are being dialled. */
  ghost predicate Fresh(tasks: seq<Task>, before: map<Id, Flag>, dialing: map<Id, Flag>) {
    && (forall id | id in before :: id in dialing && dialing[id] == before[id])
    && (forall id | id in dialing :: id in before || DialledBy(tasks, id))
    && (forall i :: 0 <= i < |tasks| && tasks[i].DialTask? ==>
         tasks[i].dest.id !in before && tasks[i].dest.id in dialing && dialing[tasks[i].dest.id] == tasks[i].flag)
    && (forall i, j :: 0 <= i < j < |tasks| && tasks[i].DialTask? && tasks[j].DialTask? ==> tasks[i].dest.id != tasks[j].dest.id)
  }

  lemma {:induction false} DialledMore(tasks: seq<Task>, t: Task, id: Id)
    ensures DialledBy(tasks + [t], id) <==> DialledBy(tasks, id) || Dials(t, id)
  {
    var longer := tasks + [t];
    if DialledBy(tasks, id) {
      var i :| 0 <= i < |tasks| && Dials(tasks[i], id);
      assert longer[i] == tasks[i];
    }
    if Dials(t, id) {
      assert longer[|tasks|] == t;
    }
  }

  lemma {:induction false} FreshNext(tasks: seq<Task>, before: map<Id, Flag>, dialing: map<Id, Flag>, flag: Flag, n: Node)
    requires Fresh(tasks, before, dialing) && n.id !in dialing
    ensures Fresh(tasks + [DialTask(flag, n)], before, dialing[n.id := flag])
  {
    hide DialledBy;
    var tasks', dialing' := tasks + [DialTask(flag, n)], dialing[n.id := flag];
    forall id | id in dialing' ensures id in before || DialledBy(tasks', id) {
      DialledMore(tasks, DialTask(flag, n), id);
    }
  }

  lemma {:induction false} FreshNone(dialing: map<Id, Flag>)
    ensures Fresh([], dialing, dialing)
  {
  }

  lemma {:induction false} FreshOther(tasks: seq<Task>, before: map<Id, Flag>, dialing: map<Id, Flag>, t: Task)
    requires Fresh(tasks, before, dialing) && !t.DialTask?
    ensures Fresh(tasks + [t], before, dialing)
  {
    hide DialledBy;
    forall id | id in dialing ensures id in before || DialledBy(tasks + [t], id) {
      DialledMore(tasks, t, id);
    }
  }

  ghost function NodesOf(nodes: seq<Node>): set<Node> {
    set n | n in nodes
  }

  /** Dials of some of the nodes were added to the tasks, under the flag. */
  ghost predicate Adds(tasks: seq<Task>, tasks': seq<Task>, flag: Flag, nodes: set<Node>) {
    tasks <= tasks' && forall i :: |tasks| <= i < |tasks'| ==> tasks'[i].DialTask? && tasks'[i].flag == flag && tasks'[i].dest in nodes
  }

  /** Every dial is of a static node as such, or of one of the candidates as a dynamic one. */
  ghost predicate From(tasks: seq<Task>, statics: set<Node>, candidates: set<Node>) {
    forall i :: 0 <= i < |tasks| && tasks[i].DialTask? ==>
      if tasks[i].flag == Static then tasks[i].dest in statics else tasks[i].flag == Dyn && tasks[i].dest in candidates
  }

  lemma {:induction false} AddsFrom(tasks: seq<Task>, tasks': seq<Task>, flag: Flag, nodes: set<Node>, statics: set<Node>, candidates: set<Node>)
    requires From(tasks, statics, candidates) && AllDials(tasks) && Adds(tasks, tasks', flag, nodes)
    requires if flag == Static then nodes <= statics else flag == Dyn && nodes <= candidates
    ensures From(tasks', statics, candidates) && AllDials(tasks')
  {
  }

  lemma {:induction false} AddsMore(tasks: seq<Task>, tasks1: seq<Task>, tasks2: seq<Task>, flag: Flag, a: set<Node>, b: set<Node>)
    requires Adds(tasks, tasks1, flag, a) && Adds(tasks1, tasks2, flag, b)
    ensures Adds(tasks, tasks2, flag, a + b) && tasks1 <= tasks2
  {
  }

  lemma {:induction false} AddsNone(tasks: seq<Task>, flag: Flag)
    ensures Adds(tasks, tasks, flag, {})
  {
  }

  ghost predicate AllDials(tasks: seq<Task>) {
    forall i :: 0 <= i < |tasks| ==> tasks[i].DialTask?
  }

  lemma {:induction false} NodesWithin(nodes: seq<Node>, k: nat)
    requires k <= |nodes|
    ensures NodesOf(nodes[..k]) <= NodesOf(nodes)
  {
  }

  // ---- the scheduler ----

  class DialState {
    const maxDynDials: nat
    const self: Option<Id>
    const allowed: Node -> bool
    var dialing: map<Id, Flag>
    var lookupRunning: bool
    var lookupBuf: seq<Node>
    var statics: map<Id, Node>
    var hist: seq<PastDial>
    var bootnodes: seq<Node>
    var start: Option<int>

    constructor (maxDynDials: nat, self: Option<Id>, allowed: Node -> bool, bootnodes: seq<Node>)
      ensures this.maxDynDials == maxDynDials && this.self == self && this.allowed == allowed
      ensures dialing == map[] && statics == map[] && hist == [] && this.bootnodes == bootnodes && !lookupRunning && lookupBuf == [] && start == None
    {
      this.maxDynDials, this.self, this.allowed, this.bootnodes := maxDynDials, self, allowed, bootnodes;
      dialing, lookupRunning, lookupBuf, statics, hist, start := map[], false, [], map[], [], None;
    }

    method AddStatic(n: Node)
      modifies this`statics
      ensures statics == old(statics)[n.id := n]
    {
      statics := statics[n.id := n];
    }

    method RemoveStatic(n: Node)
      modifies this`statics
      ensures statics == old(statics) - {n.id}
    {
      statics := statics - {n.id};
    }

    /** Why a node must not be dialled now. */
    function CheckDial(n: Node, peers: map<Id, Flag>): Option<DialError>
      reads this
    {
      if n.id in dialing then Some(AlreadyDialing)
      else if n.id in peers then Some(AlreadyConnected)
      else if self == Some(n.id) then Some(Self)
      else if !allowed(n) then Some(NotWhitelisted)
      else if Remembers(hist, n.id) then Some(RecentlyDialed)
      else None
    }

    /** The static nodes are kept under their ids. */
    ghost predicate Valid()
      reads this`statics
    {
      forall id | id in statics :: statics[id].id == id
    }

    /** The dynamic dials still to be made. */
    ghost function Needed(peers: map<Id, Flag>): int
      reads this`dialing
    {
      maxDynDials - |DynIn(peers)| - |DynIn(dialing)|
    }

    /** Within the budget, with what is still needed. */
    ghost predicate Room(peers: map<Id, Flag>, need: int)
      reads this`dialing
    {
      |DynIds(dialing, peers)| <= maxDynDials && need == Needed(peers)
    }

    /** The node is being dialled, or may not be. */
    ghost predicate Tried(n: Node, dialing: map<Id, Flag>, peers: map<Id, Flag>)
      reads this`hist
    {
      n.id in dialing || n.id in peers || self == Some(n.id) || !allowed(n) || Remembers(hist, n.id)
    }

    ghost predicate AllTried(nodes: set<Node>, dialing: map<Id, Flag>, peers: map<Id, Flag>)
      reads this`hist
    {
      forall n | n in nodes :: Tried(n, dialing, peers)
    }

    lemma {:induction false} StillTried(nodes: set<Node>, dialing: map<Id, Flag>, dialing': map<Id, Flag>, peers: map<Id, Flag>)
      requires AllTried(nodes, dialing, peers) && dialing.Keys <= dialing'.Keys
      ensures AllTried(nodes, dialing', peers)
    {
    }

    lemma {:induction false} TriedStill(n: Node, dialing: map<Id, Flag>, dialing': map<Id, Flag>, peers: map<Id, Flag>)
      requires Tried(n, dialing, peers) && dialing.Keys <= dialing'.Keys
      ensures Tried(n, dialing', peers)
    {
    }

    /** A static node that is dropped: it never can be dialled. */
    ghost predicate Barred(n: Node, dialing: map<Id, Flag>, peers: map<Id, Flag>) {
      n.id !in dialing && n.id !in peers && (self == Some(n.id) || !allowed(n))
    }

    /** No dial is of a node that is connected, is this node itself, is barred, or was dialled recently. */
    ghost predicate Allowed(tasks: seq<Task>, peers: map<Id, Flag>)
      reads this`hist
    {
      forall i :: 0 <= i < |tasks| && tasks[i].DialTask? ==>
        var n := tasks[i].dest;
        n.id !in peers && self != Some(n.id) && allowed(n) && !Remembers(hist, n.id)
    }

    /** Dial a node unless it must not be. */
    method AddDial(flag: Flag, n: Node, peers: map<Id, Flag>, tasks: seq<Task>, need: int, ghost before: map<Id, Flag>)
      returns (tasks': seq<Task>, ok: bool)
      requires Fresh(tasks, before, dialing) && Allowed(tasks, peers) && Room(peers, need) && (flag == Dyn ==> need > 0)
      modifies this`dialing
      ensures Fresh(tasks', before, dialing) && Allowed(tasks', peers)
      ensures ok == old(CheckDial(n, peers)).None? && tasks' == if ok then tasks + [DialTask(flag, n)] else tasks
      ensures Room(peers, if ok && flag == Dyn then need - 1 else need)
      ensures Tried(n, dialing, peers) && dialing == if ok then old(dialing)[n.id := flag] else old(dialing)
    {
      hide Fresh, Remembers, DynIn;
      tasks', ok := tasks, false;
      if CheckDial(n, peers) == None {
        UnionSize(DynIn(dialing), DynIn(peers));
        DynGrown(dialing, n.id, flag);
        DynAdd(dialing, peers, n.id, flag);
        FreshNext(tasks, before, dialing, flag, n);
        dialing := dialing[n.id := flag];
        tasks', ok := tasks + [DialTask(flag, n)], true;
      }
    }

    /** What every step of collecting tasks keeps. */
    ghost predicate Collecting(tasks: seq<Task>, before: map<Id, Flag>, peers: map<Id, Flag>, need: int)
      reads this`statics, this`dialing, this`hist
    {
      Valid() && Fresh(tasks, before, dialing) && Allowed(tasks, peers) && Room(peers, need)
    }

    /** While static nodes are gone through: those not in rest are tried, and dropped if they are barred. */
    ghost predicate Sweeping(statics0: map<Id, Node>, d0: map<Id, Flag>, statics: map<Id, Node>, dialing: map<Id, Flag>,
                             rest: set<Id>, peers: map<Id, Flag>)
      reads this`hist
    {
      && rest <= statics.Keys && statics.Keys <= statics0.Keys
      && d0.Keys <= dialing.Keys && (forall id | id in rest && id in dialing :: id in d0)
      && (forall id | id in statics0 :: statics0[id].id == id && (id !in rest ==> Tried(statics0[id], dialing, peers)))
      && (forall id | id in statics :: statics[id] == statics0[id])
      && (forall id | id in statics0 :: id in statics <==> id in rest || !Barred(statics0[id], d0, peers))
    }

    lemma {:induction false} SweepDrop(statics0: map<Id, Node>, d0: map<Id, Flag>, statics: map<Id, Node>, dialing: map<Id, Flag>,
                                       rest: set<Id>, peers: map<Id, Flag>, id: Id)
      requires Sweeping(statics0, d0, statics, dialing, rest, peers) && id in rest
      requires Barred(statics0[id], d0, peers)
      ensures Sweeping(statics0, d0, statics - {id}, dialing, rest - {id}, peers)
    {
    }

    lemma {:induction false} SweepKeep(statics0: map<Id, Node>, d0: map<Id, Flag>, statics: map<Id, Node>, dialing: map<Id, Flag>,
                                       rest: set<Id>, peers: map<Id, Flag>, id: Id, dialing': map<Id, Flag>)
      requires Sweeping(statics0, d0, statics, dialing, rest, peers) && id in rest
      requires Tried(statics0[id], dialing', peers) && !Barred(statics0[id], d0, peers)
      requires dialing.Keys <= dialing'.Keys <= dialing.Keys + {id}
      ensures Sweeping(statics0, d0, statics, dialing', rest - {id}, peers)
    {
    }

    method TryStatic(id: Id, peers: map<Id, Flag>, tasks: seq<Task>, need: int, ghost before: map<Id, Flag>,
                     ghost statics0: map<Id, Node>, ghost d0: map<Id, Flag>, ghost rest: set<Id>)
      returns (tasks': seq<Task>)
      requires id in rest && Sweeping(statics0, d0, statics, dialing, rest, peers) && Collecting(tasks, before, peers, need)
      modifies this`dialing, this`statics
      ensures Sweeping(statics0, d0, statics, dialing, rest - {id}, peers) && Collecting(tasks', before, peers, need)
      ensures Adds(tasks, tasks', Static, {statics0[id]})
    {
      hide Fresh, Room, Allowed, Remembers;
      tasks' := tasks;
      assert statics0[id].id == id && statics[id] == statics0[id] && (id in dialing ==> id in d0) && d0.Keys <= dialing.Keys;
      hide Sweeping;
      var err := CheckDial(statics[id], peers);
      if err == Some(NotWhitelisted) || err == Some(Self) {
        SweepDrop(statics0, d0, statics, dialing, rest, peers, id);
        statics := statics - {id};
      } else {
        ghost var d := dialing;
        if err == None {
          var ok;
          tasks', ok := AddDial(Static, statics[id], peers, tasks, need, before);
        }
        SweepKeep(statics0, d0, statics, d, rest, peers, id, dialing);
      }
    }

    /** Static nodes that are not connected; those that never can be are dropped. */
    method AddStatics(peers: map<Id, Flag>, need: int, ghost before: map<Id, Flag>) returns (tasks: seq<Task>)
      requires Collecting([], before, peers, need)
      modifies this`dialing, this`statics
      ensures Collecting(tasks, before, peers, need) && old(dialing).Keys <= dialing.Keys
      ensures AllTried(old(statics).Values, dialing, peers) && Adds([], tasks, Static, old(statics).Values)
      ensures statics == map id | id in old(statics) && !Barred(old(statics)[id], old(dialing), peers) :: old(statics)[id]
    {
      hide Fresh, Room, Allowed, Remembers, Tried, Barred;
      tasks := [];
      var rest := statics.Keys;
      while rest != {}
        invariant Sweeping(old(statics), old(dialing), statics, dialing, rest, peers) && Collecting(tasks, before, peers, need)
        invariant Adds([], tasks, Static, old(statics).Values)
        decreases |rest|
      {
        var id :| id in rest;
        tasks := TryStatic(id, peers, tasks, need, before, old(statics), old(dialing), rest);
        rest := rest - {id};
      }
    }

    ghost predicate FallsBack(peers: map<Id, Flag>, now: int, bootnodes: seq<Node>, need: int)
      reads this`start
    {
      peers == map[] && bootnodes != [] && need > 0 && start.Some? && now - start.value > 20
    }

    /** With no peers for a while, one of the bootnodes in turn. */
    method AddBootnode(peers: map<Id, Flag>, now: int, tasks: seq<Task>, need: int, ghost before: map<Id, Flag>)
      returns (tasks': seq<Task>, need': int)
      requires Collecting(tasks, before, peers, need)
      modifies this`dialing, this`bootnodes
      ensures Collecting(tasks', before, peers, need') && old(dialing).Keys <= dialing.Keys
      ensures if FallsBack(peers, now, old(bootnodes), need)
              then need' == (if |tasks'| > |tasks| then need - 1 else need)
                && bootnodes == old(bootnodes)[1..] + [old(bootnodes)[0]] && Tried(old(bootnodes)[0], dialing, peers)
                && (tasks' == tasks || tasks' == tasks + [DialTask(Dyn, old(bootnodes)[0])])
                && Adds(tasks, tasks', Dyn, {old(bootnodes)[0]})
              else bootnodes == old(bootnodes) && tasks' == tasks && need' == need
    {
      hide Fresh, DynIds, Remembers;
      tasks', need' := tasks, need;
      if |peers| == 0 && |bootnodes| > 0 && need > 0 && start.Some? && now - start.value > FALLBACK_INTERVAL {
        var bootnode := bootnodes[0];
        bootnodes := bootnodes[1..] + [bootnode];
        var ok;
        tasks', ok := AddDial(Dyn, bootnode, peers, tasks, need, before);
        need' := if ok then need - 1 else need;
      }
    }

    /** Try to dial the next candidate. */
    method TryNext(nodes: seq<Node>, i: nat, peers: map<Id, Flag>, tasks: seq<Task>, need: int, ghost before: map<Id, Flag>, ghost tasks0: seq<Task>)
      returns (tasks': seq<Task>, need': int)
      requires i < |nodes| && need > 0 && Collecting(tasks, before, peers, need)
      requires AllTried(NodesOf(nodes[..i]), dialing, peers) && Adds(tasks0, tasks, Dyn, NodesOf(nodes[..i]))
      modifies this`dialing
      ensures Collecting(tasks', before, peers, need') && old(dialing).Keys <= dialing.Keys
      ensures AllTried(NodesOf(nodes[..i + 1]), dialing, peers) && Adds(tasks0, tasks', Dyn, NodesOf(nodes[..i + 1]))
      ensures need' == need || (need' == need - 1 && |tasks'| > |tasks0| && tasks'[|tasks'| - 1].dest == nodes[i])
    {
      hide Fresh, Room, Allowed, Tried;
      var ok;
      tasks', ok := AddDial(Dyn, nodes[i], peers, tasks, need, before);
      need' := if ok then need - 1 else need;
      StillTried(NodesOf(nodes[..i]), old(dialing), dialing, peers);
      assert nodes[..i + 1] == nodes[..i] + [nodes[i]];
      assert NodesOf(nodes[..i + 1]) == NodesOf(nodes[..i]) + {nodes[i]};
    }

    /** The nodes from the table that are used: as many as half of what is needed. */
    ghost function HalfOf(nodes: seq<Node>, need: int): set<Node> {
      set i | 0 <= i < |nodes| && 2 * (i + 1) <= need :: nodes[i]
    }

    lemma {:induction false} HalfIs(nodes: seq<Node>, need: int, k: nat)
      requires k == if need / 2 <= 0 then 0 else if need / 2 < |nodes| then need / 2 else |nodes|
      ensures NodesOf(nodes[..k]) == HalfOf(nodes, need)
    {
      forall n | n in NodesOf(nodes[..k]) ensures n in HalfOf(nodes, need) {
        var i :| 0 <= i < k && nodes[..k][i] == n;
        assert nodes[i] == n && 2 * (i + 1) <= need;
      }
      forall n | n in HalfOf(nodes, need) ensures n in NodesOf(nodes[..k]) {
        var i :| 0 <= i < |nodes| && 2 * (i + 1) <= need && nodes[i] == n;
        assert nodes[..k][i] == n;
      }
    }

    /** Nodes from the table, for half of what is needed. */
    method AddRandom(peers: map<Id, Flag>, nodes: seq<Node>, tasks: seq<Task>, need: int, ghost before: map<Id, Flag>)
      returns (tasks': seq<Task>, need': int)
      requires Collecting(tasks, before, peers, need)
      modifies this`dialing
      ensures Collecting(tasks', before, peers, need') && old(dialing).Keys <= dialing.Keys
      ensures AllTried(HalfOf(nodes, need), dialing, peers) && Adds(tasks, tasks', Dyn, HalfOf(nodes, need))
    {
      hide Collecting, Tried, HalfOf;
      tasks', need' := tasks, need;
      var candidates := need / 2;
      var i := 0;
      while i < candidates && i < |nodes|
        invariant 0 <= i <= |nodes| && (i > 0 ==> i <= candidates) && need - i <= need' <= need
        invariant Collecting(tasks', before, peers, need') && old(dialing).Keys <= dialing.Keys
        invariant AllTried(NodesOf(nodes[..i]), dialing, peers) && Adds(tasks, tasks', Dyn, NodesOf(nodes[..i]))
      {
        tasks', need' := TryNext(nodes, i, peers, tasks', need', before, tasks);
        i := i + 1;
      }
      HalfIs(nodes, need, i);
    }

    /** Lookup results were tried in order, until they ran out or the last dial needed was made. */
    ghost predicate UsedUp(buf: seq<Node>, buf': seq<Node>, tasks: seq<Task>, tasks': seq<Task>, peers: map<Id, Flag>, need: int)
      reads this`dialing, this`hist
    {
      exists i :: 0 <= i <= |buf| && buf' == buf[i..]
        && AllTried(NodesOf(buf[..i]), dialing, peers) && Adds(tasks, tasks', Dyn, NodesOf(buf[..i]))
        && (if need > 0 then i == |buf| else i > 0 ==> |tasks'| > |tasks| && tasks'[|tasks'| - 1].dest == buf[i - 1])
    }

    /** Nodes that a lookup found, for the rest. */
    method AddLookup(peers: map<Id, Flag>, tasks: seq<Task>, need: int, ghost before: map<Id, Flag>)
      returns (tasks': seq<Task>, need': int)
      requires Collecting(tasks, before, peers, need)
      modifies this`dialing, this`lookupBuf
      ensures Collecting(tasks', before, peers, need') && old(dialing).Keys <= dialing.Keys
      ensures UsedUp(old(lookupBuf), lookupBuf, tasks, tasks', peers, need')
    {
      hide Collecting, Tried;
      tasks', need' := tasks, need;
      var i := 0;
      while i < |lookupBuf| && need' > 0
        invariant 0 <= i <= |lookupBuf| && Collecting(tasks', before, peers, need') && old(dialing).Keys <= dialing.Keys
        invariant AllTried(NodesOf(lookupBuf[..i]), dialing, peers) && Adds(tasks, tasks', Dyn, NodesOf(lookupBuf[..i]))
        invariant need' <= 0 && i > 0 ==> |tasks'| > |tasks| && tasks'[|tasks'| - 1].dest == lookupBuf[i - 1]
        modifies this`dialing
      {
        tasks', need' := TryNext(lookupBuf, i, peers, tasks', need', before, tasks);
        i := i + 1;
      }
      lookupBuf := lookupBuf[i..];
    }

    /** A part of the results from the front on was tried. */
    ghost predicate Consumed(buf: seq<Node>, buf': seq<Node>, peers: map<Id, Flag>)
      reads this`dialing, this`hist
    {
      exists i :: 0 <= i <= |buf| && buf' == buf[i..] && AllTried(NodesOf(buf[..i]), dialing, peers)
    }

    lemma {:induction false} UsedUpConsumed(buf: seq<Node>, buf': seq<Node>, tasks: seq<Task>, tasks': seq<Task>, peers: map<Id, Flag>, need: int)
      requires UsedUp(buf, buf', tasks, tasks', peers, need)
      ensures Consumed(buf, buf', peers) && (need > 0 ==> buf' == []) && Adds(tasks, tasks', Dyn, NodesOf(buf))
    {
      hide AllTried, NodesOf;
      var i :| 0 <= i <= |buf| && buf' == buf[i..]
        && AllTried(NodesOf(buf[..i]), dialing, peers) && Adds(tasks, tasks', Dyn, NodesOf(buf[..i]))
        && (if need > 0 then i == |buf| else i > 0 ==> |tasks'| > |tasks| && tasks'[|tasks'| - 1].dest == buf[i - 1]);
      NodesWithin(buf, i);
    }

    /** Nodes from the table, then lookup results. */
    method AddFound(peers: map<Id, Flag>, random: seq<Node>, tasks: seq<Task>, need: int, ghost before: map<Id, Flag>)
      returns (tasks': seq<Task>, need': int)
      requires Collecting(tasks, before, peers, need)
      modifies this`dialing, this`lookupBuf
      ensures Collecting(tasks', before, peers, need') && old(dialing).Keys <= dialing.Keys
      ensures AllTried(HalfOf(random, need), dialing, peers) && Adds(tasks, tasks', Dyn, HalfOf(random, need) + NodesOf(old(lookupBuf)))
      ensures Consumed(old(lookupBuf), lookupBuf, peers) && (need' > 0 ==> lookupBuf == [])
    {
      hide Collecting, UsedUp, Consumed, AllTried, Tried, HalfOf, NodesOf, Adds;
      tasks', need' := AddRandom(peers, random, tasks, need, before);
      ghost var tasks1, d1 := tasks', dialing;
      tasks', need' := AddLookup(peers, tasks', need', before);
      UsedUpConsumed(old(lookupBuf), lookupBuf, tasks1, tasks', peers, need');
      AddsMore(tasks, tasks1, tasks', Dyn, HalfOf(random, need), NodesOf(old(lookupBuf)));
      StillTried(HalfOf(random, need), d1, dialing, peers);
    }

    /** The candidates: the first bootnode in the fallback, then nodes from the table for half of what is needed beside
        it, then lookup results. */
    ghost function Candidates(fallback: bool, boot: seq<Node>, random: seq<Node>, buf: seq<Node>, need: int, tasks: seq<Task>): set<Node>
      requires fallback ==> boot != []
    {
      (if fallback then {boot[0]} else {}) + FromTable(fallback, boot, random, need, tasks) + NodesOf(buf)
    }

    ghost function FromTable(fallback: bool, boot: seq<Node>, random: seq<Node>, need: int, tasks: seq<Task>): set<Node>
      requires fallback ==> boot != []
    {
      HalfOf(random, if fallback && DialTask(Dyn, boot[0]) in tasks then need - 1 else need)
    }

    /** A node that could not be dialled is not dialled later in the same round. */
    lemma {:induction false} NotLater(tasks: seq<Task>, tasks': seq<Task>, before: map<Id, Flag>, dialing: map<Id, Flag>, dialing': map<Id, Flag>,
                                      peers: map<Id, Flag>, b: Node)
      requires Fresh(tasks, before, dialing) && Fresh(tasks', before, dialing') && Allowed(tasks', peers) && tasks <= tasks'
      requires Tried(b, dialing, peers) && DialTask(Dyn, b) !in tasks
      ensures DialTask(Dyn, b) !in tasks'
    {
      hide Remembers;
      assert forall i :: 0 <= i < |tasks| ==> tasks'[i] == tasks[i];
    }

    ghost predicate NoneDynamic(tasks: seq<Task>) {
      forall i :: 0 <= i < |tasks| ==> tasks[i].DialTask? && tasks[i].flag == Static
    }

    /** The bootnode is among the dials exactly if it was dialled in its turn. */
    lemma {:induction false} Placed(tasks: seq<Task>, tasks1: seq<Task>, tasks': seq<Task>, before: map<Id, Flag>, d1: map<Id, Flag>,
                                    peers: map<Id, Flag>, need': int, b: Node)
      requires Collecting(tasks', before, peers, need') && Fresh(tasks1, before, d1) && tasks1 <= tasks'
      requires Tried(b, d1, peers) && NoneDynamic(tasks) && (tasks1 == tasks || tasks1 == tasks + [DialTask(Dyn, b)])
      ensures DialTask(Dyn, b) in tasks' <==> |tasks1| > |tasks|
    {
      hide Fresh, Allowed, Tried, Room;
      if tasks1 == tasks {
        NotLater(tasks1, tasks', before, d1, dialing, peers, b);
      } else {
        assert tasks'[|tasks|] == tasks1[|tasks|];
      }
    }

    /** Dynamic dials: a bootnode, nodes from the table, lookup results. */
    method AddDynamic(peers: map<Id, Flag>, now: int, random: seq<Node>, tasks: seq<Task>, need: int, ghost before: map<Id, Flag>)
      returns (tasks': seq<Task>, need': int)
      requires Collecting(tasks, before, peers, need) && NoneDynamic(tasks)
      modifies this`dialing, this`bootnodes, this`lookupBuf
      ensures Collecting(tasks', before, peers, need') && old(dialing).Keys <= dialing.Keys
      ensures var fallback := FallsBack(peers, now, old(bootnodes), need);
              && bootnodes == (if fallback then old(bootnodes)[1..] + [old(bootnodes)[0]] else old(bootnodes))
              && (fallback ==> Tried(old(bootnodes)[0], dialing, peers))
              && AllTried(FromTable(fallback, old(bootnodes), random, need, tasks'), dialing, peers)
              && Adds(tasks, tasks', Dyn, Candidates(fallback, old(bootnodes), random, old(lookupBuf), need, tasks'))
      ensures Consumed(old(lookupBuf), lookupBuf, peers) && (need' > 0 ==> lookupBuf == [])
    {
      hide Adds, NoneDynamic, Collecting, Consumed, AllTried, Tried, HalfOf, NodesOf, Fresh, Allowed, DynIds;
      ghost var fallback, first := FallsBack(peers, now, bootnodes, need), if bootnodes == [] then {} else {bootnodes[0]};
      tasks', need' := AddBootnode(peers, now, tasks, need, before);
      Collected(tasks', before, peers, need');
      ghost var tasks1, need1, d1 := tasks', need', dialing;
      AddsNone(tasks, Dyn);
      tasks', need' := AddFound(peers, random, tasks', need', before);
      AddsMore(tasks, tasks1, tasks', Dyn, if fallback then first else {}, HalfOf(random, need1) + NodesOf(old(lookupBuf)));
      if fallback {
        TriedStill(old(bootnodes)[0], d1, dialing, peers);
        Placed(tasks, tasks1, tasks', before, d1, peers, need', old(bootnodes)[0]);
      }
      assert FromTable(fallback, old(bootnodes), random, need, tasks') == HalfOf(random, need1);
      assert (if fallback then first else {}) + (HalfOf(random, need1) + NodesOf(old(lookupBuf)))
          == Candidates(fallback, old(bootnodes), random, old(lookupBuf), need, tasks');
    }

    /** Dials of static nodes and of candidates. */
    method AddAll(peers: map<Id, Flag>, now: int, random: seq<Node>, need: int) returns (tasks: seq<Task>, need': int)
      requires Collecting([], dialing, peers, need)
      modifies this`dialing, this`statics, this`bootnodes, this`lookupBuf
      ensures Collecting(tasks, old(dialing), peers, need') && AllDials(tasks)
      ensures var fallback := FallsBack(peers, now, old(bootnodes), need);
              && bootnodes == (if fallback then old(bootnodes)[1..] + [old(bootnodes)[0]] else old(bootnodes))
              && (fallback ==> Tried(old(bootnodes)[0], dialing, peers))
              && AllTried(FromTable(fallback, old(bootnodes), random, need, tasks), dialing, peers)
              && From(tasks, old(statics).Values, Candidates(fallback, old(bootnodes), random, old(lookupBuf), need, tasks))
      ensures AllTried(old(statics).Values, dialing, peers)
      ensures statics == map id | id in old(statics) && !Barred(old(statics)[id], old(dialing), peers) :: old(statics)[id]
      ensures Consumed(old(lookupBuf), lookupBuf, peers) && (need' > 0 ==> lookupBuf == [])
    {
      hide Collecting, Consumed, AllTried, Barred, Tried, FromTable, Candidates;
      ghost var table := statics.Values;
      tasks := AddStatics(peers, need, dialing);
      ghost var d1, tasks1 := dialing, tasks;
      tasks, need' := AddDynamic(peers, now, random, tasks, need, old(dialing));
      ghost var candidates := Candidates(FallsBack(peers, now, old(bootnodes), need), old(bootnodes), random, old(lookupBuf), need, tasks);
      AddsFrom([], tasks1, Static, table, table, candidates);
      AddsFrom(tasks1, tasks, Dyn, candidates, table, candidates);
      StillTried(table, d1, dialing, peers);
    }

    /** The tasks for now: dials within the budget, each of a node that may be dialled; no static node and no
        lookup result is passed over; a lookup if candidates are short; a wait if nothing else keeps the loop going. */
    method NewTasks(nRunning: nat, peers: map<Id, Flag>, now: int, random: seq<Node>) returns (tasks: seq<Task>)
      requires Valid() && |DynIds(dialing, peers)| <= maxDynDials
      modifies this
      ensures Valid() && |DynIds(dialing, peers)| <= maxDynDials
      ensures Fresh(tasks, old(dialing), dialing) && Allowed(tasks, peers)
      ensures start == if old(start).Some? then old(start) else Some(now)
      ensures var need, fallback := old(Needed(peers)), FallsBack(peers, now, old(bootnodes), old(Needed(peers)));
              && bootnodes == (if fallback then old(bootnodes)[1..] + [old(bootnodes)[0]] else old(bootnodes))
              && (fallback ==> Tried(old(bootnodes)[0], dialing, peers))
              && AllTried(FromTable(fallback, old(bootnodes), random, need, tasks), dialing, peers)
              && From(tasks, old(statics).Values, Candidates(fallback, old(bootnodes), random, old(lookupBuf), need, tasks))
      ensures hist == Expired(old(hist), now) && AllTried(old(statics).Values, dialing, peers)
      ensures statics == map id | id in old(statics) && !Barred(old(statics)[id], old(dialing), peers) :: old(statics)[id]
      ensures Consumed(old(lookupBuf), lookupBuf, peers) && (Needed(peers) > 0 ==> lookupBuf == [] && lookupRunning)
      ensures lookupRunning == (old(lookupRunning) || DiscoverTask in tasks)
      ensures WaitExpireTask in tasks <==> tasks == [WaitExpireTask] && nRunning == 0 && hist != []
      ensures nRunning == 0 && tasks == [] ==> hist == []
    {
      hide Collecting, Fresh, DynIds, DynIn, Allowed, AllTried, Consumed, Barred, Remembers, NodesOf;
      ghost var before := dialing;
      var need := Begin(peers, now);
      tasks, need := AddAll(peers, now, random, need);
      ghost var dials := tasks;
      if |lookupBuf| < need && !lookupRunning {
        lookupRunning := true;
        CollectingMore(tasks, before, peers, need, DiscoverTask);
        tasks := tasks + [DiscoverTask];
      }
      if nRunning == 0 && |tasks| == 0 && |hist| > 0 {
        CollectingMore(tasks, before, peers, need, WaitExpireTask);
        tasks := tasks + [WaitExpireTask];
      }
      assert forall b :: DialTask(Dyn, b) in tasks <==> DialTask(Dyn, b) in dials;
      Collected(tasks, before, peers, need);
    }

    /** How many dynamic dials are needed; the history is brought up to date. */
    method Begin(peers: map<Id, Flag>, now: int) returns (need: int)
      requires Valid() && |DynIds(dialing, peers)| <= maxDynDials
      modifies this`start, this`hist
      ensures Collecting([], dialing, peers, need) && hist == Expired(old(hist), now) && need == Needed(peers)
      ensures start == if old(start).Some? then old(start) else Some(now)
    {
      hide Fresh, Remembers, DynIn;
      if start == None {
        start := Some(now);
      }
      var p := CountDyn(peers);
      var d := CountDyn(dialing);
      need := maxDynDials - p - d;
      UnionSize(DynIn(dialing), DynIn(peers));
      hist := ComputeExpired(hist, now);
      FreshNone(dialing);
    }

    lemma {:induction false} CollectingMore(tasks: seq<Task>, before: map<Id, Flag>, peers: map<Id, Flag>, need: int, t: Task)
      requires Collecting(tasks, before, peers, need) && !t.DialTask?
      ensures Collecting(tasks + [t], before, peers, need)
    {
      hide Fresh, Remembers, DynIds;
      FreshOther(tasks, before, dialing, t);
    }

    lemma {:induction false} Collected(tasks: seq<Task>, before: map<Id, Flag>, peers: map<Id, Flag>, need: int)
      requires Collecting(tasks, before, peers, need)
      ensures Valid() && |DynIds(dialing, peers)| <= maxDynDials && Fresh(tasks, before, dialing) && Allowed(tasks, peers)
      ensures need == Needed(peers)
    {
    }

    /** A finished dial is remembered; a finished lookup leaves its results. */
    method TaskDone(t: Task, now: int, results: seq<Node>)
      modifies this`dialing, this`hist, this`lookupRunning, this`lookupBuf
      ensures dialing == if t.DialTask? then old(dialing) - {t.dest.id} else old(dialing)
      ensures lookupRunning == (old(lookupRunning) && !t.DiscoverTask?)
      ensures lookupBuf == old(lookupBuf) + if t.DiscoverTask? then results else []
      ensures hist == if t.DialTask? then old(hist) + [PastDial(t.dest.id, now + 30)] else old(hist)
    {
      match t
      case DialTask(_, dest) =>
        hist := hist + [PastDial(dest.id, now + DIAL_HISTORY_EXPIRATION)];
        dialing := dialing - {dest.id};
      case DiscoverTask =>
        lookupRunning := false;
        lookupBuf := lookupBuf + results;
      case WaitExpireTask =>
    }
  }

  // ---- the server loop ----

  lemma {:induction false} DialledEither(a: seq<Task>, b: seq<Task>, id: Id)
    ensures DialledBy(a + b, id) <==> DialledBy(a, id) || DialledBy(b, id)
  {
    var all := a + b;
    if DialledBy(a, id) {
      var i :| 0 <= i < |a| && Dials(a[i], id);
      assert all[i] == a[i];
    }
    if DialledBy(b, id) {
      var i :| 0 <= i < |b| && Dials(b[i], id);
      assert all[|a| + i] == b[i];
    }
    if DialledBy(all, id) {
      var i :| 0 <= i < |all| && Dials(all[i], id);
      assert if i < |a| then all[i] == a[i] else all[i] == b[i - |a|];
    }
  }

  /** New tasks for nodes not being dialled join those in flight. */
  lemma {:induction false} FreshJoin(tasks: seq<Task>, more: seq<Task>, dialing: map<Id, Flag>, dialing': map<Id, Flag>)
    requires Fresh(tasks, map[], dialing) && Fresh(more, dialing, dialing')
    ensures Fresh(tasks + more, map[], dialing')
  {
    hide DialledBy;
    forall id | id in dialing' ensures DialledBy(tasks + more, id) {
      DialledEither(tasks, more, id);
    }
  }

  function Without(tasks: seq<Task>, i: nat): seq<Task>
    requires i < |tasks|
  {
    tasks[..i] + tasks[i + 1..]
  }

  /** When a task is done, the others are those in flight. */
  lemma {:induction false} FreshDone(tasks: seq<Task>, i: nat, dialing: map<Id, Flag>)
    requires Fresh(tasks, map[], dialing) && i < |tasks|
    ensures Fresh(Without(tasks, i), map[], if tasks[i].DialTask? then dialing - {tasks[i].dest.id} else dialing)
  {
    var t, rest := tasks[i], Without(tasks, i);
    var dialing' := if t.DialTask? then dialing - {t.dest.id} else dialing;
    assert forall j :: 0 <= j < |rest| ==> rest[j] == tasks[if j < i then j else j + 1];
    forall id | id in dialing' ensures DialledBy(rest, id) {
      var k :| 0 <= k < |tasks| && Dials(tasks[k], id);
      assert k != i && rest[if k < i then k else k - 1] == tasks[k];
    }
  }

  lemma {:induction false} FewerDyn(dialing: map<Id, Flag>, peers: map<Id, Flag>, dialing': map<Id, Flag>, peers': map<Id, Flag>)
    requires DynIds(dialing', peers') <= DynIds(dialing, peers)
    ensures |DynIds(dialing', peers')| <= |DynIds(dialing, peers)|
  {
    var a, b := DynIds(dialing', peers'), DynIds(dialing, peers);
    assert b == a + (b - a);
  }

  /** The peers that are neither trusted nor static. */
  ghost function Ordinary(peers: map<Id, Flag>, trusted: set<Id>): set<Id> {
    set id | id in peers && id !in trusted && peers[id] != Static
  }

  lemma {:induction false} OrdinaryWith(peers: map<Id, Flag>, trusted: set<Id>, id: Id, flag: Flag)
    requires id !in peers
    ensures |Ordinary(peers[id := flag], trusted)| <= |peers| + 1
    ensures id in trusted || flag == Static ==> Ordinary(peers[id := flag], trusted) == Ordinary(peers, trusted)
    ensures |peers[id := flag]| == |peers| + 1
  {
    var more := peers[id := flag];
    assert more.Keys == peers.Keys + {id} && |more| == |more.Keys| && |peers| == |peers.Keys|;
    SubsetSize(Ordinary(more, trusted), more.Keys);
  }

  lemma {:induction false} SubsetSize<T>(a: set<T>, b: set<T>)
    requires a <= b
    ensures |a| <= |b|
  {
    assert b == a + (b - a);
  }

  class Server {
    const dialstate: DialState
    const maxPeers: nat
    const trusted: set<Id>
    var peers: map<Id, Flag>
    var running: seq<Task>
    var queued: seq<Task>

    /** The budget holds, there are not too many ordinary peers, and exactly the dial tasks in flight are being dialled. */
    ghost predicate Valid()
      reads this, dialstate
    {
      && dialstate.Valid() && |DynIds(dialstate.dialing, peers)| <= dialstate.maxDynDials
      && Fresh(running + queued, map[], dialstate.dialing) && |running| <= 16 && |Ordinary(peers, trusted)| <= maxPeers
    }

    constructor (dialstate: DialState, maxPeers: nat, trusted: set<Id>)
      requires dialstate.dialing == map[] && dialstate.Valid()
      ensures Valid() && this.dialstate == dialstate && this.maxPeers == maxPeers && this.trusted == trusted
      ensures peers == map[] && running == [] && queued == []
    {
      this.dialstate, this.maxPeers, this.trusted := dialstate, maxPeers, trusted;
      peers, running, queued := map[], [], [];
    }

    /** Start tasks while there is room. */
    method StartTasks(ts: seq<Task>) returns (rest: seq<Task>)
      requires |running| <= 16
      modifies this`running
      ensures |running| <= 16 && running + rest == old(running) + ts
      ensures |running| < 16 ==> rest == []
    {
      var i := 0;
      while |running| < MAX_ACTIVE_DIAL_TASKS && i < |ts|
        invariant 0 <= i <= |ts| && |running| <= 16 && running == old(running) + ts[..i]
        decreases |ts| - i
      {
        running := running + [ts[i]];
        i := i + 1;
      }
      rest := ts[i..];
    }

    method ScheduleTasks(now: int, random: seq<Node>)
      requires Valid()
      modifies this`running, this`queued, dialstate
      ensures Valid() && old(running + queued) <= running + queued && (|running| < 16 ==> queued == [])
      ensures |running| < 16 ==> dialstate.AllTried(old(dialstate.statics).Values, dialstate.dialing, peers)
      ensures |running| < 16 ==> dialstate.Needed(peers) > 0 ==> dialstate.lookupBuf == [] && dialstate.lookupRunning
      ensures running == [] ==> dialstate.hist == []
    {
      hide Fresh, DynIds, DynIn, Expired, From, NodesOf, Remembers;
      queued := StartTasks(queued);
      if |running| < MAX_ACTIVE_DIAL_TASKS {
        assert running + queued == running;
        ghost var before := dialstate.dialing;
        var nt := dialstate.NewTasks(|running| + |queued|, peers, now, random);
        FreshJoin(running, nt, before, dialstate.dialing);
        queued := StartTasks(nt);
      }
    }

    method TaskDone(i: nat, now: int, results: seq<Node>)
      requires Valid() && i < |running|
      modifies this`running, dialstate
      ensures Valid() && running == Without(old(running), i) && dialstate.statics == old(dialstate.statics)
      ensures var t := old(running)[i];
              dialstate.hist == old(dialstate.hist) + if t.DialTask? then [PastDial(t.dest.id, now + 30)] else []
    {
      hide Fresh;
      var t := running[i];
      FreshDone(running + queued, i, dialstate.dialing);
      ghost var before := dialstate.dialing;
      dialstate.TaskDone(t, now, results);
      assert Without(running + queued, i) == Without(running, i) + queued;
      running := Without(running, i);
      FewerDyn(before, peers, dialstate.dialing, peers);
    }

    /** Why a connection is not accepted as a peer: there are enough, unless it is trusted or static; or the node is
        connected already, or this one. */
    predicate Refuses(id: Id, flag: Flag)
      reads this
    {
      (id !in trusted && flag != Static && |peers| >= maxPeers) || id in peers || dialstate.self == Some(id)
    }

    /** A new node is admitted with room or a privilege. */
    ghost predicate Admitted(peers: map<Id, Flag>, id: Id, flag: Flag, useless: bool) {
      && !useless && id !in peers && dialstate.self != Some(id)
      && (id in trusted || flag == Static || |peers| < maxPeers)
    }

    /** The connection a running dial task made becomes a peer, unless it is refused or runs no protocol of ours. */
    method AddDialled(i: nat, useless: bool) returns (ok: bool)
      requires Valid() && i < |running| && running[i].DialTask?
      modifies this`peers
      ensures Valid() && ok == Admitted(old(peers), running[i].dest.id, running[i].flag, useless)
      ensures ok && running[i].dest.id !in trusted && running[i].flag != Static ==> |peers| <= maxPeers
      ensures peers == if ok then old(peers)[running[i].dest.id := running[i].flag] else old(peers)
    {
      var id, flag := running[i].dest.id, running[i].flag;
      ok := !useless && !Refuses(id, flag);
      if ok {
        ghost var before := peers;
        assert (running + queued)[i] == running[i];
        DynInWith(peers, id, flag);
        OrdinaryWith(peers, trusted, id, flag);
        peers := peers[id := flag];
        FewerDyn(dialstate.dialing, before, dialstate.dialing, peers);
      }
    }

    method AddInbound(id: Id, useless: bool) returns (ok: bool)
      requires Valid()
      modifies this`peers
      ensures ok && id !in trusted ==> |peers| <= maxPeers
      ensures Valid() && ok == Admitted(old(peers), id, Inbound, useless) && peers == if ok then old(peers)[id := Inbound] else old(peers)
    {
      ok := !useless && !Refuses(id, Inbound);
      if ok {
        ghost var before := peers;
        DynInWith(peers, id, Inbound);
        OrdinaryWith(peers, trusted, id, Inbound);
        peers := peers[id := Inbound];
        FewerDyn(dialstate.dialing, before, dialstate.dialing, peers);
      }
    }

    method DropPeer(id: Id)
      requires Valid()
      modifies this`peers
      ensures Valid() && peers == old(peers) - {id}
    {
      ghost var before := peers;
      peers := peers - {id};
      SubsetSize(Ordinary(peers, trusted), Ordinary(before, trusted));
      FewerDyn(dialstate.dialing, before, dialstate.dialing, peers);
    }
  }
}

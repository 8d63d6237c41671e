/** Matching subprotocols: which run on a connection, and which message codes each of them gets. */
module Protocols {
  import opened Options
  import opened HexKeys
  import opened Traversal

  type Name = Bytes

  datatype Cap = Cap(name: Name, version: nat)

  datatype Protocol = Protocol(name: Name, version: nat, length: nat)

  datatype Running = Running(proto: Protocol, offset: nat)

  const BASE_PROTOCOL_LENGTH: nat := 16

  function CapOf(p: Protocol): Cap {
    Cap(p.name, p.version)
  }

  predicate CapLess(a: Cap, b: Cap) {
    Less(a.name, b.name) || (a.name == b.name && a.version < b.version)
  }

  ghost predicate Sorted(cs: seq<Cap>) {
    forall i, j :: 0 <= i < j < |cs| ==> !CapLess(cs[j], cs[i])
  }

  lemma {:induction false} CapLessTotal(a: Cap, b: Cap)
    ensures CapLess(a, b) || CapLess(b, a) || a == b
    ensures !(CapLess(a, b) && CapLess(b, a))
  {
    CompareAnti(a.name, b.name);
  }

  lemma {:induction false} NotLessTrans(a: Cap, b: Cap, c: Cap)
    requires !CapLess(b, a) && !CapLess(c, b)
    ensures !CapLess(c, a)
  {
    CapLessTotal(a, b);
    CapLessTotal(b, c);
    CapLessTotal(a, c);
    if Less(a.name, b.name) && Less(b.name, c.name) {
      LessTrans(a.name, b.name, c.name);
    }
    CompareAnti(a.name, c.name);
  }

  /** c with everything before it not above it, and everything after it not below it. */
  ghost predicate Belongs(cs: seq<Cap>, c: Cap, i: nat)
    requires i <= |cs|
  {
    (forall j :: 0 <= j < i ==> !CapLess(c, cs[j])) && (forall j :: i <= j < |cs| ==> !CapLess(cs[j], c))
  }

  function Inserted(cs: seq<Cap>, c: Cap, i: nat): (r: seq<Cap>)
    requires i <= |cs|
    ensures |r| == |cs| + 1
    ensures forall j :: 0 <= j < |r| ==> r[j] == if j < i then cs[j] else if j == i then c else cs[j - 1]
  {
    cs[..i] + [c] + cs[i..]
  }

  lemma {:induction false} InsertedSorted(cs: seq<Cap>, c: Cap, i: nat)
    requires Sorted(cs) && i <= |cs| && Belongs(cs, c, i)
    ensures Sorted(Inserted(cs, c, i))
  {
    hide CapLess;
    var r := Inserted(cs, c, i);
    forall j, k | 0 <= j < k < |r| ensures !CapLess(r[k], r[j]) {
      var j', k' := (if j < i then j else j - 1), (if k < i then k else k - 1);
      assert j != i && k != i ==> r[j] == cs[j'] && r[k] == cs[k'];
    }
  }

  lemma {:induction false} InsertedSame(cs: seq<Cap>, c: Cap, i: nat)
    requires i <= |cs|
    ensures multiset(Inserted(cs, c, i)) == multiset(cs) + multiset{c}
  {
    assert cs == cs[..i] + cs[i..];
  }

  /** Below a place where c stops moving down, nothing is above c. */
  lemma {:induction false} BelongsHere(cs: seq<Cap>, c: Cap, i: nat)
    requires Sorted(cs) && i <= |cs| && (i == 0 || !CapLess(c, cs[i - 1]))
    ensures forall j :: 0 <= j < i ==> !CapLess(c, cs[j])
  {
    hide CapLess;
    forall j | 0 <= j < i ensures !CapLess(c, cs[j]) {
      if j < i - 1 {
        NotLessTrans(cs[j], cs[i - 1], c);
      }
    }
  }

  method Insert(cs: seq<Cap>, c: Cap) returns (r: seq<Cap>)
    requires Sorted(cs)
    ensures Sorted(r) && multiset(r) == multiset(cs) + multiset{c}
  {
    hide Sorted, Inserted;
    var i := |cs|;
    while i > 0 && CapLess(c, cs[i - 1])
      invariant 0 <= i <= |cs| && forall j :: i <= j < |cs| ==> !CapLess(cs[j], c)
    {
      CapLessTotal(c, cs[i - 1]);
      i := i - 1;
    }
    BelongsHere(cs, c, i);
    InsertedSorted(cs, c, i);
    InsertedSame(cs, c, i);
    r := Inserted(cs, c, i);
  }

  /** The capabilities by name and version. */
  method SortCaps(caps: seq<Cap>) returns (r: seq<Cap>)
    ensures Sorted(r) && multiset(r) == multiset(caps)
  {
    r := [];
    var i := 0;
    while i < |caps|
      invariant 0 <= i <= |caps| && Sorted(r) && multiset(r) == multiset(caps[..i])
    {
      assert caps[..i + 1] == caps[..i] + [caps[i]];
      r := Insert(r, caps[i]);
      i := i + 1;
    }
    assert caps[..i] == caps;
  }

  // ---- the match ----

  /** The first protocol with this name and version. */
  function Pick(protocols: seq<Protocol>, c: Cap): Option<Protocol> {
    if protocols == [] then None
    else if CapOf(protocols[0]) == c then Some(protocols[0])
    else Pick(protocols[1..], c)
  }

  lemma {:induction false} PickFound(protocols: seq<Protocol>, c: Cap)
    ensures Pick(protocols, c).Some? <==> exists i :: 0 <= i < |protocols| && CapOf(protocols[i]) == c
    ensures Pick(protocols, c).Some? ==> Pick(protocols, c).value in protocols && CapOf(Pick(protocols, c).value) == c
  {
    if protocols != [] && CapOf(protocols[0]) != c {
      PickFound(protocols[1..], c);
      if Pick(protocols, c).Some? {
        var i :| 0 <= i < |protocols[1..]| && CapOf(protocols[1..][i]) == c;
        assert protocols[i + 1] == protocols[1..][i];
      }
      forall i | 0 <= i < |protocols| && CapOf(protocols[i]) == c ensures Pick(protocols, c).Some? {
        assert protocols[1..][i - 1] == protocols[i];
      }
    }
  }

  method ComputePick(protocols: seq<Protocol>, c: Cap) returns (p: Option<Protocol>)
    ensures p == Pick(protocols, c)
  {
    var i := 0;
    assert protocols[0..] == protocols;
    while i < |protocols|
      invariant 0 <= i <= |protocols| && Pick(protocols, c) == Pick(protocols[i..], c)
    {
      if protocols[i].name == c.name && protocols[i].version == c.version {
        return Some(protocols[i]);
      }
      assert protocols[i..][1..] == protocols[i + 1..];
      i := i + 1;
    }
    p := None;
  }

  function Sum(g: seq<Protocol>): nat {
    if g == [] then 0 else Sum(g[..|g| - 1]) + g[|g| - 1].length
  }

  /** Where the codes of the i-th protocol begin. */
  function Offset(g: seq<Protocol>, i: nat): nat
    requires i <= |g|
  {
    BASE_PROTOCOL_LENGTH + Sum(g[..i])
  }

  ghost predicate Increasing(g: seq<Protocol>) {
    forall i, j :: 0 <= i < j < |g| ==> Less(g[i].name, g[j].name)
  }

  /** The table holds the running protocols, each with its offset. */
  ghost predicate Table(result: map<Name, Running>, g: seq<Protocol>) {
    && (forall i :: 0 <= i < |g| ==> g[i].name in result && result[g[i].name] == Running(g[i], Offset(g, i)))
    && (forall n | n in result :: exists i :: 0 <= i < |g| && g[i].name == n)
  }

  /** g is what caps share with the protocols: one entry for each name, with the highest version. */
  ghost predicate Selects(g: seq<Protocol>, protocols: seq<Protocol>, caps: seq<Cap>) {
    && Increasing(g)
    && (forall i :: 0 <= i < |g| ==> CapOf(g[i]) in caps && Pick(protocols, CapOf(g[i])) == Some(g[i]))
    && (forall c | c in caps && Pick(protocols, c).Some? :: exists i :: 0 <= i < |g| && g[i].name == c.name && c.version <= g[i].version)
  }

  /** One more protocol: in place of an earlier version, or after the others. */
  function Placed(g: seq<Protocol>, p: Protocol): seq<Protocol> {
    (if g != [] && g[|g| - 1].name == p.name then g[..|g| - 1] else g) + [p]
  }

  lemma {:induction false} SelectsSkip(g: seq<Protocol>, protocols: seq<Protocol>, cs: seq<Cap>, c: Cap)
    requires Selects(g, protocols, cs) && Pick(protocols, c) == None
    ensures Selects(g, protocols, cs + [c])
  {
    hide Pick;
  }

  /** In sorted capabilities, only the last name can come again. */
  lemma {:induction false} NamesBefore(g: seq<Protocol>, protocols: seq<Protocol>, cs: seq<Cap>, c: Cap, i: nat)
    requires Selects(g, protocols, cs) && Sorted(cs + [c]) && i < |g|
    ensures Less(g[i].name, c.name) || (g[i].name == c.name && g[i].version <= c.version)
    ensures g[i].name == c.name ==> i == |g| - 1
  {
    hide Pick;
    assert CapOf(g[i]) in cs && CapOf(g[|g| - 1]) in cs;
    var k :| 0 <= k < |cs| && cs[k] == CapOf(g[i]);
    var l :| 0 <= l < |cs| && cs[l] == CapOf(g[|g| - 1]);
    assert (cs + [c])[k] == cs[k] && (cs + [c])[l] == cs[l] && (cs + [c])[|cs|] == c;
    CapLessTotal(c, cs[k]);
    CapLessTotal(c, cs[l]);
    CompareAnti(g[i].name, g[|g| - 1].name);
  }

  /** How many of the protocols stay in front of the one that is placed. */
  ghost function Front(g: seq<Protocol>, p: Protocol): nat {
    if g != [] && g[|g| - 1].name == p.name then |g| - 1 else |g|
  }

  lemma {:induction false} PlacedFront(g: seq<Protocol>, p: Protocol)
    ensures var k := Front(g, p);
            && Placed(g, p) == g[..k] + [p] && |Placed(g, p)| == k + 1 && Placed(g, p)[k] == p
            && forall i :: 0 <= i < k ==> Placed(g, p)[i] == g[i]
  {
  }

  lemma {:induction false} IncreasingNext(g: seq<Protocol>, protocols: seq<Protocol>, cs: seq<Cap>, c: Cap, p: Protocol)
    requires Selects(g, protocols, cs) && Sorted(cs + [c]) && CapOf(p) == c
    ensures Increasing(Placed(g, p))
  {
    hide Pick, Placed, Sorted, Less, Compare, Selects;
    SelectsIncreasing(g, protocols, cs);
    PlacedFront(g, p);
    var g', k := Placed(g, p), Front(g, p);
    forall i | 0 <= i < k ensures Less(g[i].name, c.name) {
      NamesBefore(g, protocols, cs, c, i);
    }
    forall i, j | 0 <= i < j < |g'| ensures Less(g'[i].name, g'[j].name) {
      assert j < k ==> Less(g[i].name, g[j].name);
    }
  }

  ghost predicate Reaches(h: seq<Protocol>, n: Name, version: nat) {
    exists j :: 0 <= j < |h| && h[j].name == n && version <= h[j].version
  }

  lemma {:induction false} ReachesPlaced(g: seq<Protocol>, p: Protocol, n: Name, version: nat)
    requires (n == p.name && version <= p.version) || Reaches(g, n, version)
    requires forall i :: 0 <= i < |g| && g[i].name == p.name ==> i == |g| - 1 && g[i].version <= p.version
    ensures Reaches(Placed(g, p), n, version)
  {
    hide Placed;
    var g', k := Placed(g, p), Front(g, p);
    PlacedFront(g, p);
    if Reaches(g, n, version) {
      var i :| 0 <= i < |g| && g[i].name == n && version <= g[i].version;
      if i < k {
        assert g'[i] == g[i];
      } else {
        assert g'[k] == p;
      }
    } else {
      assert g'[k] == p;
    }
  }

  lemma {:induction false} CoversNext(g: seq<Protocol>, protocols: seq<Protocol>, cs: seq<Cap>, c: Cap, p: Protocol, d: Cap)
    requires Selects(g, protocols, cs) && Sorted(cs + [c]) && CapOf(p) == c
    requires d in cs + [c] && Pick(protocols, d).Some?
    ensures Reaches(Placed(g, p), d.name, d.version)
  {
    forall i | 0 <= i < |g| && g[i].name == p.name ensures i == |g| - 1 && g[i].version <= p.version {
      NameLast(g, protocols, cs, c, i);
    }
    assert d != c ==> Reaches(g, d.name, d.version);
    hide Pick, Placed, Sorted, Selects, Reaches;
    ReachesPlaced(g, p, d.name, d.version);
  }

  lemma {:induction false} NameLast(g: seq<Protocol>, protocols: seq<Protocol>, cs: seq<Cap>, c: Cap, i: nat)
    requires Selects(g, protocols, cs) && Sorted(cs + [c]) && i < |g| && g[i].name == c.name
    ensures i == |g| - 1 && g[i].version <= c.version
  {
    hide Pick, Sorted, Selects;
    NamesBefore(g, protocols, cs, c, i);
    Irreflexive(c.name);
  }

  lemma {:induction false} SelectsNext(g: seq<Protocol>, protocols: seq<Protocol>, cs: seq<Cap>, c: Cap)
    requires Selects(g, protocols, cs) && Sorted(cs + [c]) && Pick(protocols, c).Some?
    ensures Selects(Placed(g, Pick(protocols, c).value), protocols, cs + [c])
  {
    PickFound(protocols, c);
    hide Pick, Placed, Sorted;
    var p := Pick(protocols, c).value;
    PlacedFront(g, p);
    IncreasingNext(g, protocols, cs, c, p);
    forall d | d in cs + [c] && Pick(protocols, d).Some?
      ensures Reaches(Placed(g, p), d.name, d.version)
    {
      CoversNext(g, protocols, cs, c, p, d);
    }
  }

  lemma {:induction false} Irreflexive(n: Name)
    ensures !Less(n, n)
  {
  }

  /** A name that is in the table and comes again is the last. */
  lemma {:induction false} Again(result: map<Name, Running>, g: seq<Protocol>, p: Protocol)
    requires Table(result, g) && Increasing(Placed(g, p))
    ensures p.name in result <==> Front(g, p) < |g|
    ensures p.name in result ==> result[p.name].proto == g[Front(g, p)]
  {
    hide Placed, Sum;
    PlacedFront(g, p);
    var g', k := Placed(g, p), Front(g, p);
    Irreflexive(p.name);
    forall i | 0 <= i < k ensures g[i].name != p.name {
      assert Less(g'[i].name, g'[k].name);
    }
  }

  lemma {:induction false} TablePlaced(result: map<Name, Running>, g: seq<Protocol>, p: Protocol)
    requires Table(result, g) && Increasing(Placed(g, p))
    ensures Table(result[p.name := Running(p, Offset(g, Front(g, p)))], Placed(g, p))
  {
    hide Placed, Sum, Less, Compare;
    Again(result, g, p);
    PlacedFront(g, p);
    var g', k := Placed(g, p), Front(g, p);
    var result' := result[p.name := Running(p, Offset(g, k))];
    Irreflexive(p.name);
    forall i | 0 <= i < |g'| ensures g'[i].name in result' && result'[g'[i].name] == Running(g'[i], Offset(g', i)) {
      assert g'[..i] == g[..i];
      assert i < k ==> Less(g'[i].name, g'[k].name);
    }
    forall n | n in result' ensures exists i :: 0 <= i < |g'| && g'[i].name == n {
      if n == p.name {
        assert g'[k].name == n;
      } else {
        var i :| 0 <= i < |g| && g[i].name == n;
        assert i < k && g'[i] == g[i];
      }
    }
  }

  /** The table of the protocols that are selected. */
  ghost predicate Matched(result: map<Name, Running>, protocols: seq<Protocol>, caps: seq<Cap>) {
    exists g :: Table(result, g) && Selects(g, protocols, caps)
  }

  method MatchProtocols(protocols: seq<Protocol>, caps: seq<Cap>) returns (result: map<Name, Running>, ghost g: seq<Protocol>)
    ensures Matched(result, protocols, caps)
    ensures Table(result, g) && Selects(g, protocols, caps)
  {
    hide Pick, Table, Selects, Sum, Placed;
    var cs := SortCaps(caps);
    var offset := BASE_PROTOCOL_LENGTH;
    result, g := map[], [];
    Nothing(protocols);
    var i := 0;
    while i < |cs|
      invariant 0 <= i <= |cs| && offset == Offset(g, |g|)
      invariant Table(result, g) && Selects(g, protocols, cs[..i])
    {
      var c := cs[i];
      assert cs[..i + 1] == cs[..i] + [c] && Sorted(cs[..i] + [c]);
      var p := ComputePick(protocols, c);
      if p.Some? {
        PickFound(protocols, c);
        SelectsNext(g, protocols, cs[..i], c);
        SelectsIncreasing(Placed(g, p.value), protocols, cs[..i + 1]);
        Again(result, g, p.value);
        TablePlaced(result, g, p.value);
        PlacedFront(g, p.value);
        ghost var base := Front(g, p.value);
        OffsetNext(g, base);
        OffsetNext(Placed(g, p.value), base);
        assert Placed(g, p.value)[..base] == g[..base];
        if c.name in result {
          offset := offset - result[c.name].proto.length;
        }
        result := result[c.name := Running(p.value, offset)];
        offset := offset + p.value.length;
        g := Placed(g, p.value);
      } else {
        SelectsSkip(g, protocols, cs[..i], c);
      }
      i := i + 1;
    }
    assert cs[..i] == cs;
    SelectsSame(g, protocols, cs, caps);
  }

  lemma {:induction false} Nothing(protocols: seq<Protocol>)
    ensures Table(map[], []) && Selects([], protocols, []) && Offset([], 0) == BASE_PROTOCOL_LENGTH
  {
  }

  lemma {:induction false} SelectsIncreasing(g: seq<Protocol>, protocols: seq<Protocol>, cs: seq<Cap>)
    requires Selects(g, protocols, cs)
    ensures Increasing(g)
  {
  }

  lemma {:induction false} OffsetNext(g: seq<Protocol>, i: nat)
    requires i <= |g|
    ensures i < |g| ==> Offset(g, i + 1) == Offset(g, i) + g[i].length
    ensures g[..|g|] == g
  {
    if i < |g| {
      assert g[..i + 1][..i] == g[..i];
    }
  }

  lemma {:induction false} SelectsSame(g: seq<Protocol>, protocols: seq<Protocol>, cs: seq<Cap>, caps: seq<Cap>)
    requires Selects(g, protocols, cs) && multiset(cs) == multiset(caps)
    ensures Selects(g, protocols, caps)
  {
    hide Pick;
    forall c ensures c in cs <==> c in caps {
      assert c in multiset(cs) <==> c in multiset(caps);
    }
  }

  // ---- codes ----

  /** The ranges of the protocols follow one another from the base protocol on. */
  lemma {:induction false} RangesFollow(g: seq<Protocol>, i: nat, j: nat)
    requires i < j <= |g|
    ensures Offset(g, 0) == 16 <= Offset(g, i) && Offset(g, i) + g[i].length <= Offset(g, j)
    ensures j == i + 1 ==> Offset(g, j) == Offset(g, i) + g[i].length
    decreases j
  {
    OffsetNext(g, j - 1);
    if i < j - 1 {
      RangesFollow(g, i, j - 1);
    }
  }

  predicate InRange(r: Running, code: nat) {
    r.offset <= code < r.offset + r.proto.length
  }

  /** At most one protocol is responsible for a code. */
  lemma {:induction false} OneResponsible(result: map<Name, Running>, g: seq<Protocol>, m: Name, n: Name, code: nat)
    requires Table(result, g) && m in result && n in result && InRange(result[m], code) && InRange(result[n], code)
    ensures m == n
  {
    hide Offset;
    var i :| 0 <= i < |g| && g[i].name == m;
    var j :| 0 <= j < |g| && g[j].name == n;
    if i < j {
      RangesFollow(g, i, j);
    } else if j < i {
      RangesFollow(g, j, i);
    }
  }

  /** The protocol responsible for a code, looked for in any order. */
  method GetProto(running: map<Name, Running>, code: nat) returns (r: Option<Running>)
    ensures r.Some? ==> InRange(r.value, code) && exists n :: n in running && running[n] == r.value
    ensures r.None? ==> forall n | n in running :: !InRange(running[n], code)
  {
    var rest := running.Keys;
    while rest != {}
      invariant rest <= running.Keys && forall n | n in running && n !in rest :: !InRange(running[n], code)
      decreases |rest|
    {
      var n :| n in rest;
      if InRange(running[n], code) {
        return Some(running[n]);
      }
      rest := rest - {n};
    }
    r := None;
  }

  /** A protocol may write codes below its length; they go out above its offset. */
  function WriteCode(r: Running, code: nat): Option<nat> {
    if code >= r.proto.length then None else Some(code + r.offset)
  }

  // ---- two peers ----

  /** caps announce exactly the protocols, in some order and perhaps more than once. */
  ghost predicate Announces(caps: seq<Cap>, protocols: seq<Protocol>) {
    && (forall c | c in caps :: exists i :: 0 <= i < |protocols| && CapOf(protocols[i]) == c)
    && (forall i :: 0 <= i < |protocols| ==> CapOf(protocols[i]) in caps)
  }

  ghost predicate LengthsAgree(a: seq<Protocol>, b: seq<Protocol>) {
    forall p, q | p in a && q in b && CapOf(p) == CapOf(q) :: p.length == q.length
  }

  ghost predicate Named(h: seq<Protocol>, n: Name) {
    exists j :: 0 <= j < |h| && h[j].name == n
  }

  /** What one side selects, the other has announced and shares. */
  lemma {:induction false} Shared(g: seq<Protocol>, a: seq<Protocol>, capsA: seq<Cap>, b: seq<Protocol>, capsB: seq<Cap>, h: seq<Protocol>, i: nat)
    requires Selects(g, a, capsB) && Selects(h, b, capsA) && Announces(capsA, a) && Announces(capsB, b) && i < |g|
    ensures Reaches(h, g[i].name, g[i].version) && Named(h, g[i].name)
  {
    PickFound(a, CapOf(g[i]));
    PickFound(b, CapOf(g[i]));
    hide Pick;
    assert CapOf(g[i]) in capsB && g[i] in a;
    assert CapOf(g[i]) in capsA;
  }

  lemma {:induction false} SameNames(g: seq<Protocol>, h: seq<Protocol>)
    requires Increasing(g) && Increasing(h)
    requires forall i :: 0 <= i < |g| ==> Named(h, g[i].name)
    requires forall j :: 0 <= j < |h| ==> Named(g, h[j].name)
    ensures |g| == |h| && forall i :: 0 <= i < |g| ==> g[i].name == h[i].name
  {
    hide Less, Compare;
    assert |h| > 0 ==> Named(g, h[0].name);
    assert |g| > 0 ==> Named(h, g[0].name);
    if g != [] && h != [] {
      hide Named;
      FirstSame(g, h);
      forall i | 0 <= i < |g[1..]| ensures Named(h[1..], g[1..][i].name) {
        TailName(g, h, i + 1);
      }
      forall j | 0 <= j < |h[1..]| ensures Named(g[1..], h[1..][j].name) {
        TailName(h, g, j + 1);
      }
      SameNames(g[1..], h[1..]);
      forall i | 0 <= i < |g| ensures i < |h| && g[i].name == h[i].name {
        assert i > 0 ==> g[i] == g[1..][i - 1] && h[i] == h[1..][i - 1];
      }
    }
  }

  lemma {:induction false} FirstSame(g: seq<Protocol>, h: seq<Protocol>)
    requires Increasing(g) && Increasing(h) && g != [] && h != [] && Named(h, g[0].name) && Named(g, h[0].name)
    ensures g[0].name == h[0].name
  {
    CompareAnti(g[0].name, h[0].name);
  }

  lemma {:induction false} TailName(g: seq<Protocol>, h: seq<Protocol>, i: nat)
    requires Increasing(g) && h != [] && 0 < i < |g| && g[0].name == h[0].name && Named(h, g[i].name)
    ensures Named(h[1..], g[i].name)
  {
    var j :| 0 <= j < |h| && h[j].name == g[i].name;
    Irreflexive(g[i].name);
    assert Less(g[0].name, g[i].name);
    assert j > 0 && h[1..][j - 1] == h[j];
  }

  /** Two peers that match each other's announcements run the same protocols with the same codes. */
  lemma {:induction false} Agreement(g: seq<Protocol>, a: seq<Protocol>, capsA: seq<Cap>, h: seq<Protocol>, b: seq<Protocol>, capsB: seq<Cap>)
    requires Selects(g, a, capsB) && Selects(h, b, capsA) && Announces(capsA, a) && Announces(capsB, b) && LengthsAgree(a, b)
    ensures g == h
  {
    hide Less, Compare, Announces, Named, Reaches, Selects, LengthsAgree;
    SelectsIncreasing(g, a, capsB);
    SelectsIncreasing(h, b, capsA);
    forall i | 0 <= i < |g| ensures Reaches(h, g[i].name, g[i].version) && Named(h, g[i].name) {
      Shared(g, a, capsA, b, capsB, h, i);
    }
    forall j | 0 <= j < |h| ensures Reaches(g, h[j].name, h[j].version) && Named(g, h[j].name) {
      Shared(h, b, capsB, a, capsA, g, j);
    }
    SameNames(g, h);
    forall i | 0 <= i < |g| ensures g[i] == h[i] {
      AtSame(g, h, i);
      SameLength(g, a, capsB, h, b, capsA, i);
    }
  }

  lemma {:induction false} SameLength(g: seq<Protocol>, a: seq<Protocol>, capsB: seq<Cap>, h: seq<Protocol>, b: seq<Protocol>, capsA: seq<Cap>, i: nat)
    requires Selects(g, a, capsB) && Selects(h, b, capsA) && LengthsAgree(a, b)
    requires i < |g| && i < |h| && CapOf(g[i]) == CapOf(h[i])
    ensures g[i] == h[i]
  {
    PickFound(a, CapOf(g[i]));
    PickFound(b, CapOf(h[i]));
    hide Pick;
    assert g[i] in a && h[i] in b;
  }

  /** At one position, versions bound each other. */
  lemma {:induction false} AtSame(g: seq<Protocol>, h: seq<Protocol>, i: nat)
    requires Increasing(g) && Increasing(h) && |g| == |h| && i < |g| && forall i :: 0 <= i < |g| ==> g[i].name == h[i].name
    requires Reaches(h, g[i].name, g[i].version) && Reaches(g, h[i].name, h[i].version)
    ensures g[i].version == h[i].version
  {
    forall j | 0 <= j < |g| && g[j].name == g[i].name ensures j == i {
      Irreflexive(g[i].name);
    }
  }

  /** Both sides match, and their tables agree. */
  method Negotiate(a: seq<Protocol>, capsA: seq<Cap>, b: seq<Protocol>, capsB: seq<Cap>)
    returns (ours: map<Name, Running>, theirs: map<Name, Running>, ghost g: seq<Protocol>)
    requires Announces(capsA, a) && Announces(capsB, b) && LengthsAgree(a, b)
    ensures ours == theirs && Matched(ours, a, capsB) && Matched(ours, b, capsA)
    ensures Table(ours, g) && Table(theirs, g) && Selects(g, a, capsB) && Selects(g, b, capsA)
  {
    hide Table, Selects, Announces, LengthsAgree;
    ghost var h;
    ours, g := MatchProtocols(a, capsB);
    theirs, h := MatchProtocols(b, capsA);
    Agreement(g, a, capsA, h, b, capsB);
    TableUnique(ours, theirs, g);
  }

  lemma {:induction false} TableUnique(r: map<Name, Running>, r': map<Name, Running>, g: seq<Protocol>)
    requires Table(r, g) && Table(r', g)
    ensures r == r'
  {
    hide Offset;
    forall n ensures n in r <==> n in r' {
    }
  }

  /** A code written by a protocol on one side reaches the protocol of the same name on the other, as the same code. */
  method Route(ours: map<Name, Running>, theirs: map<Name, Running>, name: Name, code: nat, ghost g: seq<Protocol>)
    returns (to: Option<Running>, local: nat)
    requires Table(ours, g) && Table(theirs, g) && name in ours && code < ours[name].proto.length
    ensures to.Some? && to.value.proto == ours[name].proto && local == code
  {
    hide Offset;
    var wire := WriteCode(ours[name], code).value;
    ghost var i :| 0 <= i < |g| && g[i].name == name;
    assert theirs[name] == ours[name] && InRange(theirs[name], wire);
    to := GetProto(theirs, wire);
    ghost var n :| n in theirs && theirs[n] == to.value;
    OneResponsible(theirs, g, n, name, wire);
    local := wire - to.value.offset;
  }
}

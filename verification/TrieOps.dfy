/** Lookup, insertion and deletion over partially loaded nodes. */
module TrieOps {
  import opened Options
  import opened HexKeys
  import opened PatriciaTree
  import opened TreeUpdate
  import opened NodeCodec
  import opened TrieNode

  /** k is a possible remainder of a path at a node standing for t. */
  ghost predicate Fits(t: Tree, k: Bytes) {
    if k == [] then t.Nil? || IsLeaf(t) else WF(t) && IsPath(k)
  }

  lemma {:induction false} FitsShort(t: Tree, k: Bytes)
    requires Fits(t, k) && t.Short? && t.key <= k
    ensures |t.key| > 0 && Fits(t.val, k[|t.key|..])
  {
    if HasTerm(t.key) {
      PathsPrefixFree(t.key, k);
    } else {
      assert |t.key| < |k|;
      PathSuffix(k, |t.key|);
    }
  }

  lemma {:induction false} FitsFull(t: Tree, k: Bytes)
    requires Fits(t, k) && t.Full?
    ensures k != [] && k[0] <= 16 && Fits(t.ch[k[0]], k[1..])
  {
    if |k| > 1 {
      PathSuffix(k, 1);
    }
  }

  /** Preconditions shared by the recursive operations. */
  ghost predicate Ready(n: Node, k: Bytes, top: bool, db: Store) {
    ContentAddressed(db) && HashesOk(n, top) && Fits(Expand(n), k)
  }

  lemma {:induction false} ReadyShort(n: Node, k: Bytes, top: bool, db: Store)
    requires Ready(n, k, top, db) && n.NShort? && n.key <= k
    ensures |n.key| > 0 && Ready(n.val, k[|n.key|..], false, db)
  {
    FitsShort(Expand(n), k);
  }

  lemma {:induction false} ReadyMatched(n: Node, k: Bytes, top: bool, db: Store)
    requires Ready(n, k, top, db) && n.NShort? && PrefixLen(k, n.key) == |n.key|
    ensures n.key <= k && |n.key| > 0 && Ready(n.val, k[|n.key|..], false, db)
  {
    hide Ready;
    assert n.key <= k;
    ReadyShort(n, k, top, db);
  }

  lemma {:induction false} ReadyFull(n: Node, k: Bytes, top: bool, db: Store)
    requires Ready(n, k, top, db) && n.NFull?
    ensures |n.ch| == 17 && k != [] && k[0] <= 16 && Ready(n.ch[k[0]], k[1..], false, db)
  {
    FitsFull(Expand(n), k);
  }

  lemma {:induction false} ReadyHash(n: Node, k: Bytes, top: bool, db: Store, gen: nat)
    requires Ready(n, k, top, db) && n.NHash?
    ensures Resolve(n.d, db, gen).Ok? ==>
              var c := Resolve(n.d, db, gen).value;
              Ready(c, k, top, db) && !c.NHash? && Expand(c) == Expand(n)
  {
    ResolveOk(n.d, top, db, gen);
  }

  // ---- lookup ----

  datatype Found = Found(value: Option<Bytes>, node: Node, resolved: bool)

  function Get(n: Node, k: Bytes, ghost top: bool, db: Store, gen: nat): Result<Found>
    requires Ready(n, k, top, db)
    decreases |k|, n.NHash?
  {
    match n
    case NNil => Ok(Found(None, NNil, false))
    case NVal(v) => Ok(Found(Some(v), n, false))
    case NShort(key, val, flags) =>
      if !(key <= k) then Ok(Found(None, n, false))
      else
        ReadyShort(n, k, top, db);
        (match Get(val, k[|key|..], false, db, gen)
         case Missing(d) => Missing(d)
         case Ok(f) => Ok(if f.resolved then f.(node := NShort(key, f.node, flags.(gen := gen))) else f.(node := n)))
    case NFull(ch, flags) =>
      ReadyFull(n, k, top, db);
      (match Get(ch[k[0]], k[1..], false, db, gen)
       case Missing(d) => Missing(d)
       case Ok(f) => Ok(if f.resolved then f.(node := NFull(ch[k[0] := f.node], flags.(gen := gen))) else f.(node := n)))
    case NHash(d) =>
      ReadyHash(n, k, top, db, gen);
      match Resolve(d, db, gen)
      case Missing(d) => Missing(d)
      case Ok(c) =>
        match Get(c, k, top, db, gen)
        case Missing(d) => Missing(d)
        case Ok(f) => Ok(f.(resolved := true))
  }

  /** c may replace n: it stands for the same tree and keeps the node invariants. */
  ghost predicate Replaces(c: Node, n: Node, top: bool, db: Store) {
    && Expand(c) == Expand(n)
    && HashesOk(c, top)
    && (Labelled(n) ==> Labelled(c))
    && (Backed(n, db) ==> Backed(c, db))
  }

  lemma {:induction false} ReplaceChild(n: Node, i: nat, c: Node, gen: nat, top: bool, db: Store)
    requires n.NFull? && HashesOk(n, top) && i < |n.ch| && Replaces(c, n.ch[i], false, db)
    ensures Replaces(NFull(n.ch[i := c], n.flags.(gen := gen)), n, top, db)
  {
    assert Expand(NFull(n.ch[i := c], n.flags.(gen := gen))).ch == Expand(n).ch;
  }

  lemma {:induction false} ReplaceVal(n: Node, c: Node, gen: nat, top: bool, db: Store)
    requires n.NShort? && HashesOk(n, top) && Replaces(c, n.val, false, db)
    ensures Replaces(NShort(n.key, c, n.flags.(gen := gen)), n, top, db)
  {
  }

  /** Lookup is exact, resolving changes nothing, and only an absent node makes it fail. */
  lemma {:induction false} GetCorrect(n: Node, k: Bytes, top: bool, db: Store, gen: nat)
    requires Ready(n, k, top, db)
    ensures Get(n, k, top, db, gen).Ok? ==>
              var f := Get(n, k, top, db, gen).value;
              f.value == Lookup(Expand(n), k) && Replaces(f.node, n, top, db)
    ensures Get(n, k, top, db, gen).Missing? ==> Get(n, k, top, db, gen).d !in db && !Backed(n, db)
    decreases |k|, n.NHash?
  {
    match n
    case NNil =>
    case NVal(v) =>
    case NShort(key, val, flags) =>
      if key <= k {
        ReadyShort(n, k, top, db);
        GetCorrect(val, k[|key|..], false, db, gen);
        var r := Get(val, k[|key|..], false, db, gen);
        if r.Ok? {
          ReplaceVal(n, r.value.node, gen, top, db);
        }
      }
    case NFull(ch, flags) =>
      GetCorrectFull(n, k, top, db, gen);
    case NHash(d) =>
      ReadyHash(n, k, top, db, gen);
      ResolveOk(d, top, db, gen);
      if d in db {
        GetCorrect(Resolve(d, db, gen).value, k, top, db, gen);
      }
  }

  lemma {:induction false} GetCorrectFull(n: Node, k: Bytes, top: bool, db: Store, gen: nat)
    requires Ready(n, k, top, db) && n.NFull?
    ensures Get(n, k, top, db, gen).Ok? ==>
              var f := Get(n, k, top, db, gen).value;
              f.value == Lookup(Expand(n), k) && Replaces(f.node, n, top, db)
    ensures Get(n, k, top, db, gen).Missing? ==> Get(n, k, top, db, gen).d !in db && !Backed(n, db)
    decreases |k|, false, 0
  {
    ReadyFull(n, k, top, db);
    GetCorrect(n.ch[k[0]], k[1..], false, db, gen);
    var r := Get(n.ch[k[0]], k[1..], false, db, gen);
    if r.Ok? {
      ReplaceChild(n, k[0], r.value.node, gen, top, db);
    }
  }

  /** A node that was loaded below, or itself, is of the current generation. */
  lemma {:induction false} GetStamped(n: Node, k: Bytes, top: bool, db: Store, gen: nat)
    requires Ready(n, k, top, db)
    ensures var r := Get(n, k, top, db, gen);
            r.Ok? && r.value.resolved && (r.value.node.NShort? || r.value.node.NFull?) ==> r.value.node.flags.gen == gen
    ensures var r := Get(n, k, top, db, gen); r.Ok? && !r.value.resolved ==> r.value.node == n
    decreases |k|, n.NHash?
  {
    if n.NHash? {
      ReadyHash(n, k, top, db, gen);
      var c := Resolve(n.d, db, gen);
      if c.Ok? {
        GetStamped(c.value, k, top, db, gen);
      }
    }
  }

  // ---- insertion ----

  /** A changed node has no hash, is dirty, and is of the current generation. */
  ghost predicate Stamped(n: Node, gen: nat) {
    n.NShort? || n.NFull? ==> n.flags.hash == None && n.flags.gen == gen && n.flags.dirty
  }

  lemma {:induction false} InsertStamped(n: Node, k: Bytes, v: Bytes, top: bool, db: Store, gen: nat)
    requires Ready(n, k, top, db)
    ensures var r := Insert(n, k, NVal(v), top, db, gen); r.Ok? && r.value.dirty ==> Stamped(r.value.node, gen)
    decreases |k|, n.NHash?
  {
    if n.NHash? && k != [] {
      ReadyHash(n, k, top, db, gen);
      var c := Resolve(n.d, db, gen);
      if c.Ok? {
        InsertStamped(c.value, k, v, top, db, gen);
      }
    }
  }

  lemma {:induction false} DeleteStamped(n: Node, k: Bytes, top: bool, db: Store, gen: nat)
    requires Ready(n, k, top, db)
    ensures var r := Delete(n, k, top, db, gen); r.Ok? && r.value.dirty ==> Stamped(r.value.node, gen)
    decreases |k|, n.NHash?
  {
    if n.NHash? {
      ReadyHash(n, k, top, db, gen);
      var c := Resolve(n.d, db, gen);
      if c.Ok? {
        DeleteStamped(c.value, k, top, db, gen);
      }
    }
  }

  datatype Edit = Edit(dirty: bool, node: Node)

  function NewFlag(gen: nat): Flags {
    Flags(None, gen, true)
  }

  /** Insertion of a node into an empty position. */
  function Plant(k: Bytes, x: Node, gen: nat): Node {
    if k == [] then x else NShort(k, x, NewFlag(gen))
  }

  function NoNodes(): (ch: seq<Node>)
    ensures |ch| == 17 && forall i :: 0 <= i < 17 ==> ch[i] == NNil
  {
    seq(17, _ => NNil)
  }

  /** Branches out at index m, where key and k differ. */
  function Branch(key: Bytes, val: Node, k: Bytes, value: Node, m: nat, gen: nat): Node
    requires m < |key| && m < |k| && key[m] <= 16 && k[m] <= 16
  {
    var ch := NoNodes()[key[m] := Plant(key[m + 1..], val, gen)][k[m] := Plant(k[m + 1..], value, gen)];
    Plant(k[..m], NFull(ch, NewFlag(gen)), gen)
  }

  /** Where a path leaves a short node's key, both continue with a proper symbol. */
  lemma {:induction false} Diverge(t: Tree, k: Bytes)
    requires WF(t) && t.Short? && IsPath(k) && PrefixLen(k, t.key) < |t.key|
    ensures var m := PrefixLen(k, t.key);
            m < |k| && t.key[m] != k[m] && t.key[m] <= 16 && k[m] <= 16
  {
    var m := PrefixLen(k, t.key);
    assert forall i :: 0 <= i < m ==> t.key[i] == t.key[..m][i] == k[i];
    assert k[|k| - 1] == TERM;
    assert forall i :: 0 <= i < |k| - 1 ==> StripTerm(k)[i] == k[i];
    assert forall i :: 0 <= i < |t.key| - 1 ==> StripTerm(t.key)[i] == t.key[i];
  }

  function Insert(n: Node, k: Bytes, value: Node, ghost top: bool, db: Store, gen: nat): Result<Edit>
    requires Ready(n, k, top, db)
    decreases |k|, n.NHash?
  {
    if k == [] then Ok(Edit(n != value, value))
    else
      match n
      case NShort(key, val, _) =>
        var m := PrefixLen(k, key);
        if m == |key| then
          ReadyMatched(n, k, top, db);
          match Insert(val, k[m..], value, false, db, gen)
          case Missing(d) => Missing(d)
          case Ok(e) => Ok(if !e.dirty then Edit(false, n) else Edit(true, NShort(key, e.node, NewFlag(gen))))
        else
          Diverge(Expand(n), k);
          Ok(Edit(true, Branch(key, val, k, value, m, gen)))
      case NFull(ch, _) =>
        ReadyFull(n, k, top, db);
        (match Insert(ch[k[0]], k[1..], value, false, db, gen)
         case Missing(d) => Missing(d)
         case Ok(e) => Ok(if !e.dirty then Edit(false, n) else Edit(true, NFull(ch[k[0] := e.node], NewFlag(gen)))))
      case NNil => Ok(Edit(true, Plant(k, value, gen)))
      case NHash(d) =>
        ReadyHash(n, k, top, db, gen);
        (match Resolve(d, db, gen)
         case Missing(d) => Missing(d)
         case Ok(c) =>
           match Insert(c, k, value, top, db, gen)
           case Missing(d) => Missing(d)
           case Ok(e) => Ok(if !e.dirty then Edit(false, c) else e))
      case NVal(_) => Ok(Edit(false, NNil))
  }

  /** r is n with path k set to ov: same invariants, minimal form, nothing else touched. */
  ghost predicate Edits(n: Node, r: Node, k: Bytes, ov: Option<Bytes>, top: bool, db: Store) {
    && HashesOk(r, top)
    && (Backed(n, db) ==> Backed(r, db))
    && Fits(Expand(r), k)
    && Updated(Expand(n), Expand(r), k, ov)
  }

  ghost predicate InsertOk(n: Node, k: Bytes, v: Bytes, top: bool, db: Store, r: Result<Edit>) {
    match r
    case Missing(d) => d !in db && !Backed(n, db)
    case Ok(e) =>
      && Edits(n, e.node, k, Some(v), top, db)
      && (!e.dirty ==> Replaces(e.node, n, top, db))
      && (Expand(n).Full? ==> Expand(e.node).Full?)
      && Expand(e.node) != Nil
  }

  /** What a node answers at a path, from its children. */
  lemma {:induction false} LookupDown(n: Node, k: Bytes, top: bool, db: Store)
    requires Ready(n, k, top, db)
    ensures n.NShort? && PrefixLen(k, n.key) == |n.key| ==> n.key <= k && Lookup(Expand(n), k) == Lookup(Expand(n.val), k[|n.key|..])
    ensures n.NShort? && PrefixLen(k, n.key) < |n.key| ==> Lookup(Expand(n), k) == None
    ensures n.NFull? ==> k != [] && k[0] < |n.ch| && Lookup(Expand(n), k) == Lookup(Expand(n.ch[k[0]]), k[1..])
    ensures n.NVal? ==> k == [] && Lookup(Expand(n), k) == Some(n.v)
    ensures n.NNil? ==> Lookup(Expand(n), k) == None
    ensures k == [] ==> n.NNil? || n.NVal?
  {
    if n.NShort? {
      if n.key <= k {
        PrefixLenUnique(k, n.key, |n.key|);
        assert k[..|n.key|] == n.key;
      }
    } else if n.NFull? {
      ReadyFull(n, k, top, db);
    }
  }

  /** An insertion reports a change exactly if the value was not there. */
  lemma {:induction false} InsertReports(n: Node, k: Bytes, v: Bytes, top: bool, db: Store, gen: nat)
    requires Ready(n, k, top, db) && v != []
    ensures var r := Insert(n, k, NVal(v), top, db, gen); r.Ok? ==> (r.value.dirty <==> Lookup(Expand(n), k) != Some(v))
    decreases |k|, n.NHash?
  {
    hide Ready, Lookup, Expand, PrefixLen;
    LookupDown(n, k, top, db);
    if k == [] {
    } else if n.NShort? && PrefixLen(k, n.key) == |n.key| {
      ReadyMatched(n, k, top, db);
      InsertReports(n.val, k[|n.key|..], v, false, db, gen);
    } else if n.NFull? {
      ReadyFull(n, k, top, db);
      InsertReports(n.ch[k[0]], k[1..], v, false, db, gen);
    } else if n.NHash? {
      ReadyHash(n, k, top, db, gen);
      if Resolve(n.d, db, gen).Ok? {
        InsertReports(Resolve(n.d, db, gen).value, k, v, top, db, gen);
      }
    }
  }

  /** A deletion reports a change exactly if there was a value. */
  lemma {:induction false} DeleteReports(n: Node, k: Bytes, top: bool, db: Store, gen: nat)
    requires Ready(n, k, top, db)
    ensures var r := Delete(n, k, top, db, gen); r.Ok? ==> (r.value.dirty <==> Lookup(Expand(n), k) != None)
    decreases |k|, n.NHash?
  {
    hide Ready, Lookup, Expand, PrefixLen, Reduce;
    LookupDown(n, k, top, db);
    if n.NShort? && PrefixLen(k, n.key) == |n.key| {
      ReadyMatched(n, k, top, db);
      if |n.key| == |k| {
        LeafThere(n, k, top, db);
      } else {
        DeleteReports(n.val, k[|n.key|..], false, db, gen);
      }
    } else if n.NFull? {
      ReadyFull(n, k, top, db);
      DeleteReports(n.ch[k[0]], k[1..], false, db, gen);
    } else if n.NHash? {
      ReadyHash(n, k, top, db, gen);
      if Resolve(n.d, db, gen).Ok? {
        DeleteReports(Resolve(n.d, db, gen).value, k, top, db, gen);
      }
    }
  }

  /** Where a short node ends with the path, there is a value. */
  lemma {:induction false} LeafThere(n: Node, k: Bytes, top: bool, db: Store)
    requires Ready(n, k, top, db) && n.NShort? && n.key <= k && |n.key| == |k|
    ensures Lookup(Expand(n), k) != None
  {
  }

  lemma {:induction false} PlantExpand(k: Bytes, x: Node, gen: nat)
    ensures Expand(Plant(k, x, gen)) == Graft(k, Expand(x))
  {
  }

  lemma {:induction false} InsertCorrect(n: Node, k: Bytes, v: Bytes, top: bool, db: Store, gen: nat)
    requires Ready(n, k, top, db) && v != []
    ensures InsertOk(n, k, v, top, db, Insert(n, k, NVal(v), top, db, gen))
    ensures var r := Insert(n, k, NVal(v), top, db, gen); r.Ok? ==> (r.value.dirty <==> Lookup(Expand(n), k) != Some(v))
    decreases |k|, n.NHash?
  {
    InsertReports(n, k, v, top, db, gen);
    if k == [] {
    } else if n.NShort? {
      InsertShort(n, k, v, top, db, gen);
    } else if n.NFull? {
      InsertFull(n, k, v, top, db, gen);
    } else if n.NHash? {
      ReadyHash(n, k, top, db, gen);
      ResolveOk(n.d, top, db, gen);
      if n.d in db {
        InsertCorrect(Resolve(n.d, db, gen).value, k, v, top, db, gen);
      }
    } else {
      InsertEmpty(k, v, top, db, gen);
    }
  }

  lemma {:induction false} InsertEmpty(k: Bytes, v: Bytes, top: bool, db: Store, gen: nat)
    requires IsPath(k) && v != []
    ensures Edits(NNil, NShort(k, NVal(v), NewFlag(gen)), k, Some(v), top, db)
  {
  }

  lemma {:induction false} InsertFull(n: Node, k: Bytes, v: Bytes, top: bool, db: Store, gen: nat)
    requires Ready(n, k, top, db) && n.NFull? && v != []
    ensures InsertOk(n, k, v, top, db, Insert(n, k, NVal(v), top, db, gen))
    decreases |k|, false, 0
  {
    ReadyFull(n, k, top, db);
    InsertCorrect(n.ch[k[0]], k[1..], v, false, db, gen);
    var r := Insert(n.ch[k[0]], k[1..], NVal(v), false, db, gen);
    if r.Ok? {
      if r.value.dirty {
        FullEdited(n, k, r.value.node, v, top, db, gen);
      } else {
        FullUnchanged(n, k, r.value.node, Some(v), top, db);
      }
    }
  }

  /** An edit that left the child's tree alone leaves the node as it was. */
  lemma {:induction false} FullUnchanged(n: Node, k: Bytes, c: Node, ov: Option<Bytes>, top: bool, db: Store)
    requires Ready(n, k, top, db) && n.NFull? && |n.ch| == 17 && k != [] && k[0] <= 16
    requires Expand(c) == Expand(n.ch[k[0]]) && Updated(Expand(n.ch[k[0]]), Expand(c), k[1..], ov)
    ensures Edits(n, n, k, ov, top, db)
  {
    UpdatedFull(Expand(n).ch, Expand(c), k, ov);
    assert Expand(n).ch[k[0] := Expand(c)] == Expand(n).ch;
  }

  lemma {:induction false} FullEdited(n: Node, k: Bytes, c: Node, v: Bytes, top: bool, db: Store, gen: nat)
    requires Ready(n, k, top, db) && n.NFull? && |n.ch| == 17 && k != [] && k[0] <= 16
    requires Edits(n.ch[k[0]], c, k[1..], Some(v), false, db) && Expand(c) != Nil
    ensures Edits(n, NFull(n.ch[k[0] := c], NewFlag(gen)), k, Some(v), top, db)
  {
    FullReplaced(n, k, c, Some(v), gen);
    ExpandUpdate(n, k[0], c, gen);
    WFUpdate(Expand(n).ch, k[0], Expand(c));
    FullKeeps(n, k[0], c, gen, top, db);
  }

  lemma {:induction false} ExpandUpdate(n: Node, i: nat, c: Node, gen: nat)
    requires n.NFull? && i < |n.ch|
    ensures Expand(NFull(n.ch[i := c], NewFlag(gen))) == Full(Expand(n).ch[i := Expand(c)])
  {
    assert Expand(NFull(n.ch[i := c], NewFlag(gen))).ch == Expand(n).ch[i := Expand(c)];
  }

  lemma {:induction false} FullKeeps(n: Node, i: nat, c: Node, gen: nat, top: bool, db: Store)
    requires n.NFull? && HashesOk(n, top) && i < |n.ch| && HashesOk(c, false)
    requires Backed(n.ch[i], db) ==> Backed(c, db)
    ensures HashesOk(NFull(n.ch[i := c], NewFlag(gen)), top)
    ensures Backed(n, db) ==> Backed(NFull(n.ch[i := c], NewFlag(gen)), db)
  {
  }

  lemma {:induction false} InsertShort(n: Node, k: Bytes, v: Bytes, top: bool, db: Store, gen: nat)
    requires Ready(n, k, top, db) && n.NShort? && k != [] && v != []
    ensures InsertOk(n, k, v, top, db, Insert(n, k, NVal(v), top, db, gen))
    decreases |k|, false, 0
  {
    var m := PrefixLen(k, n.key);
    if m == |n.key| {
      ReadyMatched(n, k, top, db);
      InsertCorrect(n.val, k[m..], v, false, db, gen);
      var r := Insert(n.val, k[m..], NVal(v), false, db, gen);
      if r.Ok? {
        ShortEdited(n, k, r.value.node, v, top, db, gen);
      }
    } else {
      InsertBranch(n, k, v, top, db, gen);
    }
  }

  lemma {:induction false} ShortEdited(n: Node, k: Bytes, c: Node, v: Bytes, top: bool, db: Store, gen: nat)
    requires Ready(n, k, top, db) && n.NShort? && n.key <= k && k != []
    requires Edits(n.val, c, k[|n.key|..], Some(v), false, db) && Expand(c) != Nil
    requires Expand(n.val).Full? ==> Expand(c).Full?
    ensures Edits(n, NShort(n.key, c, NewFlag(gen)), k, Some(v), top, db)
    ensures Expand(c) == Expand(n.val) ==> Edits(n, n, k, Some(v), top, db)
  {
    ReadyShort(n, k, top, db);
    UpdatedShort(n.key, Expand(n.val), Expand(c), k, Some(v));
    if HasTerm(n.key) {
      PathsPrefixFree(n.key, k);
    }
  }

  lemma {:induction false} InsertBranch(n: Node, k: Bytes, v: Bytes, top: bool, db: Store, gen: nat)
    requires Ready(n, k, top, db) && n.NShort? && k != [] && v != []
    requires PrefixLen(k, n.key) < |n.key|
    ensures InsertOk(n, k, v, top, db, Insert(n, k, NVal(v), top, db, gen))
  {
    var m := PrefixLen(k, n.key);
    Diverge(Expand(n), k);
    BranchTree(n, k, v, gen);
    BranchKeeps(n, k, v, m, gen, top, db);
  }

  lemma {:induction false} BranchTree(n: Node, k: Bytes, v: Bytes, gen: nat)
    requires n.NShort? && WF(Expand(n)) && IsPath(k) && v != []
    requires var m := PrefixLen(k, n.key);
             m < |n.key| && m < |k| && n.key[m] <= 16 && k[m] <= 16
    ensures var t' := Expand(Branch(n.key, n.val, k, NVal(v), PrefixLen(k, n.key), gen));
            WF(t') && t' != Nil && Updated(Expand(n), t', k, Some(v))
  {
    var m := PrefixLen(k, n.key);
    var t := Expand(n.val);
    var p, a, ra, b, rb := k[..m], n.key[m], n.key[m + 1..], k[m], k[m + 1..];
    assert p + [a] + ra == n.key && p + [b] + rb == k;
    SplitUpdated(p, a, ra, t, b, rb, v);
    SplitWF(p, a, ra, t, b, rb, v);
    BranchExpand(n.key, n.val, k, v, m, gen);
  }

  lemma {:induction false} PlantKeeps(k: Bytes, x: Node, gen: nat, top: bool, db: Store)
    requires HashesOk(x, top)
    ensures HashesOk(x, false) ==> HashesOk(Plant(k, x, gen), top)
    ensures Backed(x, db) ==> Backed(Plant(k, x, gen), db)
  {
  }

  lemma {:induction false} BranchKeeps(n: Node, k: Bytes, v: Bytes, m: nat, gen: nat, top: bool, db: Store)
    requires n.NShort? && HashesOk(n, top)
    requires m < |n.key| && m < |k| && n.key[m] <= 16 && k[m] <= 16
    ensures HashesOk(Branch(n.key, n.val, k, NVal(v), m, gen), top)
    ensures Backed(n, db) ==> Backed(Branch(n.key, n.val, k, NVal(v), m, gen), db)
  {
    PlantKeeps(n.key[m + 1..], n.val, gen, false, db);
    PlantKeeps(k[m + 1..], NVal(v), gen, false, db);
    ForkKeeps(n.key[m], Plant(n.key[m + 1..], n.val, gen), k[m], Plant(k[m + 1..], NVal(v), gen), k[..m], gen, top, db);
  }

  lemma {:induction false} ForkKeeps(a: Byte, x: Node, b: Byte, y: Node, p: Bytes, gen: nat, top: bool, db: Store)
    requires a <= 16 && b <= 16 && HashesOk(x, false) && HashesOk(y, false)
    ensures HashesOk(Plant(p, NFull(NoNodes()[a := x][b := y], NewFlag(gen)), gen), top)
    ensures Backed(x, db) && Backed(y, db) ==> Backed(Plant(p, NFull(NoNodes()[a := x][b := y], NewFlag(gen)), gen), db)
  {
    PlantKeeps(p, NFull(NoNodes()[a := x][b := y], NewFlag(gen)), gen, top, db);
  }

  lemma {:induction false} BranchExpand(key: Bytes, val: Node, k: Bytes, v: Bytes, m: nat, gen: nat)
    requires m < |key| && m < |k| && key[m] <= 16 && k[m] <= 16
    ensures Expand(Branch(key, val, k, NVal(v), m, gen)) ==
            Graft(k[..m], Fork(key[m], Graft(key[m + 1..], Expand(val)), k[m], Graft(k[m + 1..], Val(v))))
  {
    PlantExpand(key[m + 1..], val, gen);
    PlantExpand(k[m + 1..], NVal(v), gen);
    var ch := NoNodes()[key[m] := Plant(key[m + 1..], val, gen)][k[m] := Plant(k[m + 1..], NVal(v), gen)];
    PlantExpand(k[..m], NFull(ch, NewFlag(gen)), gen);
    assert Expand(NFull(ch, NewFlag(gen))).ch == Fork(key[m], Graft(key[m + 1..], Expand(val)), k[m], Graft(k[m + 1..], Val(v))).ch;
  }

  // ---- deletion ----

  /** The index of the only non-nil child, -1 if there is none, -2 if there are several. */
  function Sole(ch: seq<Node>): (pos: int)
    ensures -2 <= pos < |ch|
    ensures pos == -1 ==> forall j :: 0 <= j < |ch| ==> ch[j] == NNil
    ensures pos >= 0 ==> ch[pos] != NNil && forall j :: 0 <= j < |ch| && j != pos ==> ch[j] == NNil
    ensures pos == -2 ==> exists i, j :: 0 <= i < j < |ch| && ch[i] != NNil && ch[j] != NNil
  {
    if ch == [] then -1
    else
      var last := |ch| - 1;
      var pos := Sole(ch[..last]);
      if pos == -2 || ch[last] == NNil then pos else if pos == -1 then last else -2
  }

  /** The counting loop of deletion, which stops at the second child it meets. */
  method CountChildren(ch: seq<Node>) returns (pos: int)
    ensures pos == Sole(ch)
  {
    pos := -1;
    for i := 0 to |ch|
      invariant pos == Sole(ch[..i]) && pos != -2
    {
      assert ch[..i + 1][..i] == ch[..i];
      if ch[i] != NNil {
        if pos == -1 {
          pos := i;
        } else {
          SolePrefix(ch, i + 1);
          return -2;
        }
      }
    }
    assert ch[..|ch|] == ch;
  }

  lemma {:induction false} SolePrefix(ch: seq<Node>, i: nat)
    requires i <= |ch| && Sole(ch[..i]) == -2
    ensures Sole(ch) == -2
    decreases |ch|
  {
    if i < |ch| {
      assert ch[..|ch| - 1][..i] == ch[..i];
      SolePrefix(ch[..|ch| - 1], i);
    } else {
      assert ch[..i] == ch;
    }
  }

  /** What is left of a full node after one child was replaced. */
  function Reduce(ch: seq<Node>, db: Store, gen: nat): Result<Node>
    requires |ch| == 17
  {
    var pos := Sole(ch);
    if pos < 0 then Ok(NFull(ch, NewFlag(gen)))
    else if pos == 16 then Ok(NShort([16], ch[16], NewFlag(gen)))
    else
      match (if ch[pos].NHash? then Resolve(ch[pos].d, db, gen) else Ok(ch[pos]))
      case Missing(d) => Missing(d)
      case Ok(c) =>
        Ok(if c.NShort? then NShort([pos] + c.key, c.val, NewFlag(gen))
           else NShort([pos], ch[pos], NewFlag(gen)))
  }

  function Delete(n: Node, k: Bytes, ghost top: bool, db: Store, gen: nat): Result<Edit>
    requires Ready(n, k, top, db)
    decreases |k|, n.NHash?
  {
    match n
    case NShort(key, val, _) =>
      var m := PrefixLen(k, key);
      if m < |key| then Ok(Edit(false, n))
      else if m == |k| then Ok(Edit(true, NNil))
      else
        ReadyMatched(n, k, top, db);
        (match Delete(val, k[|key|..], false, db, gen)
         case Missing(d) => Missing(d)
         case Ok(e) =>
           Ok(if !e.dirty then Edit(false, n)
              else if e.node.NShort? then Edit(true, NShort(key + e.node.key, e.node.val, NewFlag(gen)))
              else Edit(true, NShort(key, e.node, NewFlag(gen)))))
    case NFull(ch, _) =>
      ReadyFull(n, k, top, db);
      (match Delete(ch[k[0]], k[1..], false, db, gen)
       case Missing(d) => Missing(d)
       case Ok(e) =>
         if !e.dirty then Ok(Edit(false, n))
         else
           match Reduce(ch[k[0] := e.node], db, gen)
           case Missing(d) => Missing(d)
           case Ok(r) => Ok(Edit(true, r)))
    case NVal(_) => Ok(Edit(true, NNil))
    case NNil => Ok(Edit(false, NNil))
    case NHash(d) =>
      ReadyHash(n, k, top, db, gen);
      match Resolve(d, db, gen)
      case Missing(d) => Missing(d)
      case Ok(c) =>
        match Delete(c, k, top, db, gen)
        case Missing(d) => Missing(d)
        case Ok(e) => Ok(if !e.dirty then Edit(false, c) else e)
  }

  ghost predicate DeleteOk(n: Node, k: Bytes, top: bool, db: Store, r: Result<Edit>) {
    match r
    case Missing(d) => d !in db && !Backed(n, db)
    case Ok(e) =>
      && Edits(n, e.node, k, None, top, db)
      && (!e.dirty ==> Replaces(e.node, n, top, db))
      && (e.dirty && Expand(n).Full? ==> e.node.NShort? || e.node.NFull?)
  }

  lemma {:induction false} DeleteCorrect(n: Node, k: Bytes, top: bool, db: Store, gen: nat)
    requires Ready(n, k, top, db)
    ensures DeleteOk(n, k, top, db, Delete(n, k, top, db, gen))
    ensures var r := Delete(n, k, top, db, gen); r.Ok? ==> (r.value.dirty <==> Lookup(Expand(n), k) != None)
    decreases |k|, n.NHash?
  {
    DeleteReports(n, k, top, db, gen);
    match n
    case NShort(_, _, _) => DeleteShort(n, k, top, db, gen);
    case NFull(_, _) => DeleteFull(n, k, top, db, gen);
    case NVal(_) =>
    case NNil =>
    case NHash(d) =>
      ReadyHash(n, k, top, db, gen);
      ResolveOk(d, top, db, gen);
      if d in db {
        DeleteCorrect(Resolve(d, db, gen).value, k, top, db, gen);
      }
  }

  lemma {:induction false} DeleteShort(n: Node, k: Bytes, top: bool, db: Store, gen: nat)
    requires Ready(n, k, top, db) && n.NShort?
    ensures DeleteOk(n, k, top, db, Delete(n, k, top, db, gen))
    decreases |k|, false, 0
  {
    var m := PrefixLen(k, n.key);
    if n.key <= k {
      PrefixLenUnique(k, n.key, |n.key|);
    }
    if m < |n.key| {
    } else if m == |k| {
      assert n.key == k;
      ReadyShort(n, k, top, db);
    } else {
      ReadyMatched(n, k, top, db);
      DeleteCorrect(n.val, k[m..], false, db, gen);
      var r := Delete(n.val, k[m..], false, db, gen);
      if r.Ok? {
        ShortReduced(n, k, r.value.node, r.value.dirty, top, db, gen);
      }
    }
  }

  lemma {:induction false} ShortReduced(n: Node, k: Bytes, c: Node, dirty: bool, top: bool, db: Store, gen: nat)
    requires Ready(n, k, top, db) && n.NShort? && n.key < k
    requires DeleteOk(n.val, k[|n.key|..], false, db, Ok(Edit(dirty, c)))
    ensures !dirty ==> Edits(n, n, k, None, top, db)
    ensures dirty && c.NShort? ==> Edits(n, NShort(n.key + c.key, c.val, NewFlag(gen)), k, None, top, db)
    ensures dirty && !c.NShort? ==> Edits(n, NShort(n.key, c, NewFlag(gen)), k, None, top, db)
  {
    UpdatedShort(n.key, Expand(n.val), Expand(c), k, None);
    ReadyShort(n, k, top, db);
    if dirty && c.NShort? {
      JoinWF(n.key, c.key, Expand(c.val));
      JoinUpdated(Expand(n), n.key, c.key, Expand(c.val), k, None);
    }
  }

  lemma {:induction false} DeleteFull(n: Node, k: Bytes, top: bool, db: Store, gen: nat)
    requires Ready(n, k, top, db) && n.NFull?
    ensures DeleteOk(n, k, top, db, Delete(n, k, top, db, gen))
    decreases |k|, false, 0
  {
    ReadyFull(n, k, top, db);
    DeleteCorrect(n.ch[k[0]], k[1..], false, db, gen);
    var r := Delete(n.ch[k[0]], k[1..], false, db, gen);
    if r.Ok? {
      if r.value.dirty {
        FullReduced(n, k, r.value.node, top, db, gen);
      } else {
        FullUnchanged(n, k, r.value.node, None, top, db);
      }
    }
  }

  ghost predicate ReduceOk(n: Node, k: Bytes, top: bool, db: Store, r: Result<Node>) {
    match r
    case Missing(d) => d !in db && !Backed(n, db)
    case Ok(x) => Edits(n, x, k, None, top, db) && (x.NShort? || x.NFull?)
  }

  lemma {:induction false} NilExpand(n: Node, top: bool)
    requires HashesOk(n, top)
    ensures n == NNil <==> Expand(n) == Nil
  {
  }

  lemma {:induction false} SoleExpand(ch: seq<Node>)
    requires forall i :: 0 <= i < |ch| ==> HashesOk(ch[i], false)
    ensures var tch := Expand(NFull(ch, NewFlag(0))).ch;
            && (Sole(ch) >= 0 ==> OnlyChild(tch, Sole(ch)))
            && (Sole(ch) == -2 ==> TwoChildren(tch))
  {
    forall i | 0 <= i < |ch| ensures ch[i] == NNil <==> Expand(ch[i]) == Nil {
      NilExpand(ch[i], false);
    }
    var tch := Expand(NFull(ch, NewFlag(0))).ch;
    assert forall i :: 0 <= i < |ch| ==> tch[i] == Expand(ch[i]);
    if Sole(ch) == -2 {
      var i, j :| 0 <= i < j < |ch| && ch[i] != NNil && ch[j] != NNil;
      assert tch[i] != Nil && tch[j] != Nil;
    }
  }

  /** Some child other than i was there before, and still is. */
  lemma {:induction false} OtherChild(n: Node, i: nat, c: Node, top: bool)
    requires n.NFull? && HashesOk(n, top) && WF(Expand(n)) && i < 17
    ensures |n.ch| == 17 && Sole(n.ch[i := c]) != -1 && Sole(n.ch[i := c]) != i
  {
    var t := Expand(n);
    var x, y :| 0 <= x < y < |t.ch| && t.ch[x] != Nil && t.ch[y] != Nil;
    var z := if x == i then y else x;
    assert t.ch[z] == Expand(n.ch[z]);
    assert n.ch[i := c][z] != NNil;
  }

  lemma {:induction false} FullReplaced(n: Node, k: Bytes, c: Node, ov: Option<Bytes>, gen: nat)
    requires n.NFull? && k != [] && k[0] < |n.ch|
    requires Updated(Expand(n.ch[k[0]]), Expand(c), k[1..], ov)
    ensures Updated(Expand(n), Expand(NFull(n.ch[k[0] := c], NewFlag(gen))), k, ov)
  {
    ExpandUpdate(n, k[0], c, gen);
    UpdatedFull(Expand(n).ch, Expand(c), k, ov);
  }

  lemma {:induction false} FullKept(n: Node, k: Bytes, c: Node, top: bool, db: Store, gen: nat)
    requires Ready(n, k, top, db) && n.NFull? && |n.ch| == 17 && k != [] && k[0] <= 16
    requires Edits(n.ch[k[0]], c, k[1..], None, false, db)
    requires Sole(n.ch[k[0] := c]) == -2
    ensures Edits(n, NFull(n.ch[k[0] := c], NewFlag(gen)), k, None, top, db)
  {
    FullReplaced(n, k, c, None, gen);
    SoleExpand(n.ch[k[0] := c]);
    ExpandUpdate(n, k[0], c, gen);
    ExpandUpdate(n, k[0], c, 0);
    WFReplace(Expand(n).ch, k[0], Expand(c));
    FullKeeps(n, k[0], c, gen, top, db);
  }

  lemma {:induction false} FullReduced(n: Node, k: Bytes, c: Node, top: bool, db: Store, gen: nat)
    requires Ready(n, k, top, db) && n.NFull? && |n.ch| == 17 && k != [] && k[0] <= 16
    requires Edits(n.ch[k[0]], c, k[1..], None, false, db)
    ensures ReduceOk(n, k, top, db, Reduce(n.ch[k[0] := c], db, gen))
  {
    var ch := n.ch[k[0] := c];
    OtherChild(n, k[0], c, top);
    if Sole(ch) < 0 {
      FullKept(n, k, c, top, db, gen);
    } else {
      FullReplaced(n, k, c, None, 0);
      SoleExpand(ch);
      SoleUpdated(Expand(n), Expand(NFull(ch, NewFlag(0))).ch, Sole(ch), k, None);
      SoleReduced(n, k, ch, top, db, gen);
    }
  }

  /** The one child left: a short node takes the nibble into its key, anything else goes below it. */
  lemma {:induction false} SoleReduced(n: Node, k: Bytes, ch: seq<Node>, top: bool, db: Store, gen: nat)
    requires Ready(n, k, top, db) && n.NFull? && |n.ch| == |ch| == 17 && IsPath(k)
    requires Sole(ch) >= 0 && ch[Sole(ch)] == n.ch[Sole(ch)]
    requires Updated(Expand(n), Short([Sole(ch)], Expand(ch[Sole(ch)])), k, None)
    ensures ReduceOk(n, k, top, db, Reduce(ch, db, gen))
  {
    var pos := Sole(ch);
    var c := ch[pos];
    assert Expand(c) == Expand(n).ch[pos];
    NilExpand(c, false);
    assert pos < 16 ==> WF(Expand(c));
    if pos == 16 {
    } else if c.NHash? {
      ResolveOk(c.d, false, db, gen);
      if c.d in db {
        SoleJoined(n, k, pos, Resolve(c.d, db, gen).value, top, db, gen);
      }
    } else {
      SoleJoined(n, k, pos, c, top, db, gen);
    }
  }

  lemma {:induction false} SoleJoined(n: Node, k: Bytes, pos: Byte, c: Node, top: bool, db: Store, gen: nat)
    requires Ready(n, k, top, db) && n.NFull? && |n.ch| == 17 && pos < 16 && IsPath(k)
    requires Replaces(c, n.ch[pos], false, db) && (c.NShort? || c.NFull?)
    requires Updated(Expand(n), Short([pos], Expand(c)), k, None)
    ensures c.NShort? ==> Edits(n, NShort([pos] + c.key, c.val, NewFlag(gen)), k, None, top, db)
    ensures c.NFull? ==> Edits(n, NShort([pos], n.ch[pos], NewFlag(gen)), k, None, top, db)
  {
    assert Expand(c) == Expand(n).ch[pos];
    if c.NShort? {
      JoinWF([pos], c.key, Expand(c.val));
      JoinUpdated(Expand(n), [pos], c.key, Expand(c.val), k, None);
    }
  }
}

/** The stack-based pre-order iterator over a partially loaded trie. */
module NodeIterator {
  import opened HexKeys
  import opened PatriciaTree
  import opened NodeCodec
  import opened TrieNode
  import opened TrieOps
  import opened Traversal

  datatype Frame = Frame(hash: Digest, node: Node, index: int, pathlen: nat)

  /** The hash an iterator reports: that of the root, or of a node stored on its own. */
  function HashAt(x: Item): Digest
    requires Subtree(x.t)
  {
    if x.t.Nil? || x.t.Val? || (x.path != [] && Small(BlobOf(x.t))) then ZeroHash else Keccak(BlobOf(x.t))
  }

  ghost predicate FrameOk(f: Frame, path: Bytes, root: Node, db: Store) {
    && !f.node.NHash? && Subtree(Expand(f.node))
    && HashesOk(f.node, path == []) && Labelled(f.node)
    && (Backed(root, db) ==> Backed(f.node, db))
    && f.hash == HashAt(Item(path, Expand(f.node)))
    && -1 <= f.index <= 16
  }

  /** The frames are the nodes from the root down to path. */
  ghost predicate StackOk(stack: seq<Frame>, path: Bytes, root: Node, db: Store) {
    if stack == [] then path == []
    else
      var f := stack[|stack| - 1];
      && FrameOk(f, path, root, db)
      && f.pathlen <= |path| && (|stack| == 1 <==> path == [])
      && StackOk(stack[..|stack| - 1], path[..f.pathlen], root, db)
  }

  /** What is still to be visited below the node of one frame. */
  ghost function Pending(f: Frame, path: Bytes): seq<Item>
    requires Shaped(Expand(f.node)) && -1 <= f.index <= 16
  {
    if f.node.NFull? then Children(path, Expand(f.node), f.index + 1)
    else if f.node.NShort? && f.index < 0 then Visit(path + f.node.key, Expand(f.node.val))
    else []
  }

  lemma {:induction false} FrameShaped(f: Frame, path: Bytes, root: Node, db: Store)
    requires FrameOk(f, path, root, db)
    ensures Shaped(Expand(f.node))
  {
    WFShape(Expand(f.node));
  }

  ghost function Rest(stack: seq<Frame>, path: Bytes, root: Node, db: Store): seq<Item>
    requires StackOk(stack, path, root, db)
  {
    if stack == [] then []
    else
      var f := stack[|stack| - 1];
      FrameShaped(f, path, root, db);
      Pending(f, path) + Rest(stack[..|stack| - 1], path[..f.pathlen], root, db)
  }

  /** A node not yet started has everything below it pending. */
  lemma {:induction false} PendingBelow(f: Frame, path: Bytes, root: Node, db: Store)
    requires FrameOk(f, path, root, db) && f.index == -1
    ensures Shaped(Expand(f.node)) && Pending(f, path) == Below(path, Expand(f.node))
  {
    FrameShaped(f, path, root, db);
  }

  ghost predicate ChildOk(c: Node, path: Bytes, cpath: Bytes, root: Node, db: Store) {
    && c != NNil && Subtree(Expand(c)) && HashesOk(c, false) && Labelled(c)
    && (Backed(root, db) ==> Backed(c, db))
    && path < cpath
  }

  /** child at cpath is the first thing pending below f; index is where f stands just before it. */
  ghost predicate FirstPending(f: Frame, path: Bytes, child: Node, cpath: Bytes, index: int, root: Node, db: Store) {
    && ChildOk(child, path, cpath, root, db) && Shaped(Expand(child)) && -1 <= index <= 15
    && Shaped(Expand(f.node)) && -1 <= f.index <= 16
    && Pending(f, path) == Pending(f.(index := index), path)
    && Pending(f, path) == Visit(cpath, Expand(child)) + Pending(f.(index := index + 1), path)
  }

  /** The next child of a frame: its path, and the index from which it will be passed. */
  method NextChild(f: Frame, path: Bytes, ghost root: Node, ghost db: Store)
    returns (ok: bool, child: Node, cpath: Bytes, index: int)
    requires FrameOk(f, path, root, db) && Shaped(Expand(f.node))
    ensures !ok ==> Pending(f, path) == []
    ensures ok ==> FirstPending(f, path, child, cpath, index, root, db)
  {
    ok, child, cpath, index := false, NNil, path, f.index;
    match f.node
    case NFull(ch, _) =>
      for i := f.index + 1 to |ch|
        invariant Children(path, Expand(f.node), f.index + 1) == Children(path, Expand(f.node), i)
      {
        if ch[i] != NNil {
          FirstFull(f, path, i, root, db);
          return true, ch[i], path + [i], i - 1;
        }
      }
    case NShort(key, val, _) =>
      if f.index < 0 {
        FirstShort(f, path, root, db);
        return true, val, path + key, f.index;
      }
    case _ =>
  }

  lemma {:induction false} FirstShort(f: Frame, path: Bytes, root: Node, db: Store)
    requires FrameOk(f, path, root, db) && Shaped(Expand(f.node)) && f.node.NShort? && f.index < 0
    ensures FirstPending(f, path, f.node.val, path + f.node.key, f.index, root, db)
  {
    var v := Visit(path + f.node.key, Expand(f.node.val));
    assert v + [] == v;
  }

  lemma {:induction false} FirstFull(f: Frame, path: Bytes, i: nat, root: Node, db: Store)
    requires FrameOk(f, path, root, db) && Shaped(Expand(f.node)) && f.node.NFull? && f.index < i < |f.node.ch| == 17
    requires f.node.ch[i] != NNil
    requires Children(path, Expand(f.node), f.index + 1) == Children(path, Expand(f.node), i)
    ensures FirstPending(f, path, f.node.ch[i], path + [i], i - 1, root, db)
  {
    NextFull(f, path, i, root, db);
  }

  lemma {:induction false} NextFull(f: Frame, path: Bytes, i: nat, root: Node, db: Store)
    requires FrameOk(f, path, root, db) && Shaped(Expand(f.node)) && f.node.NFull? && i < |f.node.ch| == 17
    requires f.node.ch[i] != NNil
    ensures ChildOk(f.node.ch[i], path, path + [i], root, db) && Shaped(Expand(f.node.ch[i]))
    ensures Children(path, Expand(f.node), i) == Visit(path + [i], Expand(f.node.ch[i])) + Children(path, Expand(f.node), i + 1)
  {
    NilExpand(f.node.ch[i], false);
    assert Expand(f.node).ch[i] == Expand(f.node.ch[i]);
  }

  /** A frame for node c at path, loaded from the store if need be. */
  method Load(c: Node, hash: Digest, path: Bytes, pathlen: nat, db: Store, gen: nat, ghost root: Node) returns (r: Result<Frame>)
    requires ContentAddressed(db) && Subtree(Expand(c)) && HashesOk(c, path == []) && Labelled(c)
    requires Backed(root, db) ==> Backed(c, db)
    requires !c.NHash? ==> hash == HashAt(Item(path, Expand(c)))
    ensures r.Missing? ==> !Backed(root, db)
    ensures r.Ok? ==> FrameOk(r.value, path, root, db) && r.value.index == -1 && r.value.pathlen == pathlen
    ensures r.Ok? ==> Expand(r.value.node) == Expand(c)
  {
    if c.NHash? {
      ResolveOk(c.d, path == [], db, gen);
      match Resolve(c.d, db, gen)
      case Missing(d) => r := Missing(d);
      case Ok(n) => r := Ok(Frame(c.d, n, -1, pathlen));
    } else {
      r := Ok(Frame(hash, c, -1, pathlen));
    }
  }

  function CachedHash(c: Node): Digest {
    if (c.NShort? || c.NFull?) && c.flags.hash.Some? then c.flags.hash.value else ZeroHash
  }

  lemma {:induction false} CachedHashAt(c: Node, path: Bytes)
    requires Subtree(Expand(c)) && HashesOk(c, false) && Labelled(c) && path != [] && !c.NHash?
    ensures CachedHash(c) == HashAt(Item(path, Expand(c)))
  {
  }

  // ---- stack moves ----

  function Bump(stack: seq<Frame>, index: int): seq<Frame>
    requires stack != []
  {
    stack[|stack| - 1 := stack[|stack| - 1].(index := index)]
  }

  lemma {:induction false} BumpOk(stack: seq<Frame>, path: Bytes, index: int, root: Node, db: Store)
    requires StackOk(stack, path, root, db) && stack != [] && -1 <= index <= 16
    ensures StackOk(Bump(stack, index), path, root, db)
    ensures var f := stack[|stack| - 1];
            && Shaped(Expand(f.node))
            && Rest(Bump(stack, index), path, root, db) ==
               Pending(f.(index := index), path) + Rest(stack[..|stack| - 1], path[..f.pathlen], root, db)
  {
    var f := stack[|stack| - 1];
    FrameShaped(f, path, root, db);
    assert Bump(stack, index)[..|stack| - 1] == stack[..|stack| - 1];
  }

  lemma {:induction false} PushOk(stack: seq<Frame>, path: Bytes, f: Frame, fpath: Bytes, root: Node, db: Store)
    requires StackOk(stack, path, root, db) && FrameOk(f, fpath, root, db)
    requires f.pathlen == |path| && path <= fpath && (stack == [] <==> fpath == [])
    ensures StackOk(stack + [f], fpath, root, db) && Shaped(Expand(f.node))
    ensures Rest(stack + [f], fpath, root, db) == Pending(f, fpath) + Rest(stack, path, root, db)
  {
    FrameShaped(f, fpath, root, db);
    assert (stack + [f])[..|stack|] == stack;
    assert fpath[..|path|] == path;
  }

  lemma {:induction false} PopOk(stack: seq<Frame>, path: Bytes, root: Node, db: Store)
    requires StackOk(stack, path, root, db) && stack != []
    ensures var f := stack[|stack| - 1];
            && Shaped(Expand(f.node)) && f.pathlen <= |path| && FrameOk(f, path, root, db)
            && StackOk(stack[..|stack| - 1], path[..f.pathlen], root, db)
            && Rest(stack, path, root, db) ==
               Pending(f, path) + Rest(stack[..|stack| - 1], path[..f.pathlen], root, db)
  {
    FrameShaped(stack[|stack| - 1], path, root, db);
  }

  // ---- positions in the traversal ----

  lemma {:induction false} Drop(items: seq<Item>, k: nat, a: seq<Item>, b: seq<Item>)
    requires k <= |items| && items[k..] == a + b
    ensures k + |a| <= |items| && items[k + |a|..] == b
    ensures forall i :: 0 <= i < |a| ==> items[k + i] == a[i]
  {
    assert items[k + |a|..] == items[k..][|a|..] == b;
    forall i | 0 <= i < |a| ensures items[k + i] == a[i] {
      assert items[k..][i] == a[i];
    }
  }

  /** The stack stands just before position pos + 1. */
  ghost predicate Stands(stack: seq<Frame>, path: Bytes, root: Node, db: Store, items: seq<Item>, pos: int) {
    StackOk(stack, path, root, db) && 0 <= pos + 1 <= |items| && Rest(stack, path, root, db) == items[pos + 1..]
  }

  /** f at p is the node at pos + 1, a child of the top of the stack that is still to be pushed. */
  ghost predicate NextUp(stack: seq<Frame>, path: Bytes, root: Node, db: Store, items: seq<Item>, pos: int, f: Frame, p: Bytes) {
    && stack != [] && path < p && 0 <= pos + 1 <= |items|
    && FrameOk(f, p, root, db) && f.index == -1 && f.pathlen == |path| && Shaped(Expand(f.node))
    && -1 <= stack[|stack| - 1].index <= 15
    && var bumped := Bump(stack, stack[|stack| - 1].index + 1);
       StackOk(bumped, path, root, db) &&
       items[pos + 1..] == Visit(p, Expand(f.node)) + Rest(bumped, path, root, db)
  }

  lemma {:induction false} SkipStands(stack: seq<Frame>, path: Bytes, root: Node, db: Store, items: seq<Item>, pos: int)
    requires Stands(stack, path, root, db, items, pos) && stack != [] && stack[|stack| - 1].index == -1
    ensures var f := stack[|stack| - 1];
            && f.pathlen <= |path| && Shaped(Expand(f.node))
            && Stands(stack[..|stack| - 1], path[..f.pathlen], root, db, items, pos + |Below(path, Expand(f.node))|)
  {
    PopOk(stack, path, root, db);
    var f := stack[|stack| - 1];
    PendingBelow(f, path, root, db);
    Drop(items, pos + 1, Pending(f, path), Rest(stack[..|stack| - 1], path[..f.pathlen], root, db));
  }

  lemma {:induction false} PopStands(stack: seq<Frame>, path: Bytes, root: Node, db: Store, items: seq<Item>, pos: int)
    requires Stands(stack, path, root, db, items, pos) && stack != []
    ensures var f := stack[|stack| - 1];
            && f.pathlen <= |path| && FrameOk(f, path, root, db) && Shaped(Expand(f.node))
            && (Pending(f, path) == [] ==> Stands(stack[..|stack| - 1], path[..f.pathlen], root, db, items, pos))
  {
    PopOk(stack, path, root, db);
    var f := stack[|stack| - 1];
    var below := Rest(stack[..|stack| - 1], path[..f.pathlen], root, db);
    assert [] + below == below;
  }

  lemma {:induction false} NextStands(stack: seq<Frame>, path: Bytes, root: Node, db: Store, items: seq<Item>, pos: int,
                                      index: int, f: Frame, p: Bytes)
    requires Stands(stack, path, root, db, items, pos) && stack != [] && -1 <= index <= 15 && path < p
    requires FrameOk(f, p, root, db) && f.index == -1 && f.pathlen == |path| && Shaped(Expand(f.node))
    requires Shaped(Expand(stack[|stack| - 1].node)) && -1 <= stack[|stack| - 1].index <= 16
    requires var top := stack[|stack| - 1];
             Pending(top, path) == Visit(p, Expand(f.node)) + Pending(top.(index := index + 1), path)
    ensures NextUp(Bump(stack, index), path, root, db, items, pos, f, p)
  {
    hide Visit, StackOk, Rest, Pending, FrameOk, Shaped;
    var top := stack[|stack| - 1];
    PopOk(stack, path, root, db);
    BumpOk(stack, path, index + 1, root, db);
    var below := Rest(stack[..|stack| - 1], path[..top.pathlen], root, db);
    Assoc(Visit(p, Expand(f.node)), Pending(top.(index := index + 1), path), below);
    assert Bump(Bump(stack, index), index + 1) == Bump(stack, index + 1);
  }

  lemma {:induction false} Assoc(a: seq<Item>, b: seq<Item>, c: seq<Item>)
    ensures (a + b) + c == a + (b + c)
  {
  }

  lemma {:induction false} BumpStands(stack: seq<Frame>, path: Bytes, root: Node, db: Store, items: seq<Item>, pos: int, index: int)
    requires Stands(stack, path, root, db, items, pos) && stack != [] && -1 <= index <= 15
    requires Shaped(Expand(stack[|stack| - 1].node)) && -1 <= stack[|stack| - 1].index <= 16
    requires Pending(stack[|stack| - 1], path) == Pending(stack[|stack| - 1].(index := index), path)
    ensures Stands(Bump(stack, index), path, root, db, items, pos)
  {
    PopOk(stack, path, root, db);
    BumpOk(stack, path, index, root, db);
  }

  lemma {:induction false} TakeStands(stack: seq<Frame>, path: Bytes, root: Node, db: Store, items: seq<Item>, pos: int,
                                      child: Node, cpath: Bytes, index: int)
    requires Stands(stack, path, root, db, items, pos) && stack != []
    requires FirstPending(stack[|stack| - 1], path, child, cpath, index, root, db)
    ensures Stands(Bump(stack, index), path, root, db, items, pos)
  {
    BumpStands(stack, path, root, db, items, pos, index);
  }

  lemma {:induction false} PushStands(stack: seq<Frame>, path: Bytes, root: Node, db: Store, items: seq<Item>, pos: int, f: Frame, p: Bytes)
    requires NextUp(stack, path, root, db, items, pos, f, p)
    ensures var stack' := Bump(stack, stack[|stack| - 1].index + 1) + [f];
            && Stands(stack', p, root, db, items, pos + 1)
            && pos + 1 < |items| && items[pos + 1] == Item(p, Expand(f.node))
  {
    var bumped := Bump(stack, stack[|stack| - 1].index + 1);
    PushOk(bumped, path, f, p, root, db);
    PendingBelow(f, p, root, db);
    var t := Expand(f.node);
    Assoc([Item(p, t)], Below(p, t), Rest(bumped, path, root, db));
    Drop(items, pos + 1, [Item(p, t)], Below(p, t) + Rest(bumped, path, root, db));
  }

  lemma {:induction false} PushRoot(f: Frame, root: Node, db: Store, items: seq<Item>)
    requires FrameOk(f, [], root, db) && f.index == -1 && f.pathlen == 0
    requires Shaped(Expand(f.node)) && items == Visit([], Expand(f.node))
    ensures Stands([f], [], root, db, items, 0)
  {
    PushOk([], [], f, [], root, db);
    PendingBelow(f, [], root, db);
    assert [] + [f] == [f];
    assert Below([], Expand(f.node)) + [] == Below([], Expand(f.node));
    Drop(items, 0, [items[0]], Below([], Expand(f.node)));
  }

  datatype Peeked = AtEnd | Found(frame: Frame, path: Bytes)

  datatype Status = Running | End | Failed | SeekFailed(key: Bytes)

  class NodeIterator {
    const root: Node
    const rootHash: Digest
    const db: Store
    const gen: nat
    var stack: seq<Frame>
    var path: Bytes
    var status: Status
    ghost var pos: int  // position of the node last returned or passed over, in traversal order

    ghost predicate Rooted() {
      && ContentAddressed(db) && WF(Expand(root)) && HashesOk(root, true) && Labelled(root)
      && rootHash == RootHash(Expand(root))
    }

    /** All nodes of the trie, in the order in which they are to be visited. */
    ghost function Items(): (items: seq<Item>)
      requires Rooted()
      ensures Shaped(Expand(root)) && items == Visit([], Expand(root))
    {
      WFShape(Expand(root));
      Visit([], Expand(root))
    }

    ghost predicate Fresh()
      reads this
    {
      stack == [] && path == [] && pos == -1 && !status.End?
    }

    ghost predicate Under()
      requires Rooted()
      reads this
    {
      pos >= 0 && Stands(stack, path, root, db, Items(), pos)
    }

    ghost predicate Valid()
      reads this
    {
      Rooted() && (Fresh() || (Under() && (stack == [] <==> status.End?)))
    }

    /** The iterator is positioned on the node at pos, and has not gone below it. */
    ghost predicate AtItem()
      requires Rooted()
      reads this
    {
      && stack != [] && 0 <= pos < |Items()|
      && stack[|stack| - 1].index == -1
      && Items()[pos] == Item(path, Expand(stack[|stack| - 1].node))
    }

    ghost predicate Upcoming(f: Frame, p: Bytes)
      requires Rooted()
      reads this
    {
      if stack == [] then
        && Fresh() && p == [] && FrameOk(f, [], root, db) && f.index == -1 && f.pathlen == 0
        && Expand(f.node) == Expand(root)
      else Under() && NextUp(stack, path, root, db, Items(), pos, f, p)
    }

    constructor (root: Node, rootHash: Digest, db: Store, gen: nat)
      requires ContentAddressed(db) && WF(Expand(root)) && HashesOk(root, true) && Labelled(root)
      requires rootHash == RootHash(Expand(root))
      ensures Valid() && Fresh() && status == Running
      ensures this.root == root && this.db == db
    {
      this.root, this.rootHash, this.db, this.gen := root, rootHash, db, gen;
      stack, path, status, pos := [], [], Running, -1;
    }

    method Pop()
      requires stack != [] && stack[|stack| - 1].pathlen <= |path|
      modifies this`stack, this`path
      ensures stack == old(stack[..|stack| - 1]) && path == old(path[..stack[|stack| - 1].pathlen])
    {
      var parent := stack[|stack| - 1];
      path := path[..parent.pathlen];
      stack := stack[..|stack| - 1];
    }

    /** Leaves out what is below the current node. */
    method Skip()
      requires Valid() && AtItem()
      modifies this`stack, this`path, this`pos
      ensures Under() && path == old(path[..stack[|stack| - 1].pathlen])
      ensures Shaped(old(Items()[pos].t)) && pos == old(pos + |Visit(Items()[pos].path, Items()[pos].t)|) - 1
    {
      SkipStands(stack, path, root, db, Items(), pos);
      pos := pos + |Below(path, Expand(stack[|stack| - 1].node))|;
      Pop();
    }

    /** Moves up to the next ancestor with a child left, and loads that child. */
    method Scan() returns (r: Result<Peeked>)
      requires Rooted() && Under()
      modifies this`stack, this`path
      ensures Under() && path <= old(path)
      ensures r.Missing? ==> !Backed(root, db) && stack != []
      ensures r.Ok? ==> if r.value.AtEnd? then stack == [] else stack != [] && Upcoming(r.value.frame, r.value.path)
    {
      while stack != []
        invariant Under() && path <= old(path)
        decreases |stack|
      {
        var ok, child, cpath, index := Advance();
        if ok {
          r := Take(child, cpath, index);
          return;
        }
      }
      r := Ok(AtEnd);
    }

    /** Finds the top frame's next child, or drops the frame if it has none left. */
    method Advance() returns (ok: bool, child: Node, cpath: Bytes, index: int)
      requires Rooted() && Under() && stack != []
      modifies this`stack, this`path
      ensures Under() && path <= old(path)
      ensures ok ==> stack == old(stack) && FirstPending(stack[|stack| - 1], path, child, cpath, index, root, db)
      ensures !ok ==> |stack| < old(|stack|)
    {
      hide Visit, FirstPending, Rooted, Stands;
      PopStands(stack, path, root, db, Items(), pos);
      ok, child, cpath, index := NextChild(stack[|stack| - 1], path, root, db);
      if !ok {
        Pop();
      }
    }

    /** Loads the child found, and moves the parent's index to just before it. */
    method Take(child: Node, cpath: Bytes, index: int) returns (r: Result<Peeked>)
      requires Rooted() && Under() && stack != []
      requires FirstPending(stack[|stack| - 1], path, child, cpath, index, root, db)
      modifies this`stack
      ensures Under() && stack != []
      ensures r.Missing? ==> !Backed(root, db)
      ensures r.Ok? ==> r.value.Found? && Upcoming(r.value.frame, r.value.path)
    {
      hide Stands, NextUp, Visit;
      if !child.NHash? {
        CachedHashAt(child, cpath);
      }
      var c := Load(child, CachedHash(child), cpath, |path|, db, gen, root);
      TakeStands(stack, path, root, db, Items(), pos, child, cpath, index);
      if c.Missing? {
        r := Missing(c.d);
      } else {
        NextStands(stack, path, root, db, Items(), pos, index, c.value, cpath);
        r := Ok(Peeked.Found(c.value, cpath));
      }
      stack := Bump(stack, index);
    }

    /** Determines the next node without moving onto it. */
    method Peek(descend: bool) returns (r: Result<Peeked>)
      requires Valid() && !status.End? && (!descend ==> AtItem() || Fresh())
      modifies this`stack, this`path, this`pos
      ensures Rooted() && (if old(Fresh()) then Fresh() else Under())
      ensures path <= old(path)
      ensures !descend && !old(Fresh()) ==> path <= old(path[..stack[|stack| - 1].pathlen])
      ensures descend || old(Fresh()) ==> pos == old(pos)
      ensures !descend && !old(Fresh()) ==> Shaped(old(Items()[pos].t)) && pos == old(pos + |Visit(Items()[pos].path, Items()[pos].t)|) - 1
      ensures r.Missing? ==> !Backed(root, db) && (stack != [] || Fresh())
      ensures r.Ok? ==> if r.value.AtEnd? then stack == [] && !old(Fresh()) else Upcoming(r.value.frame, r.value.path)
    {
      if stack == [] {
        var hash := if rootHash != EmptyRoot then rootHash else ZeroHash;
        var c := Load(root, hash, [], 0, db, gen, root);
        if c.Missing? {
          return Missing(c.d);
        }
        return Ok(Peeked.Found(c.value, []));
      }
      if !descend {
        Skip();
      }
      r := Scan();
    }

    method PushFirst(f: Frame)
      requires Rooted() && stack == [] && Upcoming(f, [])
      modifies this`stack, this`path, this`pos
      ensures Under() && AtItem() && pos == 0 && path == [] && stack == [f]
    {
      PushRoot(f, root, db, Items());
      stack, path, pos := [f], [], 0;
    }

    method PushNext(f: Frame, p: Bytes)
      requires Rooted() && stack != [] && Upcoming(f, p)
      modifies this`stack, this`path, this`pos
      ensures Under() && AtItem() && pos == old(pos) + 1 && path == p
      ensures stack == Bump(old(stack), old(stack[|stack| - 1].index) + 1) + [f]
    {
      PushStands(stack, path, root, db, Items(), pos, f, p);
      stack, path, pos := Bump(stack, stack[|stack| - 1].index + 1) + [f], p, pos + 1;
    }

    method Push(f: Frame, p: Bytes)
      requires Rooted() && Upcoming(f, p)
      modifies this`stack, this`path, this`pos
      ensures Under() && AtItem() && pos == old(pos) + 1 && path == p
      ensures stack != [] && stack[|stack| - 1] == f
    {
      if stack == [] {
        PushFirst(f);
      } else {
        PushNext(f, p);
      }
    }

    /** Everything up to pos lies before key. */
    ghost predicate Passed(key: Bytes)
      requires Rooted()
      reads this
    {
      forall i :: 0 <= i <= pos && i < |Items()| ==> Less(Items()[i].path, key)
    }

    /** A seek for key may go on from here: it never went below a node that does not lead to key. */
    ghost predicate Seeking(key: Bytes)
      requires Rooted()
      reads this
    {
      Passed(key) && (Fresh() || path <= key || (AtItem() && ParentPath() <= key))
    }

    ghost function ParentPath(): Bytes
      reads this
    {
      if stack != [] && stack[|stack| - 1].pathlen <= |path| then path[..stack[|stack| - 1].pathlen] else []
    }

    lemma {:induction false} UpcomingItem(f: Frame, p: Bytes)
      requires Rooted() && Upcoming(f, p)
      ensures 0 <= pos + 1 < |Items()| && Items()[pos + 1] == Item(p, Expand(f.node))
    {
      if stack != [] {
        var items := Items();
        assert items[pos + 1..][0] == Item(p, Expand(f.node));
      }
    }

    /** Peeks past whatever cannot lead to key. */
    method SeekPeek(key: Bytes) returns (r: Result<Peeked>)
      requires Valid() && !status.End? && Seeking(key)
      modifies this`stack, this`path, this`pos
      ensures Rooted() && (if old(Fresh()) then Fresh() else Under())
      ensures Passed(key) && path <= key && pos >= old(pos)
      ensures r.Missing? ==> !Backed(root, db) && (stack != [] || Fresh())
      ensures r.Ok? ==> if r.value.AtEnd? then stack == [] && !old(Fresh()) else Upcoming(r.value.frame, r.value.path)
    {
      var descend := path <= key;
      if !descend {
        BlockPassed(key);
      }
      r := Peek(descend);
    }

    /** Moves forward until just before the first node whose path is not below key. */
    method Seek(prefix: Bytes)
      requires Valid() && !status.End? && Seeking(Unpack(prefix))
      modifies this`stack, this`path, this`pos, this`status
      ensures Valid() && Passed(Unpack(prefix))
      ensures status.Running? ==> pos + 1 < |Items()| && !Less(Items()[pos + 1].path, Unpack(prefix))
      ensures status.SeekFailed? ==> status.key == prefix && !Backed(root, db) && Seeking(Unpack(prefix))
      ensures !status.Failed?
    {
      hide Stands, NextUp, Visit, Compare, KeyToHex, Rooted, Unpack;
      var hex := ComputeKeyToHex(prefix);
      var key := hex[..|hex| - 1];
      KeyNibbles(prefix);
      status := Running;
      var done := false;
      while !done
        invariant Valid() && Passed(key)
        invariant !done ==> status == Running && Seeking(key)
        invariant done ==> Sought(prefix, key)
        decreases !done, |Items()| - pos
      {
        done := SeekStep(prefix, key);
      }
    }

    /** How a seek ends: just before a node that is not below key, at the end, or at a missing node. */
    ghost predicate Sought(prefix: Bytes, key: Bytes)
      requires Rooted()
      reads this
    {
      && (status.Running? ==> 0 <= pos + 1 < |Items()| && !Less(Items()[pos + 1].path, key))
      && (status.SeekFailed? ==> status.key == prefix && !Backed(root, db) && Seeking(key))
      && !status.Failed?
    }

    method SeekStep(prefix: Bytes, key: Bytes) returns (done: bool)
      requires Valid() && status == Running && Seeking(key)
      modifies this`stack, this`path, this`pos, this`status
      ensures Valid() && Passed(key)
      ensures !done ==> status == Running && Seeking(key) && old(pos) < pos < |Items()|
      ensures done ==> Sought(prefix, key)
    {
      hide Stands, NextUp, Visit, Compare, Rooted;
      done := true;
      var r := SeekPeek(key);
      match r
      case Missing(d) =>
        status := SeekFailed(prefix);
      case Ok(AtEnd) =>
        status := End;
      case Ok(Found(f, p)) =>
        UpcomingItem(f, p);
        if Compare(p, key) < 0 {
          SeekPush(f, p, key);
          done := false;
        }
    }

    method SeekPush(f: Frame, p: Bytes, ghost key: Bytes)
      requires Rooted() && !status.End? && Upcoming(f, p) && Passed(key) && path <= key && Less(p, key)
      modifies this`stack, this`path, this`pos
      ensures Valid() && Seeking(key) && pos == old(pos) + 1
    {
      hide Visit, Stands;
      UpcomingItem(f, p);
      Push(f, p);
    }

    /** The subtree of the current node lies before key if its path does not lead to key. */
    lemma {:induction false} BlockPassed(key: Bytes)
      requires Rooted() && AtItem() && Passed(key) && !(path <= key)
      ensures Shaped(Items()[pos].t)
      ensures forall i :: 0 <= i < pos + |Visit(Items()[pos].path, Items()[pos].t)| && i < |Items()| ==>
                Less(Items()[i].path, key)
    {
      var items := Items();
      VisitBlock([], Expand(root), pos);
      var block := Visit(items[pos].path, items[pos].t);
      VisitUnder(items[pos].path, items[pos].t);
      forall i | pos < i < pos + |block| && i < |items| ensures Less(items[i].path, key) {
        assert items[i] == items[pos..pos + |block|][i - pos];
        assert items[i] in block;
        BeyondPrefix(items[pos].path, items[i].path, key);
      }
    }

    /** Position of the first node after the current one, or after its whole subtree. */
    ghost function Target(descend: bool): int
      requires Valid() && (!descend ==> AtItem() || Fresh())
      reads this
    {
      if descend || Fresh() then pos + 1
      else
        VisitBlock([], Expand(root), pos);
        pos + |Visit(Items()[pos].path, Items()[pos].t)|
    }

    /** Moves onto the next node in traversal order; a failed seek is taken up again first. */
    method Next(descend: bool) returns (ok: bool)
      requires Valid() && (!descend ==> (AtItem() || Fresh()) && !status.SeekFailed?)
      requires status.SeekFailed? ==> Seeking(Unpack(status.key))
      modifies this`stack, this`path, this`pos, this`status
      ensures Valid() && (ok ==> AtItem() && status.Running?)
      ensures !ok ==> status.End? || !Backed(root, db)
      ensures old(status.End?) ==> !ok && pos == old(pos)
      ensures !old(status.SeekFailed?) ==> ok == (old(Target(descend)) < |Items()|) || !Backed(root, db)
      ensures !old(status.SeekFailed?) && ok ==> pos == old(Target(descend))
      ensures !old(status.SeekFailed?) && !ok && descend ==> pos == old(pos)
      ensures old(status.SeekFailed?) && ok ==> !Less(Items()[pos].path, Unpack(old(status.key)))
      ensures old(status.SeekFailed?) && ok ==> forall i :: 0 <= i < pos ==> Less(Items()[i].path, Unpack(old(status.key)))
    {
      if status.End? {
        return false;
      }
      if status.SeekFailed? {
        Seek(status.key);
        if !status.Running? {
          return false;
        }
      }
      ok := Step(descend);
    }

    method Step(descend: bool) returns (ok: bool)
      requires Valid() && !status.End? && (!descend ==> AtItem() || Fresh())
      modifies this`stack, this`path, this`pos, this`status
      ensures Valid() && (ok ==> AtItem() && status.Running?)
      ensures !ok ==> status.End? || (status.Failed? && !Backed(root, db))
      ensures ok == (old(Target(descend)) < |Items()|) || !Backed(root, db)
      ensures ok ==> pos == old(Target(descend))
      ensures !ok && descend ==> pos == old(pos)
    {
      var r := Peek(descend);
      match r
      case Missing(d) =>
        status := Failed;
        ok := false;
      case Ok(AtEnd) =>
        status := End;
        ok := false;
      case Ok(Found(f, p)) =>
        UpcomingItem(f, p);
        status := Running;
        Push(f, p);
        ok := true;
    }
  }
}

// The tree of computation spaces and the switch from the current space to another one: mark the
// path of the current space, find the nearest common ancestor, deinstall up to it, install down.
module Boards {
  import opened Trail

  class Board {
    var parent: Board?
    var root: bool
    var failed: bool
    var committed: bool   // merged: stands for its parent
    var mark: bool
    var script: seq<Eq>   // constraints to tell when the space is installed again

    constructor (parent: Board?)
      ensures this.parent == parent && root == (parent == null)
      ensures !failed && !committed && !mark && script == []
    {
      this.parent, root := parent, parent == null;
      failed, committed, mark, script := false, false, false, [];
    }
  }

  // ---------------------------------------------------------------- the tree as a value

  // `rep` maps a space to the unmerged space it stands for, `up` an unmerged space to its parent.
  datatype Tree = Tree(rep: map<Board, Board>, up: map<Board, Board>, depth: map<Board, nat>, root: Board) {
    ghost predicate Step(b: Board) {
      b in up && up[b] in depth && up[b] in rep && rep[up[b]] == up[b] && b in depth && depth[up[b]] < depth[b]
                  && (up[b] in up || up[b] == root)
    }

    ghost predicate Valid() {
      && root !in up && root in depth
      && (forall b {:trigger Step(b)} :: b in up ==> Step(b))
    }

    ghost predicate Has(b: Board) { b in up || b == root }
  }

  // The spaces from b up to the root.
  ghost function Above(t: Tree, b: Board): (r: set<Board>)
    requires t.Valid() && t.Has(b)
    ensures b in r
    ensures forall c :: c in r ==> t.Has(c) && c in t.depth && b in t.depth && t.depth[c] <= t.depth[b]
    decreases if b in t.depth then t.depth[b] else 0
  {
    assert b in t.up ==> t.Step(b);
    if b in t.up then Above(t, t.up[b]) + {b} else {b}
  }

  lemma AboveStep(t: Tree, b: Board)
    requires t.Valid() && t.Has(b) && b in t.up
    ensures t.Has(t.up[b]) && t.up[b] in t.depth && b in t.depth && t.depth[t.up[b]] < t.depth[b]
    ensures Above(t, b) == Above(t, t.up[b]) + {b} && b !in Above(t, t.up[b])
  {
    assert t.Step(b);
  }

  // The same spaces in order, from the root down to b.
  ghost function Path(t: Tree, b: Board): (p: seq<Board>)
    requires t.Valid() && t.Has(b)
    ensures |p| > 0 && p[|p| - 1] == b
    decreases if b in t.depth then t.depth[b] else 0
  {
    assert b in t.up ==> t.Step(b);
    if b in t.up then Path(t, t.up[b]) + [b] else [b]
  }

  lemma {:induction false} PathPrefix(t: Tree, b: Board, i: nat)
    requires t.Valid() && t.Has(b) && i < |Path(t, b)|
    ensures var c := Path(t, b)[i];
      && t.Has(c) && c in Above(t, b) && Path(t, c) == Path(t, b)[..i + 1]
      && (c == t.root <==> i == 0) && (i > 0 ==> c in t.up && t.up[c] == Path(t, b)[i - 1])
    decreases if b in t.depth then t.depth[b] else 0
  {
    assert b in t.up ==> t.Step(b);
    var p := Path(t, b);
    if i == |p| - 1 {
      assert p[..i + 1] == p;
    } else {
      var q := Path(t, t.up[b]);
      PathPrefix(t, t.up[b], i);
      assert p[..i + 1] == q[..i + 1];
    }
  }

  lemma {:induction false} AbovePath(t: Tree, b: Board, c: Board) returns (i: nat)
    requires t.Valid() && t.Has(b) && c in Above(t, b)
    ensures i < |Path(t, b)| && Path(t, b)[i] == c
    decreases if b in t.depth then t.depth[b] else 0
  {
    assert b in t.up ==> t.Step(b);
    if c == b { i := |Path(t, b)| - 1; } else { i := AbovePath(t, t.up[b], c); }
  }

  // How many spaces lie above b.
  ghost function Level(t: Tree, b: Board): nat
    requires t.Valid() && t.Has(b)
    decreases if b in t.depth then t.depth[b] else 0
  {
    assert b in t.up ==> t.Step(b);
    if b in t.up then 1 + Level(t, t.up[b]) else 0
  }

  // A new leaf leaves the tree valid and no space deeper.
  ghost predicate Adds(t: Tree, t': Tree, b: Board) {
    && !t.Has(b) && b in t'.up && t.Has(t'.up[b]) && t'.root == t.root && t'.up == t.up[b := t'.up[b]]
    && b in t'.rep && t'.rep == t.rep[b := t'.rep[b]]
    && b in t'.depth && t'.up[b] in t.depth && t.depth[t'.up[b]] < t'.depth[b] && t'.depth == t.depth[b := t'.depth[b]]
    && b !in t.depth && t'.up[b] in t.rep && t.rep[t'.up[b]] == t'.up[b]
  }

  lemma LeafAdded(t: Tree, t': Tree, b: Board, c: Board)
    requires t.Valid() && Adds(t, t', b) && t.Has(c)
    ensures t'.Valid() && t'.Has(c) && Level(t', c) == Level(t, c)
  {
    forall x | x in t'.up ensures t'.Step(x) { assert x != b ==> t.Step(x); }
    SameLevel(t, t', b, c);
  }

  lemma {:induction false} SameLevel(t: Tree, t': Tree, b: Board, c: Board)
    requires t.Valid() && t'.Valid() && Adds(t, t', b) && t.Has(c)
    ensures t'.Has(c) && Level(t', c) == Level(t, c)
    decreases if c in t.depth then t.depth[c] else 0
  {
    if c in t.up {
      assert t.Step(c);
      SameLevel(t, t', b, t.up[c]);
    }
  }

  // p leads from the root down, parent by parent, without repetition.
  ghost predicate ChainAt(t: Tree, p: seq<Board>, i: nat)
    requires t.Valid() && i < |p|
  {
    && t.Has(p[i]) && Level(t, p[i]) == i
    && (if i == 0 then p[i] !in t.up && p[i] == t.root else p[i] in t.up && t.up[p[i]] == p[i - 1] && p[i] != t.root)
  }

  ghost predicate Chain(t: Tree, p: seq<Board>)
    requires t.Valid()
  {
    forall i: nat {:trigger ChainAt(t, p, i)} :: i < |p| ==> ChainAt(t, p, i)
  }

  lemma {:induction false} PathLength(t: Tree, b: Board)
    requires t.Valid() && t.Has(b)
    ensures |Path(t, b)| == Level(t, b) + 1
    decreases if b in t.depth then t.depth[b] else 0
  {
    assert b in t.up ==> t.Step(b);
    if b in t.up { PathLength(t, t.up[b]); }
  }

  lemma PathIsChain(t: Tree, b: Board)
    requires t.Valid() && t.Has(b)
    ensures Chain(t, Path(t, b)) && |Path(t, b)| == Level(t, b) + 1
  {
    PathLength(t, b);
    forall i: nat | i < |Path(t, b)| ensures ChainAt(t, Path(t, b), i) {
      PathPrefix(t, b, i);
      PathLength(t, Path(t, b)[i]);
    }
  }

  // The length of the longest common prefix.
  ghost function Common(p: seq<Board>, q: seq<Board>): (k: nat)
    ensures k <= |p| && k <= |q| && p[..k] == q[..k]
    ensures k < |p| && k < |q| ==> p[k] != q[k]
  {
    if p != [] && q != [] && p[0] == q[0] then
      var k := Common(p[1..], q[1..]);
      assert p[..k + 1] == [p[0]] + p[1..][..k] && q[..k + 1] == [q[0]] + q[1..][..k];
      k + 1
    else 0
  }

  // A space on the path to c is above b exactly when it lies above the point where the two paths
  // part; in particular the paths share the root.
  lemma SharedPrefix(t: Tree, b: Board, c: Board, i: nat)
    requires t.Valid() && t.Has(b) && t.Has(c) && i < |Path(t, c)|
    ensures Path(t, c)[i] in Above(t, b) <==> i < Common(Path(t, b), Path(t, c))
  {
    var p, q := Path(t, b), Path(t, c);
    var k := Common(p, q);
    if i < k {
      assert q[i] == q[..k][i] == p[..k][i] == p[i];
      PathPrefix(t, b, i);
    }
    if q[i] in Above(t, b) {
      var j := AbovePath(t, b, q[i]);
      PathPrefix(t, b, j);
      PathPrefix(t, c, i);
      PrefixCommon(p, q, j, i);
    }
  }

  // q[i] lies above b exactly when i < k.
  ghost predicate MetAt(t: Tree, b: Board, q: seq<Board>, k: nat, i: nat)
    requires t.Valid() && t.Has(b)
  {
    i < |q| && (q[i] in Above(t, b) <==> i < k)
  }

  lemma Meeting(t: Tree, b: Board, c: Board, q: seq<Board>) returns (k: nat)
    requires t.Valid() && t.Has(b) && t.Has(c) && q == Path(t, c)
    ensures 0 < k <= |q| && k == Common(Path(t, b), q) && Chain(t, q)
    ensures forall i: nat {:trigger MetAt(t, b, q, k, i)} :: i < |q| ==> MetAt(t, b, q, k, i)
  {
    k := Common(Path(t, b), q);
    CommonPositive(t, b, c);
    PathIsChain(t, c);
    forall i: nat | i < |q| ensures MetAt(t, b, q, k, i) { SharedPrefix(t, b, c, i); }
  }

  lemma PrefixCommon(p: seq<Board>, q: seq<Board>, j: nat, i: nat)
    requires j < |p| && i < |q| && p[..j + 1] == q[..i + 1]
    ensures i < Common(p, q)
  {
    assert |p[..j + 1]| == j + 1 && |q[..i + 1]| == i + 1;
    var k := Common(p, q);
    assert forall m :: 0 <= m <= i ==> p[m] == p[..j + 1][m] == q[..i + 1][m] == q[m];
  }

  lemma CommonPositive(t: Tree, b: Board, c: Board)
    requires t.Valid() && t.Has(b) && t.Has(c)
    ensures Common(Path(t, b), Path(t, c)) > 0
  {
    PathPrefix(t, b, 0);
    PathPrefix(t, c, 0);
  }

  // ---------------------------------------------------------------- the machine

  class Machine {
    ghost var Boards: set<Board>
    ghost var tree: Tree        // the tree that the parent links describe
    var current: Board
    var trail: seq<Frame>
    var store: Store

    constructor (root: Board)
      requires root.root && !root.committed
      ensures Boards == {root} && current == root && trail == [] && store == map[] && Valid()
    {
      Boards := {root};
      tree := Tree(map[root := root], map[], map[root := 0], root);
      current, trail, store := root, [], NoBindings();
      new;
      assert Node(root);
    }

    // A new space below p.
    method NewSpace(p: Board) returns (b: Board)
      requires Valid() && Active(p) && NoMarks()
      modifies `Boards, `tree
      ensures fresh(b) && Boards == old(Boards) + {b} && Valid() && NoMarks() && b.script == [] && !b.failed
      ensures tree == Tree(old(tree.rep)[b := b], old(tree.up)[b := p], tree.depth, old(tree.root))
    {
      b := new Board(p);
      assert Node(p);
      AddLeaf(p, b);
    }

    ghost method AddLeaf(p: Board, b: Board)
      requires Valid() && Active(p) && Node(p) && NoMarks() && b !in Boards && b !in tree.rep && b !in tree.depth
        && !tree.Has(b)
      requires b.parent == p && !b.root && !b.committed && !b.mark
      modifies `Boards, `tree
      ensures Boards == old(Boards) + {b} && Valid() && NoMarks()
      ensures tree == Tree(old(tree.rep)[b := b], old(tree.up)[b := p], tree.depth, old(tree.root))
    {
      ghost var t := tree;
      tree := Tree(t.rep[b := b], t.up[b := p], t.depth[b := t.depth[p] + 1], t.root);
      Boards := Boards + {b};
      LeafAdded(t, tree, b, current);
      assert Node(b);
      forall c | c in old(Boards) ensures Node(c) { assert old(Node(c)); }
      assert Linked();
      assert Placed();
    }

    // What the links of b say.
    ghost predicate Node(b: Board)
      reads `Boards, `tree, b`parent, b`root, b`committed
    {
      && b in tree.rep && b in tree.depth && tree.rep[b] in Boards
      && (if b.committed then
            !b.root && !tree.Has(b) && b.parent != null && b.parent in Boards && b.parent in tree.rep
              && b.parent in tree.depth
            && tree.depth[b.parent] < tree.depth[b] && tree.rep[b] == tree.rep[b.parent]
          else
            tree.rep[b] == b && tree.Has(b) && (b.root <==> b == tree.root)
            && (!b.root ==>
              b.parent != null && b.parent in Boards && b in tree.up && b.parent in tree.rep
              && tree.up[b] == tree.rep[b.parent]))
    }

    ghost predicate Linked()
      reads `Boards, `tree, Boards`parent, Boards`root, Boards`committed
    {
      tree.Valid() && forall b {:trigger Node(b)} :: b in Boards ==> Node(b)
    }

    // The current space is in the tree, and each space on its path, the root apart, has a frame.
    ghost predicate Valid()
      reads this, Boards`parent, Boards`root, Boards`committed
    {
      Placed() && WellTrailed(trail, store) && tree.up.Keys <= Boards && tree.root in Boards
    }

    ghost predicate Placed()
      reads `Boards, `tree, `current, `trail, Boards`parent, Boards`root, Boards`committed
    {
      Linked() && Active(current) && |trail| == Level(tree, current)
    }

    // b is a space of the tree that has not been merged.
    ghost predicate Active(b: Board)
      reads `Boards, `tree
    {
      b in Boards && b in tree.rep && tree.rep[b] == b && tree.Has(b)
    }

    method DerefBoard(b: Board) returns (r: Board)
      requires Linked() && b in Boards
      ensures b in tree.rep && r == tree.rep[b] && Active(r)
    {
      r := b;
      assert Node(b);
      while r.committed
        invariant r in Boards && b in tree.rep && r in tree.rep && r in tree.depth && tree.rep[r] == tree.rep[b]
        decreases tree.depth[r]
      {
        assert Node(r);
        r := r.parent;
      }
      assert Node(r);
    }

    method GetParent(b: Board) returns (r: Board)
      requires Linked() && Active(b) && !b.root
      ensures b in tree.up && r == tree.up[b] && Active(r)
    {
      assert Node(b);
      r := DerefBoard(b.parent);
    }

    ghost predicate NoMarks()
      reads `Boards, Boards`mark
    {
      forall b :: b in Boards ==> !b.mark
    }

    // No space from b up to the root, the root apart, has failed.
    ghost predicate Alive(b: Board)
      requires tree.Valid() && tree.Has(b)
      reads `Boards, `tree, Boards`failed
    {
      forall c :: c in Above(tree, b) && c in Boards && c != tree.root ==> !c.failed
    }

    method IsAlive(b: Board) returns (alive: bool)
      requires Linked() && Active(b)
      ensures alive == Alive(b)
    {
      var s := b;
      assert Node(s);
      while !s.root
        invariant Active(s) && Node(s) && s in Above(tree, b) && Above(tree, s) <= Above(tree, b)
        invariant forall c :: c in Above(tree, b) && c in Boards && c !in Above(tree, s) ==> !c.failed
        decreases tree.depth[s]
      {
        if s.failed { return false; }
        assert tree.Step(s);
        s := GetParent(s);
        assert Node(s);
      }
      return true;
    }

    // Of the spaces of all, those below s are marked.
    ghost predicate MarkedBelow(all: set<Board>, s: Board)
      requires tree.Valid() && tree.Has(s)
      reads `Boards, `tree, Boards`mark
    {
      forall c {:trigger BelowAt(all, s, c)} :: c in Boards ==> BelowAt(all, s, c)
    }

    ghost predicate BelowAt(all: set<Board>, s: Board, c: Board)
      requires tree.Valid() && tree.Has(s)
      reads `Boards, `tree, c`mark
    {
      c.mark <==> c in all && c !in Above(tree, s)
    }

    // Mark every space from b up to the root.
    method MarkPath(b: Board)
      requires Linked() && Active(b) && NoMarks()
      modifies Boards`mark
      ensures Linked() && PathMarked(b)
    {
      var s := b;
      ghost var all := Above(tree, b);
      assert Node(s);
      forall c | c in Boards ensures BelowAt(all, s, c) {}
      while !s.root
        invariant Linked() && Active(s) && Node(s) && Above(tree, s) <= all && MarkedBelow(all, s)
        decreases tree.depth[s]
      {
        s := MarkOne(s, all);
      }
      s.mark := true;
      forall c | c in Boards ensures MarkAt(b, c) { assert BelowAt(all, s, c) || c == s; }
    }

    // Mark s and go up.
    method MarkOne(s: Board, ghost all: set<Board>) returns (r: Board)
      requires Linked() && Active(s) && Node(s) && !s.root && Above(tree, s) <= all && MarkedBelow(all, s)
      modifies s`mark
      ensures Linked() && Active(r) && Node(r) && Above(tree, r) <= all && MarkedBelow(all, r)
      ensures r in tree.depth && s in tree.depth && tree.depth[r] < tree.depth[s]
    {
      assert tree.Step(s);
      s.mark := true;
      r := GetParent(s);
      assert Node(r);
      AboveStep(tree, s);
      forall c | c in Boards ensures BelowAt(all, r, c) { assert old(BelowAt(all, s, c)); }
    }

    // Walk up from b to the first marked space.
    method FindAncestor(b: Board, ghost frm: Board) returns (a: Board)
      requires Linked() && Active(b) && Active(frm)
      requires PathMarked(frm)
      ensures var k := Common(Path(tree, frm), Path(tree, b)); k > 0 && a == Path(tree, b)[k - 1]
    {
      ghost var q := Path(tree, b);
      ghost var k := Meeting(tree, frm, b, q);
      a := WalkToMark(b, frm, q, k);
    }

    method WalkToMark(b: Board, ghost frm: Board, ghost q: seq<Board>, ghost k: nat) returns (a: Board)
      requires Linked() && Active(b) && Active(frm) && PathMarked(frm)
      requires 0 < k <= |q| && b == q[|q| - 1] && Chain(tree, q)
      requires forall i: nat {:trigger MetAt(tree, frm, q, k, i)} :: i < |q| ==> MetAt(tree, frm, q, k, i)
      ensures a == q[k - 1]
    {
      a := b;
      ghost var i := |q| - 1;
      assert MetAt(tree, frm, q, k, i) && MarkAt(frm, a);
      while !a.mark
        invariant 0 <= i < |q| && a == q[i] && Active(a) && k <= i + 1
        invariant MetAt(tree, frm, q, k, i) && MarkAt(frm, a)
        decreases i
      {
        assert Node(a) && ChainAt(tree, q, i);
        a := GetParent(a);
        i := i - 1;
        assert MetAt(tree, frm, q, k, i) && MarkAt(frm, a);
      }
    }

    // Only spaces from s up to the root are marked.
    ghost predicate MarkedAbove(s: Board)
      requires tree.Valid() && tree.Has(s)
      reads `Boards, `tree, Boards`mark
    {
      forall c {:trigger AboveAt(s, c)} :: c in Boards ==> AboveAt(s, c)
    }

    ghost predicate AboveAt(s: Board, c: Board)
      requires tree.Valid() && tree.Has(s)
      reads `Boards, `tree, c`mark
    {
      c.mark ==> c in Above(tree, s)
    }

    // Clear the marks from b up to the root.
    method ClearMarks(b: Board)
      requires Linked() && Active(b)
      requires PathMarked(b)
      modifies Boards`mark
      ensures NoMarks()
    {
      var s := b;
      assert Node(s);
      forall c | c in Boards ensures AboveAt(s, c) { assert MarkAt(b, c); }
      while !s.root
        invariant Linked() && Active(s) && Node(s) && MarkedAbove(s)
        decreases tree.depth[s]
      {
        s := ClearOne(s);
      }
      s.mark := false;
      forall c | c in Boards ensures !c.mark { assert AboveAt(s, c) || c == s; }
    }

    // Clear the mark of s and go up.
    method ClearOne(s: Board) returns (r: Board)
      requires Linked() && Active(s) && Node(s) && !s.root && MarkedAbove(s)
      modifies s`mark
      ensures Linked() && Active(r) && Node(r) && MarkedAbove(r)
      ensures r in tree.depth && s in tree.depth && tree.depth[r] < tree.depth[s]
    {
      assert tree.Step(s);
      s.mark := false;
      r := GetParent(s);
      assert Node(r);
      AboveStep(tree, s);
      forall c | c in Boards ensures AboveAt(r, c) { assert old(AboveAt(s, c)); }
    }

    // Undo the top frame, turning its bindings into a script.
    method UnwindFrame(ghost f: Frame) returns (s: seq<Eq>)
      requires |trail| > 0 && f == trail[|trail| - 1] && Bound(f, store)
      modifies `trail, `store
      ensures trail == old(trail)[..|old(trail)| - 1] && store == Unbound(f, old(store)) && s == ScriptOf(f, old(store))
    {
      ghost var st := store;
      var f0 := trail[|trail| - 1];
      var i := |f0|;
      s := [];
      while i > 0
        invariant 0 <= i <= |f0| && trail == old(trail)
        invariant store == Unbound(f0[i..], st)
        invariant s == ScriptOf(f0, st)[i..]
      {
        i := i - 1;
        UnboundLess(f0, st, i);
        s := [Eq(f0[i], store[f0[i]])] + s;
        UnboundMore(f0, st, i);
        store := Without(store, f0[i]);
      }
      assert f0[i..] == f0;
      trail := trail[..|trail| - 1];
    }

    // Undo the top frame of a failed space.
    method UnwindFailed(ghost f: Frame)
      requires |trail| > 0 && f == trail[|trail| - 1] && Bound(f, store)
      modifies `trail, `store
      ensures trail == old(trail)[..|old(trail)| - 1] && store == Unbound(f, old(store))
    {
      ghost var st := store;
      var f0 := trail[|trail| - 1];
      var i := |f0|;
      while i > 0
        invariant 0 <= i <= |f0| && trail == old(trail)
        invariant store == Unbound(f0[i..], st)
      {
        i := i - 1;
        UnboundMore(f0, st, i);
        store := Without(store, f0[i]);
      }
      assert f0[i..] == f0;
      trail := trail[..|trail| - 1];
    }

    // Replay the script of the current space into its new frame.
    method InstallScript() returns (ok: bool)
      requires |trail| > 0 && trail[|trail| - 1] == []
      modifies `trail, `store, current`script
      ensures current.script == []
      ensures var r := Replay(old(current.script), old(store), []);
        ok == r.ok && store == r.store && trail == old(trail)[..|old(trail)| - 1] + [r.frame]
      ensures ToldExactly(old(current.script), old(store), store, ok)
    {
      ghost var T := trail[..|trail| - 1];
      var xys := current.script;
      ReplayExactly(xys, store);
      current.script := [];
      assert trail == T + [[]];
      while |xys| > 0
        invariant |trail| == |T| + 1 && trail == T + [trail[|T|]] && current.script == []
        invariant Replay(xys, store, trail[|T|]) == Replay(old(current.script), old(store), [])
      {
        var e := xys[0];
        xys := xys[1..];
        var told := TellEq(e);
        match told {
          case Same =>
          case Clash => return false;
          case Bind(x, t) =>
            var top := trail[|trail| - 1];
            store := store[x := t];
            trail := trail[..|trail| - 1] + [top + [x]];
        }
      }
      return true;
    }

    // Follow the references from t to their end.
    method Follow(t: Term) returns (e: Term)
      ensures e == Deref(store, t)
    {
      e := t;
      assert Acyclic(store);
      ghost var level :| Descends(store, level);
      while e.Ref? && e.x in store
        invariant Deref(store, e) == Deref(store, t)
        decreases if e.Ref? then level(e.x) + 1 else 0
      {
        DerefStep(store, e.x);
        e := store[e.x];
      }
    }

    // What it takes to make the two sides of a constraint equal.
    method TellEq(e: Eq) returns (r: Unified)
      ensures r == Tell(e, store)
    {
      var a := Follow(Ref(e.x));
      var b := Follow(e.y);
      r := Unify(a, b);
    }

    // Make the current space fail: its bindings are undone and its parent becomes current.
    method Fail(ghost f: Frame)
      requires Placed() && !current.root && |trail| > 0 && f == trail[|trail| - 1] && Bound(f, store)
      modifies `current, `trail, `store, current`failed
      ensures Placed() && old(current).failed && old(current) in tree.up && current == tree.up[old(current)]
      ensures trail == old(trail)[..|old(trail)| - 1] && store == Unbound(f, old(store))
    {
      assert Node(current) && tree.Step(current);
      var pb := GetParent(current);
      current.failed := true;
      UnwindFailed(f);
      current := pb;
    }

    ghost predicate PathMarked(b: Board)
      requires tree.Valid() && tree.Has(b)
      reads `Boards, `tree, Boards`mark
    {
      forall c {:trigger MarkAt(b, c)} :: c in Boards ==> MarkAt(b, c)
    }

    ghost predicate MarkAt(b: Board, c: Board)
      requires tree.Valid() && tree.Has(b)
      reads `Boards, `tree, c`mark
    {
      c.mark <==> c in Above(tree, b)
    }

    // Deinstall the current space: its bindings become its script.
    method DeinstallCurrent(ghost f: Frame)
      requires Placed() && !current.root && PathMarked(current)
      requires |trail| > 0 && f == trail[|trail| - 1] && Bound(f, store)
      modifies `current, `trail, `store, current`mark, current`script
      ensures Placed() && old(current) in tree.up && current == tree.up[old(current)] && PathMarked(current)
      ensures trail == old(trail)[..|old(trail)| - 1] && store == Unbound(f, old(store))
      ensures old(current).script == ScriptOf(f, old(store))
    {
      var s := current;
      Unmark(s);
      var script := UnwindFrame(f);
      s.script := script;
      s := GetParent(s);
      current := s;
    }

    // Of the marked path to s only the part above s stays marked.
    method Unmark(s: Board)
      requires Linked() && Active(s) && !s.root && PathMarked(s)
      modifies s`mark
      ensures s in tree.up && tree.Has(tree.up[s]) && PathMarked(tree.up[s])
    {
      assert Node(s) && tree.Step(s);
      AboveStep(tree, s);
      s.mark := false;
      forall c | c in Boards ensures MarkAt(tree.up[s], c) { assert old(MarkAt(s, c)); }
    }

    // The spaces of p below index i have been deinstalled, which gave u.
    ghost predicate LeftAt(p: seq<Board>, i: nat, u: Undone, j: nat)
      reads `Boards, Boards`script
    {
      i < j < |p| ==> j - i - 1 < |u.scripts| && p[j] in Boards && p[j].script == u.scripts[j - i - 1]
    }

    ghost predicate Left(p: seq<Board>, i: nat, u: Undone)
      reads `Boards, Boards`script
    {
      forall j: nat {:trigger LeftAt(p, i, u, j)} :: i < j < |p| ==> LeftAt(p, i, u, j)
    }

    // Spaces that are not below b keep their scripts.
    ghost predicate Kept(scripts: map<Board, seq<Eq>>, gone: set<Board>)
      reads `Boards, Boards`script
    {
      forall b {:trigger KeptAt(scripts, b)} :: b in Boards && b !in gone ==> KeptAt(scripts, b)
    }

    ghost predicate KeptAt(scripts: map<Board, seq<Eq>>, b: Board)
      reads b`script
    {
      b in scripts && b.script == scripts[b]
    }

    method DeinstallStep(ghost p: seq<Board>, ghost i: nat, ghost u: Undone, ghost f: Frame,
                         ghost scripts: map<Board, seq<Eq>>, ghost gone: set<Board>)
      requires Placed() && Chain(tree, p) && 0 < i < |p| && current == p[i] && PathMarked(current)
      requires store == u.store && |trail| > 0 && f == trail[|trail| - 1] && Bound(f, store)
      requires Left(p, i, u) && Kept(scripts, gone)
      modifies `current, `trail, `store, current`mark, current`script
      ensures Placed() && current == p[i - 1] && PathMarked(current)
      ensures trail == old(trail)[..|old(trail)| - 1] && store == Unbound(f, u.store)
      ensures Left(p, i - 1, Undone([ScriptOf(f, u.store)] + u.scripts, Unbound(f, u.store)))
        && Kept(scripts, gone + {p[i]})
    {
      assert ChainAt(tree, p, i);
      assert Node(current);
      DeinstallCurrent(f);
      forall b | b in Boards && b !in gone + {p[i]} ensures KeptAt(scripts, b) { assert old(KeptAt(scripts, b)); }
      ghost var u', i' := Undone([ScriptOf(f, u.store)] + u.scripts, Unbound(f, u.store)), i - 1;
      forall j: nat | i' < j < |p| ensures LeftAt(p, i', u', j) {
        assert ChainAt(tree, p, j);
        if j > i { assert old(LeftAt(p, i, u, j)); }
      }
    }

    // The deinstallation has come to p[i]; T is the trail before it, and us[i] what undoing the
    // frames from i on gives.
    ghost predicate Leaving(p: seq<Board>, T: seq<Frame>, us: seq<Undone>, i: nat)
      reads this, Boards`parent, Boards`root, Boards`committed, Boards`mark, Boards`script
    {
      && tree.Valid() && Placed() && i < |p| && current == p[i] && PathMarked(current)
      && i <= |T| && trail == T[..i] && i < |us| && store == us[i].store && Left(p, i, us[i])
    }

    method DeinstallNext(ghost p: seq<Board>, ghost T: seq<Frame>, ghost us: seq<Undone>, ghost i: nat,
                         ghost scripts: map<Board, seq<Eq>>, ghost gone: set<Board>)
      requires i > 0 && UndoneAt(T, us, i) && Leaving(p, T, us, i) && Chain(tree, p) && Kept(scripts, gone)
      modifies `current, `trail, `store, current`mark, current`script
      ensures Leaving(p, T, us, i - 1) && Kept(scripts, gone + {p[i]})
    {
      assert T[..i][|T[..i]| - 1] == T[i - 1] && T[..i][..|T[..i]| - 1] == T[..i - 1];
      DeinstallStep(p, i, us[i], T[i - 1], scripts, gone);
    }

    // Deinstall the spaces from frm up to the ancestor.
    method DeinstallTo(ancestor: Board, ghost p: seq<Board>, ghost k: nat, ghost T: seq<Frame>, ghost us: seq<Undone>,
                       ghost scripts: map<Board, seq<Eq>>)
      requires tree.Valid() && Chain(tree, p) && Leaving(p, T, us, |T|) && Kept(scripts, Range(p, |T| + 1, |p|))
      requires Undoing(T, us)
      requires 0 < k <= |p| == |T| + 1 && ancestor == p[k - 1]
      modifies `current, `trail, `store, Boards`mark, Boards`script
      ensures Leaving(p, T, us, k - 1) && Kept(scripts, Range(p, k, |p|))
    {
      ghost var i := |T|;
      while current != ancestor
        invariant k - 1 <= i <= |T| && Leaving(p, T, us, i) && Kept(scripts, Range(p, i + 1, |p|))
        decreases i
      {
        assert UndoneAt(T, us, i);
        DeinstallNext(p, T, us, i, scripts, Range(p, i + 1, |p|));
        RangeStep(p, i);
        i := i - 1;
      }
      ChainUnique(tree, p, i, k - 1);
    }

    // Deinstall the spaces from frm up to the ancestor, and clear the marks of the whole path.
    method Deinstall(frm: Board, ancestor: Board, ghost p: seq<Board>, ghost k: nat, ghost us: seq<Undone>)
      requires Placed() && current == frm && PathMarked(frm)
      requires Chain(tree, p) && 0 < k <= |p| == |trail| + 1 && frm == p[|p| - 1] && ancestor == p[k - 1]
      requires Undoing(trail, us) && us[|trail|] == Undone([], store)
      modifies `current, `trail, `store, Boards`mark, Boards`script
      ensures NoMarks() && Placed() && current == ancestor
      ensures trail == old(trail)[..k - 1] && store == us[k - 1].store && Left(p, k - 1, us[k - 1])
      ensures Kept(old(ScriptMap()), Range(p, k, |p|))
    {
      assert trail[..|trail|] == trail;
      ghost var scripts := ScriptMap();
      forall b | b in Boards ensures KeptAt(scripts, b) {}
      DeinstallTo(ancestor, p, k, trail, us, scripts);
      ClearMarks(ancestor);
    }

    // The scripts of the spaces of p from index k on are ss.
    ghost predicate ScriptAt(p: seq<Board>, k: nat, ss: seq<seq<Eq>>, j: nat)
      reads `Boards, Boards`script
    {
      j < |ss| && k + j < |p| && p[k + j] in Boards && p[k + j].script == ss[j]
    }

    ghost predicate ScriptsAre(p: seq<Board>, k: nat, ss: seq<seq<Eq>>)
      reads `Boards, Boards`script
    {
      forall j: nat {:trigger ScriptAt(p, k, ss, j)} :: j < |ss| ==> ScriptAt(p, k, ss, j)
    }

    // What installing the spaces of p from index k on has come to, according to r.
    ghost predicate Arrived(p: seq<Board>, k: nat, n: nat, r: Installed, ok: bool)
      reads `Boards, `current, `store, Boards`script, Boards`failed
    {
      && store == r.store && (ok <==> r.count == n) && k > 0 && r.count <= n && k + n <= |p|
      && current == p[k - 1 + r.count]
      && (!ok ==> p[k + r.count] in Boards && p[k + r.count].failed && p[k + r.count].script == [])
      && (forall i: nat {:trigger Emptied(p, i)} :: k <= i < k + r.count ==> Emptied(p, i))
    }

    ghost predicate Emptied(p: seq<Board>, i: nat)
      reads `Boards, Boards`script
    {
      i < |p| && p[i] in Boards && p[i].script == []
    }

    // Tell the script of b in a frame of its own; the parent of b is current.
    method InstallOne(b: Board, ghost s: seq<Eq>) returns (ok: bool)
      requires Placed() && Active(b) && b in tree.up && tree.up[b] == current && b.script == s
      modifies `current, `trail, `store, b`script, b`failed
      ensures Placed() && b.script == []
      ensures var r := Replay(s, old(store), []);
        && ok == r.ok
        && (if ok then current == b && store == r.store && trail == old(trail) + [r.frame] && b.failed == old(b.failed)
            else b.failed && current == old(current) && store == old(store) && trail == old(trail))
    {
      assert Node(b) && tree.Step(b);
      ok := EnterSpace(b, s);
      if !ok {
        Fail(trail[|trail| - 1]);
      }
    }

    // Make b current, with a new frame for the bindings of its script.
    method EnterSpace(b: Board, ghost s: seq<Eq>) returns (ok: bool)
      requires b.script == s
      modifies `current, `trail, `store, b`script
      ensures b.script == [] && current == b
      ensures var r := Replay(s, old(store), []);
        ok == r.ok && store == r.store && trail == old(trail) + [r.frame] && Bound(r.frame, r.store)
          && Unbound(r.frame, r.store) == old(store)
    {
      current := b;
      trail := trail + [[]];
      ok := InstallScript();
      assert (old(trail) + [[]])[..|old(trail)|] == old(trail);
      ReplayUndone(s, old(store));
    }

    // The failure flags are those of `fails`, except for the spaces of `gone`.
    ghost predicate FlagAt(fails: map<Board, bool>, b: Board)
      reads b`failed
    {
      b in fails && b.failed == fails[b]
    }

    ghost predicate Flags(fails: map<Board, bool>, gone: set<Board>)
      reads `Boards, Boards`failed
    {
      forall b {:trigger FlagAt(fails, b)} :: b in Boards && b !in gone ==> FlagAt(fails, b)
    }

    // What installing n spaces of p from index k on leaves alone.
    ghost predicate Frame(scripts: map<Board, seq<Eq>>, fails: map<Board, bool>, p: seq<Board>, k: nat, n: nat,
                          r: Installed, ok: bool)
      requires k + n <= |p|
      reads `Boards, Boards`script, Boards`failed
    {
      Kept(scripts, Tried(p, k, r, ok)) && (if ok then Flags(fails, {})
        else k + r.count < |p| && Flags(fails, {p[k + r.count]}))
    }

    // With the n spaces above b installed, install b as well.
    method InstallNext(b: Board, ghost p: seq<Board>, ghost k: nat, ghost n: nat, ghost s: seq<Eq>, ghost r: Installed,
                       ghost r': Installed, ghost scripts: map<Board, seq<Eq>>, ghost fails: map<Board, bool>)
      returns (ok: bool)
      requires Placed() && Chain(tree, p) && 0 < k && k + n < |p| && b == p[k + n] && Active(b) && b.script == s
      requires r.count == n && Arrived(p, k, n, r, true) && Frame(scripts, fails, p, k, n, r, true)
      requires r' == NextInstalled(r, n, s)
      modifies `current, `trail, `store, b`script, b`failed
      ensures Placed() && Arrived(p, k, n + 1, r', ok) && Frame(scripts, fails, p, k, n + 1, r', ok)
      ensures r.frames <= r'.frames && trail == old(trail) + r'.frames[|r.frames|..]
    {
      ok := InstallArriving(b, p, k, n, s, r, r');
      assert p[k + n] in Tried(p, k, r', ok);
      forall c | c in Boards && c !in Tried(p, k, r', ok) ensures KeptAt(scripts, c) { assert old(KeptAt(scripts, c)); }
      forall c | c in Boards && (ok || c != b) ensures FlagAt(fails, c) { assert old(FlagAt(fails, c)); }
    }

    method InstallArriving(b: Board, ghost p: seq<Board>, ghost k: nat, ghost n: nat, ghost s: seq<Eq>,
                           ghost r: Installed, ghost r': Installed) returns (ok: bool)
      requires Placed() && Chain(tree, p) && 0 < k && k + n < |p| && b == p[k + n] && Active(b) && b.script == s
      requires r.count == n && Arrived(p, k, n, r, true) && r' == NextInstalled(r, n, s)
      modifies `current, `trail, `store, b`script, b`failed
      ensures Placed() && Arrived(p, k, n + 1, r', ok) && (if ok then b.failed == old(b.failed) else b.failed)
      ensures r.frames <= r'.frames && trail == old(trail) + r'.frames[|r.frames|..]
    {
      assert ChainAt(tree, p, k + n);
      ok := InstallOne(b, s);
      forall i: nat | k <= i < k + n ensures Emptied(p, i) {
        assert old(Emptied(p, i));
        assert ChainAt(tree, p, i);
      }
      assert Emptied(p, k + n);
    }

    // Install b unless a space above it has failed.
    method InstallRest(above: bool, b: Board, ghost p: seq<Board>, ghost k: nat, ghost n: nat, ghost s: seq<Eq>,
                       ghost r: Installed, ghost r': Installed, ghost scripts: map<Board, seq<Eq>>,
                       ghost fails: map<Board, bool>, ghost T: seq<Frame>) returns (ok: bool)
      requires Placed() && Chain(tree, p) && 0 < k && k + n < |p| && b == p[k + n] && Active(b) && b in scripts
        && scripts[b] == s
      requires trail == T + r.frames
      requires Arrived(p, k, n, r, above) && Frame(scripts, fails, p, k, n, r, above)
      requires r' == NextInstalled(r, n, s)
      modifies `current, `trail, `store, b`script, b`failed
      ensures Placed() && Arrived(p, k, n + 1, r', ok) && Frame(scripts, fails, p, k, n + 1, r', ok)
      ensures trail == T + r'.frames
    {
      if above {
        NotTried(tree, p, k, r);
        assert KeptAt(scripts, b);
        ok := InstallNext(b, p, k, n, s, r, r', scripts, fails);
      } else {
        ok := false;
      }
    }

    // Install the spaces from below the ancestor down to b, n of them.
    method InstallDown(b: Board, ancestor: Board, ghost p: seq<Board>, ghost k: nat, ghost n: nat,
                       ghost ss: seq<seq<Eq>>, ghost rs: seq<Installed>, ghost scripts: map<Board, seq<Eq>>,
                       ghost fails: map<Board, bool>) returns (ok: bool)
      requires Placed() && Chain(tree, p) && 0 < k && k + n <= |p| && b == p[k + n - 1]
        && ancestor == p[k - 1] == current
      requires Active(b) && n <= |ss| && ScriptsAre(p, k, ss)
      requires Progression(ss, rs) && rs[0] == Installed(0, [], store)
      requires Kept(scripts, {}) && Flags(fails, {})
      modifies `current, `trail, `store, Boards`script, Boards`failed
      ensures Placed() && Arrived(p, k, n, rs[n], ok) && Frame(scripts, fails, p, k, n, rs[n], ok)
      ensures trail == old(trail) + rs[n].frames
      decreases n
    {
      if b == ancestor {
        ChainUnique(tree, p, k - 1, k + n - 1);
        return true;
      }
      assert ChainAt(tree, p, k + n - 1) && Node(b);
      assert ScriptAt(p, k, ss, n - 1) && KeptAt(scripts, b);
      var pb := GetParent(b);
      ok := InstallDown(pb, ancestor, p, k, n - 1, ss, rs, scripts, fails);
      assert NextAt(ss, rs, n - 1);
      ok := InstallRest(ok, b, p, k, n - 1, ss[n - 1], rs[n - 1], rs[n], scripts, fails, old(trail));
    }

    ghost function ScriptMap(): map<Board, seq<Eq>>
      reads `Boards, Boards`script
    {
      map b: Board | b in Boards :: b.script
    }

    ghost function FlagMap(): map<Board, bool>
      reads `Boards, Boards`failed
    {
      map b: Board | b in Boards :: b.failed
    }

    // The effect of a switch from the end of p to the end of q, which share k spaces.  T is the
    // trail before, scripts and fails are the scripts and failure flags before; u is what undoing
    // the frames of p from k on gives, r what telling the scripts of q from k on comes to.
    ghost predicate Switched(p: seq<Board>, q: seq<Board>, k: nat, T: seq<Frame>, u: Undone, r: Installed,
                             scripts: map<Board, seq<Eq>>, fails: map<Board, bool>, ok: bool)
      reads this, Boards
    {
      && 0 < k <= |p| == |T| + 1 && k <= |q|
      // one frame for each space that is now installed, the root apart
      && trail == T[..k - 1] + r.frames
      // the current space, the store, success or the failed space
      && Arrived(q, k, |q| - k, r, ok)
      // what the deinstalled spaces keep as their scripts
      && Left(p, k - 1, u)
      // no other script is touched, in particular none below a space that failed
      && Kept(scripts, Range(p, k, |p|) + Tried(q, k, r, ok))
      && (if ok then Flags(fails, {}) else k + r.count < |q| && Flags(fails, {q[k + r.count]}))
    }

    // The second half of a switch: the spaces of p from index k on have been deinstalled.
    method SwitchDown(b: Board, ancestor: Board, ghost p: seq<Board>, ghost q: seq<Board>, ghost k: nat, ghost h: nat,
                      ghost u: Undone, ghost ss: seq<seq<Eq>>, ghost rs: seq<Installed>,
                      ghost scripts: map<Board, seq<Eq>>, ghost fails: map<Board, bool>) returns (ok: bool)
      requires Progression(ss, rs) && rs[0] == Installed(0, [], u.store)
      requires Placed() && Chain(tree, q) && Active(b) && h + 1 == k <= |p| && k <= |q| && b == q[|q| - 1]
        && current == ancestor == q[k - 1]
      requires Left(p, h, u) && |ss| == |q| - k && ScriptsAre(q, k, ss) && store == u.store
      requires Kept(scripts, Range(p, k, |p|)) && Flags(fails, {}) && Range(p, k, |p|) !! Range(q, k, |q|)
      modifies `current, `trail, `store, Boards`script, Boards`failed
      ensures var r := rs[|ss|];
        && Placed() && Arrived(q, k, |q| - k, r, ok) && trail == old(trail) + r.frames && Left(p, h, u)
        && Kept(scripts, Range(p, k, |p|) + Tried(q, k, r, ok))
        && (if ok then Flags(fails, {}) else k + r.count < |q| && Flags(fails, {q[k + r.count]}))
    {
      ghost var now := ScriptMap();
      forall c | c in Boards ensures KeptAt(now, c) {}
      ok := InstallDown(b, ancestor, q, k, |q| - k, ss, rs, now, fails);
      ghost var r := rs[|ss|];
      TriedInRange(q, k, r, ok);
      forall c | c in Boards && c !in Range(p, k, |p|) + Tried(q, k, r, ok) ensures KeptAt(scripts, c) {
        assert KeptAt(now, c) && old(KeptAt(scripts, c));
      }
      forall j: nat | h < j < |p| ensures LeftAt(p, h, u, j) {
        assert old(LeftAt(p, h, u, j));
        assert p[j] in Range(p, k, |p|);
        assert KeptAt(now, p[j]);
      }
    }

    // Deinstall up to the ancestor, install down to b.
    method Switch(b: Board, ancestor: Board, ghost p: seq<Board>, ghost q: seq<Board>, ghost k: nat,
                  ghost us: seq<Undone>, ghost ss: seq<seq<Eq>>, ghost rs: seq<Installed>) returns (ok: bool)
      requires Placed() && Active(b) && PathMarked(current)
      requires Chain(tree, p) && Chain(tree, q) && 0 < k <= |p| == |trail| + 1 && k <= |q| && current == p[|p| - 1]
        && b == q[|q| - 1]
      requires ancestor == p[k - 1] == q[k - 1] && Range(p, k, |p|) !! Range(q, k, |q|)
      requires Undoing(trail, us) && us[|trail|] == Undone([], store)
      requires |ss| == |q| - k && ScriptsAre(q, k, ss) && Progression(ss, rs)
        && rs[0] == Installed(0, [], us[k - 1].store)
      modifies `current, `trail, `store, Boards`mark, Boards`script, Boards`failed
      ensures Placed() && NoMarks()
      ensures Switched(p, q, k, old(trail), us[k - 1], rs[|ss|], old(ScriptMap()), old(FlagMap()), ok)
    {
      ghost var scripts, fails := ScriptMap(), FlagMap();
      Deinstall(current, ancestor, p, k, us);
      forall j: nat | j < |ss| ensures ScriptAt(q, k, ss, j) {
        assert old(ScriptAt(q, k, ss, j));
        assert q[k + j] in Range(q, k, |q|);
        assert KeptAt(scripts, q[k + j]);
      }
      forall c | c in Boards ensures FlagAt(fails, c) {}
      ok := SwitchDown(b, ancestor, p, q, k, k - 1, us[k - 1], ss, rs, scripts, fails);
    }

    // What is known before a switch to b: the two paths, the undone frames, the scripts told.
    ghost predicate Prepared(b: Board, p: seq<Board>, q: seq<Board>, k: nat, us: seq<Undone>, ss: seq<seq<Eq>>,
                             rs: seq<Installed>)
      requires tree.Valid()
      reads this, Boards`script
    {
      && Chain(tree, p) && Chain(tree, q) && 0 < k <= |p| == |trail| + 1 && k <= |q| && current == p[|p| - 1]
      && b == q[|q| - 1]
      && p[k - 1] == q[k - 1] && Range(p, k, |p|) !! Range(q, k, |q|)
      && Undoing(trail, us) && us[|trail|] == Undone([], store)
      && |ss| == |q| - k && ScriptsAre(q, k, ss) && Progression(ss, rs) && rs[0] == Installed(0, [], us[k - 1].store)
    }

    // The paths p and q part at index k.
    ghost predicate Parting(b: Board, p: seq<Board>, q: seq<Board>, k: nat)
      requires tree.Valid()
      reads this
    {
      && Chain(tree, p) && Chain(tree, q) && 0 < k <= |p| == |trail| + 1 && k <= |q|
      && current == p[|p| - 1] && b == q[|q| - 1] && p[k - 1] == q[k - 1] && Range(p, k, |p|) !! Range(q, k, |q|)
      && forall i :: 0 <= i < |q| ==> q[i] in Boards
    }

    lemma PreparePaths(b: Board, p: seq<Board>, q: seq<Board>, k: nat)
      requires Valid() && Active(b) && p == Path(tree, current) && q == Path(tree, b) && k == Common(p, q)
      ensures Parting(b, p, q, k)
    {
      PathIsChain(tree, current);
      PathIsChain(tree, b);
      CommonPositive(tree, current, b);
      RangesDisjoint(tree, current, b);
      assert p[k - 1] == p[..k][k - 1] == q[..k][k - 1] == q[k - 1];
      forall i | 0 <= i < |q| ensures q[i] in Boards { assert ChainAt(tree, q, i); }
    }

    lemma PrepareValues(q: seq<Board>, k: nat) returns (us: seq<Undone>, ss: seq<seq<Eq>>, rs: seq<Installed>)
      requires WellTrailed(trail, store) && 0 < k <= |q| && k <= |trail| + 1 && forall i ::
        0 <= i < |q| ==> q[i] in Boards
      ensures Undoing(trail, us) && us[|trail|] == Undone([], store) && us[k - 1] == UndoneFrom(trail, store, k - 1)
      ensures |ss| == |q| - k && ScriptsAre(q, k, ss) && Progression(ss, rs)
        && rs[0] == Installed(0, [], us[k - 1].store)
      ensures rs[|ss|] == Told(ScriptMap(), q, k, us[k - 1].store)
      ensures WellTrailed(trail[..k - 1] + rs[|ss|].frames, rs[|ss|].store)
    {
      ss := ScriptsNow(q, k);
      us, rs := SwitchValues(trail, store, k - 1, ss);
    }

    lemma ScriptsNow(q: seq<Board>, k: nat) returns (ss: seq<seq<Eq>>)
      requires k <= |q| && forall i :: 0 <= i < |q| ==> q[i] in Boards
      ensures |ss| == |q| - k && ScriptsAre(q, k, ss) && ss == ToldScripts(ScriptMap(), q, k)
    {
      ss := ScriptsFrom(ScriptMap(), q, k);
      forall j: nat | j < |ss| ensures ScriptAt(q, k, ss, j) {}
    }

    lemma Prepare(b: Board, p: seq<Board>, q: seq<Board>, k: nat)
      returns (us: seq<Undone>, ss: seq<seq<Eq>>, rs: seq<Installed>)
      requires Valid() && Active(b) && p == Path(tree, current) && q == Path(tree, b) && k == Common(p, q)
      ensures Prepared(b, p, q, k, us, ss, rs) && us[k - 1] == UndoneFrom(trail, store, k - 1)
      ensures rs[|ss|] == Told(ScriptMap(), q, k, us[k - 1].store)
      ensures WellTrailed(trail[..k - 1] + rs[|ss|].frames, rs[|ss|].store)
    {
      PreparePaths(b, p, q, k);
      us, ss, rs := PrepareScripts(b, p, q, k);
    }

    lemma PrepareScripts(b: Board, p: seq<Board>, q: seq<Board>, k: nat)
      returns (us: seq<Undone>, ss: seq<seq<Eq>>, rs: seq<Installed>)
      requires tree.Valid() && WellTrailed(trail, store) && Parting(b, p, q, k)
      ensures Prepared(b, p, q, k, us, ss, rs) && us[k - 1] == UndoneFrom(trail, store, k - 1)
      ensures rs[|ss|] == Told(ScriptMap(), q, k, us[k - 1].store)
      ensures WellTrailed(trail[..k - 1] + rs[|ss|].frames, rs[|ss|].store)
    {
      us, ss, rs := PrepareValues(q, k);
    }

    // The switch proper, from a living space to another.
    method InstallPrepared(b: Board, ghost p: seq<Board>, ghost q: seq<Board>, ghost k: nat, ghost us: seq<Undone>,
                           ghost ss: seq<seq<Eq>>, ghost rs: seq<Installed>) returns (ok: bool)
      requires Placed() && Active(b) && NoMarks() && Prepared(b, p, q, k, us, ss, rs)
      requires p == Path(tree, current) && q == Path(tree, b) && k == Common(p, q)
      modifies `current, `trail, `store, Boards`mark, Boards`script, Boards`failed
      ensures Placed() && NoMarks()
      ensures Switched(p, q, k, old(trail), us[k - 1], rs[|ss|], old(ScriptMap()), old(FlagMap()), ok)
    {
      ghost var scripts, fails := ScriptMap(), FlagMap();
      MarkPath(current);
      var ancestor := FindAncestor(b, current);
      assert ScriptMap() == scripts && FlagMap() == fails;
      forall j: nat | j < |ss| ensures ScriptAt(q, k, ss, j) { assert old(ScriptAt(q, k, ss, j)); }
      ok := Switch(b, ancestor, p, q, k, us, ss, rs);
    }

    // A switch to a living space; u is what it undoes, r what the scripts on the way down come to.
    method InstallTold(b: Board, ghost p: seq<Board>, ghost q: seq<Board>, ghost k: nat, ghost u: Undone,
                       ghost r: Installed) returns (ok: bool)
      requires Valid() && Active(b) && NoMarks() && b != current && Alive(b)
      requires p == Path(tree, current) && q == Path(tree, b) && k == Common(p, q) && k > 0
      requires u == UndoneFrom(trail, store, k - 1) && r == Told(ScriptMap(), q, k, u.store)
      modifies `current, `trail, `store, Boards`mark, Boards`script, Boards`failed
      ensures Valid() && NoMarks() && Switched(p, q, k, old(trail), u, r, old(ScriptMap()), old(FlagMap()), ok)
    {
      ghost var us, ss, rs := Prepare(b, p, q, k);
      ok := InstallPrepared(b, p, q, k, us, ss, rs);
    }

    // The effect of a switch from the end of p to the end of q, computed from the state before it.
    ghost predicate Turned(p: seq<Board>, q: seq<Board>, T: seq<Frame>, S: Store, scripts: map<Board, seq<Eq>>,
                           fails: map<Board, bool>, ok: bool)
      reads this, Boards
    {
      var k := Common(p, q);
      && k > 0
      && var u := UndoneFrom(T, S, k - 1);
         Switched(p, q, k, T, u, Told(scripts, q, k, u.store), scripts, fails, ok)
    }

    // What a switch from the end of p to the end of q is for: S0 is the old store without the bindings of the spaces
    // left.  The scripts on the way down are satisfied up to the space where the switch ends, by a store that assumes
    // nothing else; it ends before the goal if and only if no store satisfies one script more.
    ghost predicate Achieved(q: seq<Board>, k: nat, m: nat, S0: Store, scripts: map<Board, seq<Eq>>, ok: bool)
      reads this
    {
      && k <= m <= |q| && m > 0 && current == q[m - 1] && (ok <==> m == |q|)
      && (ok <==> Solvable(S0, q, k, |q|, scripts)) && (m < |q| ==> !Solvable(S0, q, k, m + 1, scripts))
      && Extends(store, S0) && Solves(store, q, k, m, scripts)
      && forall s: map<Variable, Term> {:trigger Entails(s, S0)} ::
        Entails(s, S0) && Solves(s, q, k, m, scripts) ==> Entails(s, store)
    }

    ghost predicate Ended(q: seq<Board>, k: nat, S0: Store, scripts: map<Board, seq<Eq>>, ok: bool)
      reads this
    {
      exists m: nat :: Achieved(q, k, m, S0, scripts, ok)
    }

    ghost predicate Reached(p: seq<Board>, q: seq<Board>, T: seq<Frame>, S: Store, scripts: map<Board, seq<Eq>>,
                            ok: bool)
      reads this
    {
      Common(p, q) > 0 && Ended(q, Common(p, q), Remaining(T, S, Common(p, q) - 1), scripts, ok)
    }

    // What the switch says about the way down.
    lemma Arrives(p: seq<Board>, q: seq<Board>, k: nat, T: seq<Frame>, u: Undone, r: Installed,
                  scripts: map<Board, seq<Eq>>, fails: map<Board, bool>, ok: bool)
      requires Switched(p, q, k, T, u, r, scripts, fails, ok)
      ensures 0 < k <= |q| && k - 1 <= |T| && Arrived(q, k, |q| - k, r, ok)
    {
    }

    lemma Achieves(q: seq<Board>, k: nat, T: seq<Frame>, S: Store, scripts: map<Board, seq<Eq>>, ok: bool)
      requires 0 < k <= |q| && k - 1 <= |T| && WellTrailed(T, S) && forall i :: 0 <= i < |q| ==> q[i] in scripts
      requires Arrived(q, k, |q| - k, Told(scripts, q, k, UndoneFrom(T, S, k - 1).store), ok)
      ensures Ended(q, k, Remaining(T, S, k - 1), scripts, ok)
    {
      var S0 := Remaining(T, S, k - 1);
      RemainingWhole(T, S, k - 1);
      AchievedAt(q, k, S0, scripts, Told(scripts, q, k, S0), ok);
    }

    lemma AchievedAt(q: seq<Board>, k: nat, S0: Store, scripts: map<Board, seq<Eq>>, r: Installed, ok: bool)
      requires 0 < k <= |q| && r == Told(scripts, q, k, S0) && forall i :: 0 <= i < |q| ==> q[i] in scripts
      requires Arrived(q, k, |q| - k, r, ok)
      ensures Achieved(q, k, k + r.count, S0, scripts, ok)
    {
      AchievedBy(q, k, S0, scripts, r);
    }

    lemma ReachedBy(p: seq<Board>, q: seq<Board>, k: nat, T: seq<Frame>, S: Store, u: Undone, r: Installed,
                    scripts: map<Board, seq<Eq>>, fails: map<Board, bool>, ok: bool)
      requires Switched(p, q, k, T, u, r, scripts, fails, ok) && k == Common(p, q)
      requires k > 0 && u == UndoneFrom(T, S, k - 1) && r == Told(scripts, q, k, u.store)
      requires WellTrailed(T, S) && forall i :: 0 <= i < |q| ==> q[i] in scripts
      ensures Reached(p, q, T, S, scripts, ok)
    {
      Arrives(p, q, k, T, u, r, scripts, fails, ok);
      Achieves(q, k, T, S, scripts, ok);
    }

    method InstallLiving(b: Board) returns (ok: bool)
      requires Valid() && Active(b) && NoMarks() && b != current && Alive(b)
      modifies `current, `trail, `store, Boards`mark, Boards`script, Boards`failed
      ensures Valid() && NoMarks()
      ensures Turned(Path(tree, old(current)), Path(tree, b), old(trail), old(store), old(ScriptMap()), old(FlagMap()),
        ok)
      ensures Reached(Path(tree, old(current)), Path(tree, b), old(trail), old(store), old(ScriptMap()), ok)
    {
      ghost var p, q := Path(tree, current), Path(tree, b);
      ghost var k := Common(p, q);
      CommonPositive(tree, current, b);
      ghost var T, S, scripts, fails := trail, store, ScriptMap(), FlagMap();
      ghost var u := UndoneFrom(T, S, k - 1);
      ghost var r := Told(scripts, q, k, u.store);
      ok := InstallTold(b, p, q, k, u, r);
      assert Switched(p, q, k, T, u, r, scripts, fails, ok);
      assert Turned(p, q, T, S, scripts, fails, ok);
      PathOwned(b);
      ReachedBy(p, q, k, T, S, u, r, scripts, fails, ok);
    }

    // Make b the current space.  If it is not alive nothing happens; if a script fails, the parent
    // of the space whose script failed becomes current.
    method Install(b: Board) returns (ok: bool)
      requires Valid() && Active(b) && NoMarks()
      modifies `current, `trail, `store, Boards`mark, Boards`script, Boards`failed
      ensures Valid() && NoMarks()
      ensures b == old(current) || !old(Alive(b)) ==>
        && ok == (b == old(current)) && current == old(current) && trail == old(trail) && store == old(store)
        && ScriptMap() == old(ScriptMap()) && FlagMap() == old(FlagMap())
      ensures b != old(current) && old(Alive(b)) ==>
        && Turned(Path(tree, old(current)), Path(tree, b), old(trail), old(store), old(ScriptMap()), old(FlagMap()), ok)
        && Reached(Path(tree, old(current)), Path(tree, b), old(trail), old(store), old(ScriptMap()), ok)
    {
      if current == b { return true; }
      ghost var scripts, fails := ScriptMap(), FlagMap();
      var alive := IsAlive(b);
      assert ScriptMap() == scripts && FlagMap() == fails;
      if !alive { return false; }
      ok := InstallLiving(b);
    }

    // The spaces of p from index k on have kept the scripts that u gave them.
    lemma KeptScripts(p: seq<Board>, k: nat, h: nat, u: Undone)
      requires h + 1 == k <= |p| && |u.scripts| == |p| - k && Left(p, h, u) && forall i ::
        0 <= i < |p| ==> p[i] in Boards
      ensures Told(ScriptMap(), p, k, u.store) == Trail.Install(u.scripts, u.store)
    {
      forall j: nat | k <= j < |p| ensures p[j].script == u.scripts[j - k] { assert LeftAt(p, h, u, j); }
      assert ScriptsFrom(ScriptMap(), p, k) == u.scripts;
    }

    // When all scripts succeed, the new trail and store are known.
    method InstallWhole(b: Board, ghost p: seq<Board>, ghost q: seq<Board>, ghost k: nat, ghost u: Undone,
                        ghost r: Installed) returns (ok: bool)
      requires Valid() && Active(b) && NoMarks() && b != current && Alive(b)
      requires p == Path(tree, current) && q == Path(tree, b) && k == Common(p, q) && 0 < k <= |trail| + 1
      requires u == UndoneFrom(trail, store, k - 1) && r == Told(ScriptMap(), q, k, u.store) && k + r.count == |q|
      modifies `current, `trail, `store, Boards`mark, Boards`script, Boards`failed
      ensures Valid() && NoMarks() && ok && current == b && trail == old(trail)[..k - 1] + r.frames && store == r.store
      ensures FlagMap() == old(FlagMap())
    {
      ghost var fails := FlagMap();
      ok := InstallTold(b, p, q, k, u, r);
      forall c | c in Boards ensures c.failed == fails[c] { assert FlagAt(fails, c); }
    }

    // A switch to b that ends in q[m - 1].
    ghost predicate Out(q: seq<Board>, k: nat, m: nat, fails: map<Board, bool>, ok: bool)
      reads this, Boards`failed
    {
      && k <= m <= |q| && m > 0 && current == q[m - 1]
      && (if ok then m == |q| && Flags(fails, {}) else m < |q| && q[m] in Boards && q[m].failed && Flags(fails, {q[m]}))
    }

    // Where the switch ends, its path leads back to the same common ancestor.
    lemma CutPath(b: Board, frm: Board, p: seq<Board>, q: seq<Board>, k: nat, m: nat)
      requires tree.Valid() && tree.Has(b) && tree.Has(frm) && p == Path(tree, frm) && q == Path(tree, b)
        && k == Common(p, q) && k <= m <= |q| && m > 0
      ensures tree.Has(q[m - 1]) && Path(tree, q[m - 1]) == q[..m] && Common(q[..m], p) == k
    {
      PathPrefix(tree, b, m - 1);
      CommonCut(q, p, k, m);
    }

    // The spaces of the other path are as alive as before.
    lemma StillAlive(b: Board, frm: Board, p: seq<Board>, q: seq<Board>, k: nat, m: nat, fails: map<Board, bool>,
                     ok: bool)
      requires tree.Valid() && tree.Has(b) && tree.Has(frm) && p == Path(tree, frm) && q == Path(tree, b)
        && k == Common(p, q) && Out(q, k, m, fails, ok)
      requires fails.Keys == Boards
      requires Living(frm, fails)
      ensures Alive(frm)
      ensures Flagged(p, q, fails, FlagMap(), ok)
    {
      if !ok { FailedAside(tree, frm, b, m); }
      forall c | c in Boards && (ok || c != q[m]) ensures c in fails
        && c.failed == fails[c] { assert FlagAt(fails, c); }
      assert FlagMap() == if ok then fails else fails[q[m] := true];
      forall c | c in Above(tree, frm) && c in Boards && c != tree.root ensures !c.failed { assert FlagAt(fails, c); }
    }

    // The switch out, and what the way back needs to know.
    method SwitchOut(b: Board, ghost p: seq<Board>, ghost q: seq<Board>, ghost k: nat, ghost u: Undone,
                     ghost r: Installed) returns (ok: bool)
      requires Valid() && Active(b) && NoMarks() && b != current && Alive(b)
      requires p == Path(tree, current) && q == Path(tree, b) && k == Common(p, q) && 0 < k <= |trail| + 1
      requires u == UndoneFrom(trail, store, k - 1) && r == Told(ScriptMap(), q, k, u.store)
      modifies `current, `trail, `store, Boards`mark, Boards`script, Boards`failed
      ensures 0 < k <= |p| == |old(trail)| + 1 && Valid() && NoMarks() && Out(q, k, k + r.count, old(FlagMap()), ok)
        && Left(p, k - 1, u)
      ensures trail == old(trail)[..k - 1] + r.frames && store == r.store
    {
      ok := InstallTold(b, p, q, k, u, r);
    }

    // Out of a living space to another one, and back.
    method OutAndBack(b: Board) returns (ok: bool, back: bool)
      requires Valid() && Active(b) && NoMarks() && Alive(current) && Alive(b) && b != current
      modifies `current, `trail, `store, Boards`mark, Boards`script, Boards`failed
      ensures Valid() && NoMarks() && back && current == old(current) && trail == old(trail) && store == old(store)
      ensures Flagged(Path(tree, old(current)), Path(tree, b), old(FlagMap()), FlagMap(), ok)
    {
      ghost var p, q := Path(tree, current), Path(tree, b);
      ghost var k := Common(p, q);
      ghost var u, r, r' := RoundTrip(b, p, q, k);
      ghost var T, fails := trail, FlagMap();
      var frm := current;
      LivingNow(frm, fails);
      assert k <= |p| == |trail| + 1;
      ok := SwitchOut(b, p, q, k, u, r);
      back := GoBack(b, frm, p, q, k, u, r, r', T, old(store), fails, ok);
    }

    // The way back after a switch from the end of p towards b, at the end of q.
    method GoBack(ghost b: Board, frm: Board, ghost p: seq<Board>, ghost q: seq<Board>, ghost k: nat, ghost u: Undone,
                  ghost r: Installed, ghost r': Installed, ghost T: seq<Frame>, ghost S: Store,
                  ghost fails: map<Board, bool>, ghost ok: bool) returns (back: bool)
      requires Valid() && NoMarks() && Active(frm) && Active(b) && p == Path(tree, frm) && q == Path(tree, b)
        && k == Common(p, q)
      requires Returns(p, k, T, S, u, r, r') && trail == T[..k - 1] + r.frames && store == r.store && Left(p, k - 1, u)
      requires Living(frm, fails) && fails.Keys == Boards && Out(q, k, k + r.count, fails, ok)
      modifies `current, `trail, `store, Boards`mark, Boards`script, Boards`failed
      ensures Valid() && NoMarks() && back && current == frm && trail == T && store == S
        && Flagged(p, q, fails, FlagMap(), ok)
    {
      ghost var m := k + r.count;
      BackReady(b, frm, p, q, k, m, fails, ok);
      UndoneAgain(p, k, T, S, u, r, r');
      back := WayBack(frm, p, q[..m], k, u, r');
    }

    lemma BackReady(b: Board, frm: Board, p: seq<Board>, q: seq<Board>, k: nat, m: nat, fails: map<Board, bool>,
                    ok: bool)
      requires Valid() && Active(frm) && Active(b) && p == Path(tree, frm) && q == Path(tree, b) && k == Common(p, q)
      requires Living(frm, fails) && fails.Keys == Boards && Out(q, k, m, fails, ok)
      ensures q[..m] == Path(tree, current) && k == Common(q[..m], p) && Alive(frm)
      ensures Flagged(p, q, fails, FlagMap(), ok) && forall i :: 0 <= i < |p| ==> p[i] in Boards
    {
      CutPath(b, frm, p, q, k, m);
      StillAlive(b, frm, p, q, k, m, fails, ok);
      PathOwned(frm);
    }

    // What the way out has done is undone by the way back.
    lemma UndoneAgain(p: seq<Board>, k: nat, T: seq<Frame>, S: Store, u: Undone, r: Installed, r': Installed)
      requires Returns(p, k, T, S, u, r, r') && trail == T[..k - 1] + r.frames && store == r.store
      ensures UndoneFrom(trail, store, k - 1).store == u.store && k <= |trail| + 1
      ensures trail[..k - 1] + r'.frames == T && r'.store == S
    {
    }


    // Nothing is left to be told when we are back already.
    lemma AlreadyBack(p: seq<Board>, k: nat, u: Undone, r: Installed)
      requires Valid() && p == Path(tree, current) && k == Common(p, p) && 0 < k <= |trail| + 1
        && |u.scripts| == |p| - k
      requires UndoneFrom(trail, store, k - 1).store == u.store && Trail.Install(u.scripts, u.store) == r
      ensures trail == trail[..k - 1] + r.frames && store == r.store
    {
      CommonIs(p, p, |p|);
      PathLength(tree, current);
      assert trail[k - 1..] == [];
    }

    // fails says of no space from b up to the root that it has failed.
    ghost predicate Living(b: Board, fails: map<Board, bool>)
      requires tree.Valid() && tree.Has(b)
      reads this
    {
      forall c {:trigger c in fails} :: c in Above(tree, b) && c in Boards && c != tree.root ==> c in fails && !fails[c]
    }

    lemma LivingNow(b: Board, fails: map<Board, bool>)
      requires tree.Valid() && tree.Has(b) && Alive(b) && fails == FlagMap()
      ensures Living(b, fails)
    {
    }

    // The way back from the end of q to the end of p, which may be where we are.
    method WayBack(frm: Board, ghost p: seq<Board>, ghost q: seq<Board>, ghost k: nat, ghost u: Undone,
                   ghost r: Installed) returns (back: bool)
      requires Valid() && NoMarks() && Active(frm) && Alive(frm)
      requires p == Path(tree, frm) && q == Path(tree, current) && k == Common(q, p) && 0 < k <= |p| && k <= |trail| + 1
        && |u.scripts| == |p| - k
      requires forall i :: 0 <= i < |p| ==> p[i] in Boards
      requires Left(p, k - 1, u)
      requires UndoneFrom(trail, store, k - 1).store == u.store
      requires Trail.Install(u.scripts, u.store) == r && r.count == |p| - k
      modifies `current, `trail, `store, Boards`mark, Boards`script, Boards`failed
      ensures Valid() && NoMarks() && back && current == frm && trail == old(trail)[..k - 1] + r.frames
        && store == r.store
      ensures FlagMap() == old(FlagMap())
    {
      if current == frm {
        AlreadyBack(p, k, u, r);
        return true;
      }
      KeptScripts(p, k, k - 1, u);
      back := InstallWhole(frm, q, p, k, UndoneFrom(trail, store, k - 1), r);
    }

    // Switching to another space and back restores the current space, the trail and the store, whether
    // or not the way out succeeds.
    method SwitchAndReturn(b: Board) returns (ok: bool, back: bool)
      requires Valid() && Active(b) && NoMarks() && Alive(current)
      modifies `current, `trail, `store, Boards`mark, Boards`script, Boards`failed
      ensures Valid() && NoMarks() && back && current == old(current) && trail == old(trail) && store == old(store)
      ensures Flagged(Path(tree, old(current)), Path(tree, b), old(FlagMap()), FlagMap(), ok || !old(Alive(b)))
    {
      ghost var fails := FlagMap();
      forall c | c in Boards ensures FlagAt(fails, c) {}
      if b == current { return true, true; }
      var alive := IsAlive(b);
      if !alive { return false, true; }
      ok, back := OutAndBack(b);
    }

    // r' is what installing p again, after r was installed in its place, comes to.
    ghost predicate Returns(p: seq<Board>, k: nat, T: seq<Frame>, S: Store, u: Undone, r: Installed, r': Installed)
      reads `Boards
    {
      && 0 < k <= |p| == |T| + 1 && (forall i :: 0 <= i < |p| ==> p[i] in Boards)
      && |u.scripts| == |p| - k && Trail.Install(u.scripts, u.store) == r' && r'.count == |p| - k && r'.store == S
      && UndoneFrom(T[..k - 1] + r.frames, r.store, k - 1).store == u.store
      && (T[..k - 1] + r.frames)[..k - 1] + r'.frames == T
    }

    lemma RoundTrip(b: Board, p: seq<Board>, q: seq<Board>, k: nat) returns (u: Undone, r: Installed, r': Installed)
      requires Valid() && Active(b) && p == Path(tree, current) && q == Path(tree, b) && k == Common(p, q)
      ensures k == Common(q, p) && 0 < k <= |p| == |trail| + 1
      ensures u == UndoneFrom(trail, store, k - 1) && r == Told(ScriptMap(), q, k, u.store)
        && Returns(p, k, trail, store, u, r, r')
    {
      RoundPaths(b, p, q, k);
      u, r, r' := RoundScripts(p, k, ToldScripts(ScriptMap(), q, k));
    }

    lemma RoundPaths(b: Board, p: seq<Board>, q: seq<Board>, k: nat)
      requires Valid() && Active(b) && p == Path(tree, current) && q == Path(tree, b) && k == Common(p, q)
      ensures k == Common(q, p) && 0 < k <= |p| == |trail| + 1 && forall i :: 0 <= i < |p| ==> p[i] in Boards
    {
      PreparePaths(b, p, q, k);
      PathOwned(current);
      CommonSymmetric(p, q);
    }

    lemma RoundScripts(p: seq<Board>, k: nat, ss: seq<seq<Eq>>) returns (u: Undone, r: Installed, r': Installed)
      requires WellTrailed(trail, store) && 0 < k <= |p| == |trail| + 1 && forall i :: 0 <= i < |p| ==> p[i] in Boards
      ensures u == UndoneFrom(trail, store, k - 1) && r == Trail.Install(ss, u.store)
      ensures Returns(p, k, trail, store, u, r, r')
    {
      u, r, r' := RoundValues(trail, store, k - 1, ss);
    }

    lemma PathOwned(b: Board)
      requires Valid() && Active(b)
      ensures forall i :: 0 <= i < |Path(tree, b)| ==> Path(tree, b)[i] in Boards
    {
      PathIsChain(tree, b);
      forall i | 0 <= i < |Path(tree, b)| ensures Path(tree, b)[i] in Boards { assert ChainAt(tree, Path(tree, b), i); }
    }
  }

  // The steps of undoing the frames from index h on and telling the scripts ss.
  lemma SwitchValues(T: seq<Frame>, S: Store, h: nat, ss: seq<seq<Eq>>) returns (us: seq<Undone>, rs: seq<Installed>)
    requires h <= |T| && WellTrailed(T, S)
    ensures Undoing(T, us) && us[|T|] == Undone([], S) && us[h] == UndoneFrom(T, S, h)
    ensures Progression(ss, rs) && rs[0] == Installed(0, [], us[h].store) && rs[|ss|] == Install(ss, us[h].store)
    ensures WellTrailed(T[..h] + rs[|ss|].frames, rs[|ss|].store)
  {
    us := AllUndone(T, S);
    assert WellTrailed(T[h..], S);
    rs := AllInstalled(ss, us[h].store);
    ThereAndBack(T, S, h, ss);
  }

  lemma RoundValues(T: seq<Frame>, S: Store, h: nat, ss: seq<seq<Eq>>) returns (u: Undone, r: Installed, r': Installed)
    requires h <= |T| && WellTrailed(T, S)
    ensures u == UndoneFrom(T, S, h) && r == Install(ss, u.store) && r' == Install(u.scripts, u.store)
    ensures |u.scripts| == r'.count == |T| - h && r'.store == S
      && UndoneFrom(T[..h] + r.frames, r.store, h).store == u.store
    ensures (T[..h] + r.frames)[..h] + r'.frames == T
  {
    ThereAndBack(T, S, h, ss);
    u := Unwind(T[h..], S);
    r := Install(ss, u.store);
    r' := Install(u.scripts, u.store);
  }

  lemma SameFront(p: seq<Board>, q: seq<Board>, k: nat, m: nat)
    requires m < k <= |p| && k <= |q| && p[..k] == q[..k]
    ensures p[m] == q[m]
  {
    assert p[m] == p[..k][m] && q[m] == q[..k][m];
  }

  // What makes a number the length of the longest common prefix.
  lemma CommonIs(p: seq<Board>, q: seq<Board>, k: nat)
    requires k <= |p| && k <= |q| && p[..k] == q[..k] && (k < |p| && k < |q| ==> p[k] != q[k])
    ensures Common(p, q) == k
  {
    var c := Common(p, q);
    if c < k { SameFront(p, q, k, c); }
    if k < c { SameFront(p, q, c, k); }
  }

  // Cutting a path behind the common prefix does not change the prefix.
  lemma CommonCut(q: seq<Board>, p: seq<Board>, k: nat, m: nat)
    requires k == Common(p, q) && k <= m <= |q|
    ensures Common(q[..m], p) == k
  {
    assert q[..m][..k] == q[..k];
    CommonIs(q[..m], p, k);
  }

  // A space below the common prefix is not on the other path.
  lemma FailedAside(t: Tree, b: Board, c: Board, i: nat)
    requires t.Valid() && t.Has(b) && t.Has(c) && Common(Path(t, b), Path(t, c)) <= i < |Path(t, c)|
    ensures Path(t, c)[i] !in Path(t, b) && Path(t, c)[i] !in Above(t, b)
  {
    SharedPrefix(t, b, c, i);
    if Path(t, c)[i] in Path(t, b) {
      var j :| 0 <= j < |Path(t, b)| && Path(t, b)[j] == Path(t, c)[i];
      PathPrefix(t, b, j);
    }
  }

  lemma {:induction false} CommonSymmetric(p: seq<Board>, q: seq<Board>)
    ensures Common(p, q) == Common(q, p)
  {
    if p != [] && q != [] && p[0] == q[0] { CommonSymmetric(p[1..], q[1..]); }
  }

  ghost function ScriptsFrom(scripts: map<Board, seq<Eq>>, q: seq<Board>, k: nat): seq<seq<Eq>>
    requires k <= |q| && forall i :: 0 <= i < |q| ==> q[i] in scripts
  {
    seq(|q| - k, j requires 0 <= j < |q| - k => scripts[q[k + j]])
  }

  // What undoing the frames from index i on gives.
  ghost function UndoneFrom(T: seq<Frame>, S: Store, i: nat): Undone {
    if i <= |T| && WellTrailed(T[i..], S) then Unwind(T[i..], S) else Undone([], S)
  }

  ghost function ToldScripts(scripts: map<Board, seq<Eq>>, q: seq<Board>, k: nat): seq<seq<Eq>> {
    if k <= |q| && forall i :: 0 <= i < |q| ==> q[i] in scripts then ScriptsFrom(scripts, q, k) else []
  }

  // The store satisfies the scripts of the spaces of q from index k up to m.
  ghost predicate Solves(s: map<Variable, Term>, q: seq<Board>, k: nat, m: nat, scripts: map<Board, seq<Eq>>) {
    forall i {:trigger q[i]} :: k <= i < m && i < |q| ==> q[i] in scripts && Satisfies(s, scripts[q[i]])
  }

  // Some store that extends s does.
  ghost predicate Solvable(s: Store, q: seq<Board>, k: nat, m: nat, scripts: map<Board, seq<Eq>>) {
    exists s': map<Variable, Term> {:trigger Extends(s', s)} ::
      Acyclic(s') && Extends(s', s) && Solves(s', q, k, m, scripts)
  }

  lemma SolvesIs(s: map<Variable, Term>, q: seq<Board>, k: nat, m: nat, scripts: map<Board, seq<Eq>>)
    requires k <= m <= |q| && forall i :: 0 <= i < |q| ==> q[i] in scripts
    ensures |ToldScripts(scripts, q, k)| == |q| - k
    ensures Solves(s, q, k, m, scripts) <==> SatisfiesAll(s, ToldScripts(scripts, q, k)[..m - k])
  {
    var ss := ToldScripts(scripts, q, k);
    if SatisfiesAll(s, ss[..m - k]) {
      forall i | k <= i < m ensures Satisfies(s, scripts[q[i]]) { assert ss[..m - k][i - k] == scripts[q[i]]; }
    }
    if Solves(s, q, k, m, scripts) {
      forall script | script in ss[..m - k] ensures Satisfies(s, script) {
        var i :| 0 <= i < m - k && ss[..m - k][i] == script;
        assert q[k + i] in scripts;
      }
    }
  }

  lemma SolvableIs(s: Store, q: seq<Board>, k: nat, m: nat, scripts: map<Board, seq<Eq>>)
    requires k <= m <= |q| && forall i :: 0 <= i < |q| ==> q[i] in scripts
    ensures |ToldScripts(scripts, q, k)| == |q| - k
    ensures Solvable(s, q, k, m, scripts) <==> Consistent(s, ToldScripts(scripts, q, k)[..m - k])
  {
    SolvesIs(s, q, k, m, scripts);
    forall s': map<Variable, Term> {:trigger Extends(s', s)}
      ensures Solves(s', q, k, m, scripts) <==> SatisfiesAll(s', ToldScripts(scripts, q, k)[..m - k])
    {
      SolvesIs(s', q, k, m, scripts);
    }
  }

  // How far the scripts of q can be told.
  lemma ToldFar(q: seq<Board>, k: nat, S0: Store, scripts: map<Board, seq<Eq>>, n: nat)
    requires k + n <= |q| && forall i :: 0 <= i < |q| ==> q[i] in scripts
    ensures var r := Told(scripts, q, k, S0);
      && r.count <= |q| - k && (n <= r.count <==> Solvable(S0, q, k, k + n, scripts))
      && (n <= r.count ==> Solves(r.store, q, k, k + n, scripts))
  {
    SolvableIs(S0, q, k, k + n, scripts);
    InstallExact(ToldScripts(scripts, q, k), S0, n);
    SolvesIs(Told(scripts, q, k, S0).store, q, k, k + n, scripts);
  }

  // The outcome assumes nothing that the scripts do not demand.
  lemma ToldLeast(q: seq<Board>, k: nat, S0: Store, scripts: map<Board, seq<Eq>>, s: map<Variable, Term>)
    requires k <= |q| && forall i :: 0 <= i < |q| ==> q[i] in scripts
    ensures var r := Told(scripts, q, k, S0);
      k + r.count <= |q| && (Entails(s, S0) && Solves(s, q, k, k + r.count, scripts) ==> Entails(s, r.store))
  {
    var r := Told(scripts, q, k, S0);
    SolvesIs(s, q, k, k, scripts);
    SolvesIs(s, q, k, k + r.count, scripts);
    InstallMeans(s, ToldScripts(scripts, q, k), S0);
  }

  lemma AchievedBy(q: seq<Board>, k: nat, S0: Store, scripts: map<Board, seq<Eq>>, r: Installed)
    requires 0 < k <= |q| && r == Told(scripts, q, k, S0) && forall i :: 0 <= i < |q| ==> q[i] in scripts
    ensures k + r.count <= |q| && (r.count == |q| - k <==> Solvable(S0, q, k, |q|, scripts))
    ensures k + r.count < |q| ==> !Solvable(S0, q, k, k + r.count + 1, scripts)
    ensures Extends(r.store, S0) && Solves(r.store, q, k, k + r.count, scripts)
    ensures forall s: map<Variable, Term> {:trigger Entails(s, S0)} ::
      Entails(s, S0) && Solves(s, q, k, k + r.count, scripts) ==> Entails(s, r.store)
  {
    InstallExtends(ToldScripts(scripts, q, k), S0);
    ToldFar(q, k, S0, scripts, |q| - k);
    ToldFar(q, k, S0, scripts, r.count);
    if k + r.count < |q| { ToldFar(q, k, S0, scripts, r.count + 1); }
    forall s: map<Variable, Term> {:trigger Entails(s, S0)}
      ensures Entails(s, S0) && Solves(s, q, k, k + r.count, scripts) ==> Entails(s, r.store)
    {
      ToldLeast(q, k, S0, scripts, s);
    }
  }

  // The store without the bindings of the frames from index h on.
  ghost function Remaining(T: seq<Frame>, S: Store, h: nat): Store {
    var s := map x | x in S && (forall i :: h <= i < |T| ==> x !in T[i]) :: S[x];
    AcyclicPart(S, s);
    s
  }

  lemma RemainingIs(T: seq<Frame>, S: Store, h: nat)
    requires h <= |T| && WellTrailed(T[h..], S)
    ensures Remaining(T, S, h) == UndoneFrom(T, S, h).store
  {
    UnwindStore(T[h..], S);
    forall x: Variable {:trigger x in S}
      ensures (forall i :: h <= i < |T| ==> x !in T[i]) <==> forall f :: f in T[h..] ==> x !in f
    {
      if forall f :: f in T[h..] ==> x !in f {
        forall i | h <= i < |T| ensures x !in T[i] { assert T[h..][i - h] == T[i]; }
      }
    }
  }

  lemma RemainingWhole(T: seq<Frame>, S: Store, h: nat)
    requires h <= |T| && WellTrailed(T, S)
    ensures Remaining(T, S, h) == UndoneFrom(T, S, h).store
  {
    assert T == T[..h] + T[h..];
    UnwindSplit(T[..h], T[h..], S);
    RemainingIs(T, S, h);
  }

  // What telling the scripts of q from index k on comes to.
  ghost function Told(scripts: map<Board, seq<Eq>>, q: seq<Board>, k: nat, store: Store): Installed {
    Install(ToldScripts(scripts, q, k), store)
  }

  lemma RangesDisjoint(t: Tree, b: Board, c: Board)
    requires t.Valid() && t.Has(b) && t.Has(c)
    ensures var p, q := Path(t, b), Path(t, c); var k := Common(p, q); Range(p, k, |p|) !! Range(q, k, |q|)
  {
    var p, q := Path(t, b), Path(t, c);
    var k := Common(p, q);
    forall j | k <= j < |q| ensures q[j] !in Above(t, b) { SharedPrefix(t, b, c, j); }
    forall i | k <= i < |p| ensures p[i] in Above(t, b) { PathPrefix(t, b, i); }
  }

  // After a switch from the end of p to the end of q the failure flags are the same, or, if a script
  // has failed, one more space has failed, which is on the way down to the end of q and not on p.
  ghost predicate Flagged(p: seq<Board>, q: seq<Board>, fails: map<Board, bool>, fails': map<Board, bool>, ok: bool) {
    if ok then fails' == fails
    else exists i {:trigger q[i]} :: Common(p, q) <= i < |q| && q[i] !in p && q[i] in fails && fails' == fails[q[i] :=
      true]
  }

  // The outcome after one more script.
  ghost function NextInstalled(r: Installed, i: nat, s: seq<Eq>): Installed {
    if r.count < i then r
    else var q := Replay(s, r.store, []);
      if q.ok then Installed(r.count + 1, r.frames + [q.frame], q.store) else r
  }

  ghost predicate NextAt(ss: seq<seq<Eq>>, rs: seq<Installed>, i: nat) {
    i < |ss| && i + 1 < |rs| && rs[i + 1] == NextInstalled(rs[i], i, ss[i])
  }

  // rs[i] is the outcome of installing the first i scripts.
  ghost predicate Progression(ss: seq<seq<Eq>>, rs: seq<Installed>) {
    |rs| == |ss| + 1 && forall i: nat {:trigger NextAt(ss, rs, i)} :: i < |ss| ==> NextAt(ss, rs, i)
  }

  lemma AllInstalled(ss: seq<seq<Eq>>, S: Store) returns (rs: seq<Installed>)
    ensures Progression(ss, rs) && rs[0] == Installed(0, [], S) && rs[|ss|] == Install(ss, S)
  {
    rs := seq(|ss| + 1, i requires 0 <= i <= |ss| => Install(ss[..i], S));
    forall i: nat | i < |ss| ensures NextAt(ss, rs, i) {
      assert ss[..i + 1] == ss[..i] + [ss[i]];
      InstallAppend(ss[..i], ss[i], S);
    }
    assert ss[..|ss|] == ss;
  }

  // The members of p with index from k up to m.
  ghost function Range(p: seq<Board>, k: nat, m: nat): set<Board>
    requires m <= |p|
  {
    set j | k <= j < m :: p[j]
  }

  // The spaces of p whose scripts have been told: those installed, and the one that failed.
  ghost function Tried(p: seq<Board>, k: nat, r: Installed, ok: bool): set<Board> {
    set j | k <= j < k + r.count + (if ok then 0 else 1) && j < |p| :: p[j]
  }

  lemma TriedInRange(p: seq<Board>, k: nat, r: Installed, ok: bool)
    ensures Tried(p, k, r, ok) <= Range(p, k, |p|)
  {
  }

  // The space that is next has not been tried.
  lemma NotTried(t: Tree, p: seq<Board>, k: nat, r: Installed)
    requires t.Valid() && Chain(t, p) && k + r.count < |p|
    ensures p[k + r.count] !in Tried(p, k, r, true)
  {
    assert ChainAt(t, p, k + r.count);
    forall j | k <= j < k + r.count ensures p[j] != p[k + r.count] { assert ChainAt(t, p, j); }
  }

  lemma RangeStep(p: seq<Board>, i: nat)
    requires i < |p|
    ensures Range(p, i, |p|) == Range(p, i + 1, |p|) + {p[i]}
  {
  }

  lemma ChainUnique(t: Tree, p: seq<Board>, i: nat, j: nat)
    requires t.Valid() && Chain(t, p) && i < |p| && j < |p| && p[i] == p[j]
    ensures i == j
  {
    assert ChainAt(t, p, i) && ChainAt(t, p, j);
  }

  // us[i - 1] is us[i] with frame i - 1 undone as well.
  ghost predicate UndoneAt(T: seq<Frame>, us: seq<Undone>, i: int) {
    && 0 < i <= |T| && i < |us| && Bound(T[i - 1], us[i].store)
    && us[i - 1] == Undone([ScriptOf(T[i - 1], us[i].store)] + us[i].scripts, Unbound(T[i - 1], us[i].store))
  }

  ghost predicate Undoing(T: seq<Frame>, us: seq<Undone>) {
    |us| == |T| + 1 && forall i {:trigger UndoneAt(T, us, i)} :: 0 < i <= |T| ==> UndoneAt(T, us, i)
  }

  lemma AllUndone(T: seq<Frame>, S: Store) returns (us: seq<Undone>)
    requires WellTrailed(T, S)
    ensures Undoing(T, us) && us[|T|] == Undone([], S)
    ensures forall i {:trigger T[i..]} :: 0 <= i <= |T| ==> WellTrailed(T[i..], S) && us[i] == Unwind(T[i..], S)
  {
    forall i | 0 <= i <= |T| ensures WellTrailed(T[i..], S) {
      if i > 0 { PeelFrame(T, S, i); } else { assert T[0..] == T; }
    }
    us := seq(|T| + 1, i requires 0 <= i <= |T| => Unwind(T[i..], S));
    assert T[|T|..] == [];
    forall i | 0 < i <= |T| ensures UndoneAt(T, us, i) { PeelFrame(T, S, i); }
  }

  // Undoing one frame more.
  lemma PeelFrame(T: seq<Frame>, S: Store, i: nat)
    requires 0 < i <= |T| && WellTrailed(T, S)
    ensures WellTrailed(T[i - 1..], S) && WellTrailed(T[i..], S)
    ensures T[..i][|T[..i]| - 1] == T[i - 1] && T[..i][..|T[..i]| - 1] == T[..i - 1]
    ensures var u := Unwind(T[i..], S);
      && Bound(T[i - 1], u.store)
      && Unwind(T[i - 1..], S) == Undone([ScriptOf(T[i - 1], u.store)] + u.scripts, Unbound(T[i - 1], u.store))
  {
    assert T == T[..i - 1] + T[i - 1..];
    UnwindSplit(T[..i - 1], T[i - 1..], S);
    assert T[i - 1..] == [T[i - 1]] + T[i..];
    UnwindFront(T[i - 1], T[i..], S);
  }
}

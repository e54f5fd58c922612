// What becomes of a collection that comes to a pair copied twice: the second copy stays on the work stack until it is
// visited, its tail is never filled, and the machine never drains the stack.
module LostCollection {
  import opened CollectorHeap
  import opened CollectorGraph
  import opened CollectorMachine
  import opened Runs

  // A forward mark names a to-space cell, but not c.
  ghost predicate Forwards(w: Word, base: nat, next: nat, c: nat) {
    match w
    case Mark(r) => base <= r.cell < next && r.cell != c
    case Moved(c') => base <= c' < next && c' != c
    case _ => true
  }

  // The to-space cell c is the copy of no cell, and at most its first slot is filled.
  ghost predicate Unfilled(m: Memory, base: nat, c: nat) {
    && base <= c < m.next
    && (forall s :: s in m.from ==> s.cell < base && Forwards(m.from[s], base, m.next, c))
    && (forall s :: s in m.to ==> Forwards(m.to[s], base, m.next, c) && (s.cell == c ==> s.idx == 0))
  }

  // Its first slot holds the head that was saved there, or a mark.
  ghost predicate Headed(m: Memory, base: nat, c: nat) {
    && Unfilled(m, base, c) && Slot(c, 0) in m.to
    && (m.to[Slot(c, 0)].LTuple? || m.to[Slot(c, 0)].Ref? || m.to[Slot(c, 0)].Mark?)
  }

  // A slot of a copy that is being filled.
  ghost predicate Open(t: Slot, m: Memory, base: nat, c: nat) { base <= t.cell < m.next && t.cell != c }

  lemma FillUnfilled(m: Memory, t: Slot, w: Word, base: nat, c: nat)
    requires Unfilled(m, base, c) && t.cell != c && Forwards(w, base, m.next, c)
    ensures Unfilled(m.Fill(t, w), base, c)
  {
  }

  lemma OverwriteUnfilled(m: Memory, s: Slot, w: Word, base: nat, c: nat)
    requires Unfilled(m, base, c) && (m.Written(s) || s.cell != c) && Forwards(w, base, m.next, c)
    ensures Unfilled(m.Overwrite(s, w), base, c)
  {
  }

  lemma GrowUnfilled(m: Memory, next: nat, base: nat, c: nat)
    requires Unfilled(m, base, c) && next >= m.next
    ensures Unfilled(m.(next := next), base, c)
  {
  }

  lemma ReadForwards(m: Memory, s: Slot, base: nat, c: nat)
    requires Unfilled(m, base, c) && m.Written(s)
    ensures Forwards(m.Read(s), base, m.next, c) && (s.cell == c ==> s.idx == 0)
  {
  }

  lemma AllocatedUnfilled(m: Memory, h: Slot, mark: Word, e: Entry, base: nat, c: nat)
    requires Unfilled(m, base, c) && m.Written(h) && (mark == Mark(Slot(m.next, 0)) || mark == Moved(m.next))
    ensures Unfilled(Allocated(m, h, mark, e), base, c)
  {
    ReadForwards(m, h, base, c);
    var m1 := m.(next := m.next + 1, stack := m.stack + [e]);
    assert Unfilled(m1, base, c) by { GrowUnfilled(m, m.next + 1, base, c); }
    var m2 := m1.Fill(Slot(m.next, 0), m.Read(h));
    assert Unfilled(m2, base, c) by { FillUnfilled(m1, Slot(m.next, 0), m.Read(h), base, c); }
    OverwriteUnfilled(m2, h, mark, base, c);
    assert Allocated(m, h, mark, e) == m2.Overwrite(h, mark);
  }

  // What copying a word into a slot of a cell other than c keeps.
  ghost predicate CopyKeeps(m: Memory, f: Slot, m': Memory, base: nat, c: nat) {
    && Unfilled(m', base, c) && m'.next >= m.next && m.stack <= m'.stack
    && (Headed(m, base, c) && f != Slot(c, 0) ==> Headed(m', base, c))
    && (forall s :: m.Written(s) ==> m'.Written(s))
  }

  lemma PairUnfilled(m: Memory, d: nat, f: Slot, t: Slot, base: nat, c: nat)
    requires Unfilled(m, base, c) && t.cell != c && m.Written(Slot(d, 0))
    ensures CopyKeeps(m, f, PairMarked(m, d).Fill(t, LTuple(PairTarget(m, d))), base, c)
  {
    var h := Slot(d, 0);
    ReadForwards(m, h, base, c);
    if !m.Read(h).Mark? { AllocatedUnfilled(m, h, Mark(Slot(m.next, 0)), PtrLTuple(d), base, c); }
    FillUnfilled(PairMarked(m, d), t, LTuple(PairTarget(m, d)), base, c);
  }

  lemma RecordUnfilled(m: Memory, d: nat, f: Slot, t: Slot, base: nat, c: nat)
    requires Unfilled(m, base, c) && t.cell != c && Header(m, d)
    ensures CopyKeeps(m, f, RecordMarked(m, d).Fill(t, SRecord(RecordTarget(m, d))), base, c)
  {
    var h := Slot(d, 0);
    ReadForwards(m, h, base, c);
    if !m.Read(h).Moved? { AllocatedUnfilled(m, h, Moved(m.next), PtrSRecord(d), base, c); }
    FillKeeps(m, RecordMarked(m, d), f, t, SRecord(RecordTarget(m, d)), base, c);
  }

  lemma FillKeeps(m: Memory, m1: Memory, f: Slot, t: Slot, w: Word, base: nat, c: nat)
    requires CopyKeeps(m, f, m1, base, c) && t.cell != c && Forwards(w, base, m1.next, c)
    ensures CopyKeeps(m, f, m1.Fill(t, w), base, c)
  {
    FillUnfilled(m1, t, w, base, c);
  }

  lemma OptVarUnfilled(m: Memory, f: Slot, t: Slot, z: Slot, base: nat, c: nat)
    requires Unfilled(m, base, c) && Open(t, m, base, c) && m.Written(z) && m.Read(z).OptVar?
    ensures CopyKeeps(m, f, OptVarCopied(m, f, t, z, m.Read(z).board, m.Read(z).copied), base, c)
  {
    ReadForwards(m, z, base, c);
    var w := OptVar(m.Read(z).board, true);
    FillUnfilled(m, t, if z == f then w else Ref(z), base, c);
    if z == f { OverwriteUnfilled(m.Fill(t, w), f, Forward(t), base, c); }
  }

  lemma VarUnfilled(m: Memory, f: Slot, t: Slot, z: Slot, body: nat, base: nat, c: nat)
    requires Unfilled(m, base, c) && Open(t, m, base, c)
    ensures CopyKeeps(m, f, VarCopied(m, f, t, z, body), base, c)
  {
    if body in m.bodies {
      FillUnfilled(m, t, Ref(m.bodies[body]), base, c);
    } else if z == f {
      FillUnfilled(m, t, Var(body, true), base, c);
    } else {
      VarAllocated(m, t, body, base, c);
      assert VarCopied(m, f, t, z, body) ==
             Grown(m, body).Fill(Slot(m.next, 0), Var(body, true)).Fill(t, Ref(Slot(m.next, 0)));
    }
  }

  ghost function Grown(m: Memory, body: nat): Memory {
    m.(next := m.next + 1, bodies := m.bodies[body := Slot(m.next, 0)])
  }

  lemma VarAllocated(m: Memory, t: Slot, body: nat, base: nat, c: nat)
    requires Unfilled(m, base, c) && t.cell != c
    ensures Unfilled(Grown(m, body).Fill(Slot(m.next, 0), Var(body, true)).Fill(t, Ref(Slot(m.next, 0))), base, c)
  {
    var p := Slot(m.next, 0);
    var m1 := Grown(m, body);
    assert Unfilled(m1, base, c);
    FillUnfilled(m1, p, Var(body, true), base, c);
    FillUnfilled(m1.Fill(p, Var(body, true)), t, Ref(p), base, c);
  }

  lemma WordUnfilled(m: Memory, f: Slot, t: Slot, z: Slot, base: nat, c: nat)
    requires Unfilled(m, base, c) && Open(t, m, base, c) && m.Written(z) && WordCopied(m, f, t, z).Now?
    ensures CopyKeeps(m, f, WordCopied(m, f, t, z).m, base, c)
  {
    match m.Read(z)
    case LTuple(d) => PairUnfilled(m, d, f, t, base, c);
    case SRecord(d) => RecordUnfilled(m, d, f, t, base, c);
    case OptVar(_, _) => OptVarUnfilled(m, f, t, z, base, c);
    case Var(body, _) => VarUnfilled(m, f, t, z, body, base, c);
    case Mark(r) => FillUnfilled(m, t, Ref(r), base, c);
    case Null => FillUnfilled(m, t, Null, base, c);
    case SmallInt(i) => FillUnfilled(m, t, SmallInt(i), base, c);
    case Atom(a) => FillUnfilled(m, t, Atom(a), base, c);
    case _ =>
  }

  lemma CopyUnfilled(m: Memory, f: Slot, t: Slot, m': Memory, base: nat, c: nat)
    requires Unfilled(m, base, c) && Open(t, m, base, c) && Copies(m, f, t, m')
    ensures CopyKeeps(m, f, m', base, c) && m.Written(f)
  {
    var n: nat, z :| Ends(m, f, n, z) && m.Written(z) && WordCopied(m, f, t, z) == Now(m');
    WordUnfilled(m, f, t, z, base, c);
  }

  // The machine is at no slot of c, and c waits on the stack; or it is at the tail of c.
  ghost predicate Lost(x: Config, base: nat, c: nat) {
    && Headed(x.m, base, c)
    && match x.at
       case Idle => PtrLTuple(c) in x.m.stack
       case Words(frm, to, _, _) => frm != c && Open(Slot(to, 0), x.m, base, c) && PtrLTuple(c) in x.m.stack
       case Tail(frm, to) => frm == c || (Open(Slot(to, 0), x.m, base, c) && PtrLTuple(c) in x.m.stack)
  }

  lemma StackKept(s: seq<Entry>, s': seq<Entry>, e: Entry)
    requires s <= s' && e in s
    ensures e in s'
  {
  }

  // Copying the head f of a pair into t and marking the pair.
  lemma MarkedLost(m: Memory, f: Slot, t: Slot, m': Memory, base: nat, c: nat)
    requires Unfilled(m, base, c) && (Headed(m, base, c) || f == Slot(c, 0)) && Open(t, m, base, c)
    requires MarksAfter(m, f, t, m')
    ensures Headed(m', base, c) && m'.next >= m.next && m.stack <= m'.stack
  {
    var m1 :| Copies(m, f, t, m1) && m' == m1.Overwrite(f, Mark(t));
    CopyUnfilled(m, f, t, m1, base, c);
    OverwriteUnfilled(m1, f, Mark(t), base, c);
  }

  lemma HeadLost(m: Memory, x: nat, x': nat, m': Memory, base: nat, c: nat)
    requires Headed(m, base, c) && HeadCopied(m, x, x', m') && Open(Slot(x', 0), m, base, c)
    ensures Headed(m', base, c) && m'.next >= m.next && m.stack <= m'.stack
  {
    var f, t := Slot(x, 0), Slot(x', 0);
    var n: nat, z :| Ends(m, t, n, z) && m.Written(z) && m.Written(t) &&
      (if m.Read(z) == LTuple(x) then m' == m.Fill(t, LTuple(x')) else MarksAfter(m.Overwrite(f, m.Read(t)), f, t, m'));
    if m.Read(z) == LTuple(x) {
      FillUnfilled(m, t, LTuple(x'), base, c);
    } else {
      RestoredLost(m, f, t, m', base, c);
    }
  }

  lemma RestoredLost(m: Memory, f: Slot, t: Slot, m': Memory, base: nat, c: nat)
    requires Headed(m, base, c) && Open(t, m, base, c) && f.idx == 0
    requires m.Written(t) && MarksAfter(m.Overwrite(f, m.Read(t)), f, t, m')
    ensures Headed(m', base, c) && m'.next >= m.next && m.stack <= m'.stack
  {
    ReadForwards(m, t, base, c);
    OverwriteUnfilled(m, f, m.Read(t), base, c);
    MarkedLost(m.Overwrite(f, m.Read(t)), f, t, m', base, c);
  }

  lemma PairLost(m: Memory, x': nat, d: nat, y: Config, base: nat, c: nat)
    requires Headed(m, base, c) && PairReached(m, x', d, y) && Open(Slot(x', 0), m, base, c) && PtrLTuple(c) in m.stack
    ensures Lost(y, base, c)
  {
    var m0 := m.Fill(Slot(x', 1), LTuple(m.next)).(next := m.next + 1);
    FillUnfilled(m, Slot(x', 1), LTuple(m.next), base, c);
    GrowUnfilled(m.Fill(Slot(x', 1), LTuple(m.next)), m.next + 1, base, c);
    MarkedLost(m0, Slot(d, 0), Slot(m.next, 0), y.m, base, c);
    StackKept(m.stack, y.m.stack, PtrLTuple(c));
  }

  lemma TailLost(m: Memory, x: nat, x': nat, z: Slot, y: Config, base: nat, c: nat)
    requires Headed(m, base, c) && m.Written(z) && TailCopied(m, x, x', z, y) && Open(Slot(x', 0), m, base, c)
    requires PtrLTuple(c) in m.stack
    ensures Lost(y, base, c)
  {
    if m.Read(z).LTuple? {
      var h := Slot(m.Read(z).cell, 0);
      if m.Read(h).Mark? {
        FillUnfilled(m, Slot(x', 1), LTuple(m.Read(h).slot.cell), base, c);
      } else {
        PairLost(m, x', m.Read(z).cell, y, base, c);
      }
    } else {
      CopyUnfilled(m, Slot(x, 1), Slot(x', 1), y.m, base, c);
      StackKept(m.stack, y.m.stack, PtrLTuple(c));
    }
  }

  lemma VisitLost(m: Memory, e: Entry, y: Config, base: nat, c: nat)
    requires Headed(m, base, c) && Visits(m, e, y) && (PtrLTuple(c) in m.stack || e == PtrLTuple(c))
    ensures Lost(y, base, c)
  {
    var h := Slot(e.cell, 0);
    ReadForwards(m, h, base, c);
    match e
    case PtrLTuple(x) =>
      HeadLost(m, x, m.Read(h).slot.cell, y.m, base, c);
      if x != c { StackKept(m.stack, y.m.stack, PtrLTuple(c)); }
    case PtrSRecord(x) =>
  }

  lemma StepLost(x: Config, y: Config, base: nat, c: nat)
    requires Lost(x, base, c) && Steps(x, y)
    ensures Lost(y, base, c)
  {
    match x.at
    case Idle =>
      var s := x.m.stack;
      assert s == s[..|s| - 1] + [s[|s| - 1]];
      VisitLost(Rest(x.m), s[|s| - 1], y, base, c);
    case Words(frm, to, i, hi) =>
      if i < hi {
        CopyUnfilled(x.m, Slot(frm, i), Slot(to, i), y.m, base, c);
        StackKept(x.m.stack, y.m.stack, PtrLTuple(c));
      }
    case Tail(frm, to) =>
      var n: nat, z :| Ends(x.m, Slot(frm, 1), n, z) && x.m.Written(z) && TailCopied(x.m, frm, to, z, y);
      TailLost(x.m, frm, to, z, y, base, c);
  }

  // ---------------------------------------------------------------- no copy

  // No to-space with the copy of the roots at root' is a copy of the heap.
  ghost predicate NoCopy(F: FromSpace, m: Memory, root': nat)
    requires F.Valid()
  {
    forall fwd, canon {:trigger Isomorphic(F, m.to, m.next, fwd, canon)} ::
      F.root in fwd && fwd[F.root] == root' ==> !Isomorphic(F, m.to, m.next, fwd, canon)
  }

  lemma ReachableShape(F: FromSpace, k: set<nat>, x: nat)
    requires F.Valid() && F.Reachable(k) && x in k
    ensures x in F.shape && (F.shape[x].Block? ==> x == F.root)
  {
    var live := set c | c in F.shape && (F.shape[c].Block? ==> c == F.root);
    forall s | F.Data(s) && s.cell in live
      ensures match F.Value(s) case LTuple(d) => d in live case SRecord(d) => d in live case _ => true
    {
      assert F.Good(F.Term(s));
    }
    assert F.Closed(live);
    assert k <= live;
  }

  // In a copy of the heap every cell but that of the roots has a second slot, or it holds a variable.
  lemma CellsFilled(F: FromSpace, to: map<Slot, Word>, next: nat, fwd: map<nat, nat>, canon: map<Slot, Slot>, c: nat)
    requires F.Valid() && Isomorphic(F, to, next, fwd, canon) && F.base <= c < next
    requires F.root in fwd && fwd[F.root] != c
    ensures Slot(c, 1) in to || exists t: Slot :: t.cell == c && t in to && (to[t].OptVar? || to[t].Var?)
  {
    assert Accounted(fwd, canon, c);
    if x :| x in fwd && fwd[x] == c {
      ReachableShape(F, fwd.Keys, x);
      assert F.Data(Slot(x, 1));
      assert SlotCopied(F, to, fwd, canon, Slot(x, 1));
    } else {
      var z: Slot :| z in canon && canon[z].cell == c;
      assert PlacedAt(F, to, canon, z);
    }
  }

  lemma UnfilledIsNoCopy(F: FromSpace, m: Memory, root': nat, c: nat)
    requires F.Valid() && Headed(m, F.base, c) && c != root'
    ensures NoCopy(F, m, root')
  {
    forall fwd: map<nat, nat>, canon: map<Slot, Slot> | F.root in fwd && fwd[F.root] == root'
      ensures !Isomorphic(F, m.to, m.next, fwd, canon) {
      if Isomorphic(F, m.to, m.next, fwd, canon) { CellsFilled(F, m.to, m.next, fwd, canon, c); }
    }
  }

  // ---------------------------------------------------------------- a pair copied twice is visited

  // Before the visit to a pair that was copied twice, its second copy holds nothing but the old head.
  lemma TwiceHeaded(F: FromSpace, st: State, open: set<nat>, work: set<Slot>, d: nat)
    requires F.Valid() && Inv(F, st, open, work) && d in st.twice
    ensures Headed(Raw(st), F.base, st.twice[d]) && !st.to[Slot(st.twice[d], 0)].Mark?
    ensures F.root in st.fwd && st.fwd[F.root] != st.twice[d]
  {
    Parts(F, st, open, work);
    var c := st.twice[d];
    assert TwiceAt(F, st, open, work, d);
    assert F.Good(Slot(d, 0));
    assert CellAt(F, st.fwd, st.owner, st.next, F.root);
    forall s | s in st.from ensures s.cell < F.base && Forwards(st.from[s], F.base, st.next, c) {
      assert FromAt(F, st.from, st.fwd, st.canon, open, s);
      assert F.Data(s) ==> F.Good(s);
      if s.cell in st.fwd { assert CellAt(F, st.fwd, st.owner, st.next, s.cell); }
      if s in st.canon {
        assert CanonAt(F, st.canon, st.src, st.to, st.done, s);
        assert SrcAt(F, st.fwd, st.src, st.canon, st.owner, st.next, st.canon[s]);
      }
    }
  }

  lemma FirstVisit(F: FromSpace, st: State, d: nat, y: Config)
    requires F.Valid() && Inv(F, st, {}, {}) && |st.stack| > 0 && st.stack[|st.stack| - 1] == PtrLTuple(d)
      && d in st.twice
    requires Steps(Config(Raw(st), Idle), y)
    ensures Lost(y, F.base, st.twice[d])
  {
    TwiceHeaded(F, st, {}, {}, d);
    MarkOfTwice(F, st, d);
    var m, b, c := Rest(Raw(st)), st.fwd[d], st.twice[d];
    var f, t := Slot(d, 0), Slot(b, 0);
    HeadOfTwice(m, d, b, c, y.m);
    HeadLost(m, d, b, y.m, F.base, c);
  }

  lemma MarkOfTwice(F: FromSpace, st: State, d: nat)
    requires F.Valid() && Inv(F, st, {}, {}) && d in st.twice
    ensures d in st.fwd && d < F.base <= st.fwd[d] < st.next && st.fwd[d] != st.twice[d]
    ensures Slot(d, 0) in st.from && st.from[Slot(d, 0)] == Mark(Slot(st.fwd[d], 0))
    ensures Slot(st.fwd[d], 0) in st.to && Slot(st.fwd[d], 0) !in st.from
    ensures st.to[Slot(st.fwd[d], 0)] == LTuple(st.twice[d]) && Slot(st.twice[d], 0) !in st.from
  {
    Parts(F, st, {}, {});
    assert TwiceAt(F, st, {}, {}, d);
    assert F.Data(Slot(d, 0)) && F.Good(Slot(d, 0));
    assert CellAt(F, st.fwd, st.owner, st.next, d);
    assert FromAt(F, st.from, st.fwd, st.canon, {}, Slot(d, 0));
    forall s: Slot | s in st.from ensures s.cell < F.base { assert F.Data(s) || F.Header(s); }
  }

  // The head of the first copy is copied once more: that marks the second copy and leaves it on the stack.
  lemma HeadOfTwice(m: Memory, d: nat, b: nat, c: nat, m': Memory)
    requires Slot(d, 0) in m.from && Slot(b, 0) !in m.from && Slot(b, 0) in m.to && m.to[Slot(b, 0)] == LTuple(c)
    requires Slot(c, 0) !in m.from && Slot(c, 0) in m.to && !m.to[Slot(c, 0)].Mark? && c != d
    requires HeadCopied(m, d, b, m')
    ensures PtrLTuple(c) in m'.stack
  {
    var f, t := Slot(d, 0), Slot(b, 0);
    var m0 := m.Overwrite(f, LTuple(c));
    assert Ends(m, t, 0, t) && Ends(m0, f, 0, f);
    forall n: nat, z | Ends(m, t, n, z) ensures z == t { EndsUnique(m, t, n, z, 0, t); }
    var m1 :| Copies(m0, f, t, m1) && m' == m1.Overwrite(f, Mark(t));
    var n: nat, z :| Ends(m0, f, n, z) && m0.Written(z) && WordCopied(m0, f, t, z) == Now(m1);
    EndsUnique(m0, f, n, z, 0, f);
    assert m1.stack == m.stack + [PtrLTuple(c)];
  }

  // From the visit to such a pair on the machine never drains the stack, and to-space is never a copy of the heap.
  lemma NeverFinished(F: FromSpace, st: State, d: nat, k: nat, y: Config)
    requires F.Valid() && Inv(F, st, {}, {}) && |st.stack| > 0 && st.stack[|st.stack| - 1] == PtrLTuple(d)
      && d in st.twice
    requires Reaches(Config(Raw(st), Idle), k, y)
    ensures !Finished(y) && F.root in st.fwd && NoCopy(F, y.m, st.fwd[F.root])
  {
    var x, c := Config(Raw(st), Idle), st.twice[d];
    TwiceHeaded(F, st, {}, {}, d);
    var lost := v => v == x || Lost(v, F.base, c);
    forall v, w | Steps(v, w) && lost(v) ensures lost(w) {
      if v == x { FirstVisit(F, st, d, w); } else { StepLost(v, w, F.base, c); }
    }
    RunKeeps(STEP, lost, x, k, y);
    UnfilledIsNoCopy(F, y.m, st.fwd[F.root], c);
  }

  // The collection of a heap with n roots begins when the block for their copies has been allocated.
  ghost function Begin(F: FromSpace, n: nat): Config {
    Config(Memory(F.words, map[], F.base + 1, [], [], map[]), Words(F.root, F.base, 0, n))
  }

  ghost predicate Completes(F: FromSpace, n: nat) {
    exists k: nat, y :: Reaches(Begin(F, n), k, y) && Finished(y)
  }

  // A collection that gets to a configuration from which the stack is never drained does not complete.
  lemma LostForever(F: FromSpace, n: nat, x: Config)
    requires Gets(Begin(F, n), x) && forall k: nat, y :: Reaches(x, k, y) ==> !Finished(y)
    ensures !Completes(F, n)
  {
    GetsReaches(Begin(F, n), x);
    var i: nat :| Reaches(Begin(F, n), i, x);
    forall k: nat, y | Reaches(Begin(F, n), k, y) ensures !Finished(y) { NeverLast(Begin(F, n), i, x, k, y); }
  }

  lemma NeverLast(x0: Config, i: nat, x: Config, k: nat, y: Config)
    requires Reaches(x0, i, x) && Reaches(x0, k, y) && forall n: nat, z :: Reaches(x, n, z) ==> !Finished(z)
    ensures !Finished(y)
  {
    forall v, w, w' | Steps(v, w) && Steps(v, w') ensures w == w' { StepUnique(v, w, w'); }
    forall n: nat, z | Run(STEP, x, n, z) ensures !Finished(z) { assert Reaches(x, n, z); }
    RunNever(STEP, v => Finished(v), x0, i, x, k, y);
  }
}

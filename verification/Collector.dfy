// The copying collector: marking a cell and leaving it on the work stack, copying one word,
// walking lists in place, draining the stack, and fixing the deferred variable references.
module Collector {
  import opened CollectorHeap
  import opened CollectorGraph
  import opened CollectorMachine
  import opened LostCollection

  // What the chain of from-space references starting in s ends with, in the present memory.
  ghost function Look(F: FromSpace, from: map<Slot, Word>, s: Slot): Word
    requires F.Valid() && F.Data(s)
    decreases if s in F.rank then F.rank[s] else 0
  {
    assert F.Good(s);
    if s !in from then Null
    else if from[s].Ref? && F.Data(from[s].slot) && from[s].slot in F.rank && F.rank[from[s].slot] < F.rank[s] then
      Look(F, from, from[s].slot)
    else
      from[s]
  }

  ghost function LookWord(F: FromSpace, from: map<Slot, Word>, w: Word): Word
    requires F.Valid()
  {
    if w.Ref? && F.Data(w.slot) then Look(F, from, w.slot) else w
  }

  lemma DataIsFromSpace(F: FromSpace, s: Slot)
    requires F.Valid()
    ensures F.Data(s) ==> s.cell < F.base && s in F.words && s in F.rank && F.Good(s)
  {
    if F.Data(s) { assert F.Good(s); }
  }

  // A chain that ends in a pair ends in the pair it ended in before the collection.
  lemma {:induction false} LookIsValue(F: FromSpace, st: State, open: set<nat>, s: Slot, d: nat)
    requires F.Valid() && FromOK(F, st.from, st.fwd, st.canon, open) && F.Data(s)
    requires CanonOK(F, st.canon, st.src, st.to, st.done) && CellsOK(F, st.fwd, st.src, st.canon, st.owner, st.next)
    requires Look(F, st.from, s) == LTuple(d)
    ensures F.Value(s) == LTuple(d)
    decreases if s in F.rank then F.rank[s] else 0
  {
    assert F.Good(s);
    assert FromAt(F, st.from, st.fwd, st.canon, open, s);
    MarkIsCopy(F, st, open, s);
    if F.words[s].Ref? && st.from[s] == F.words[s] {
      LookIsValue(F, st, open, F.words[s].slot, d);
    }
  }

  // A from-space data slot holds its old contents or a forward mark to a copy of itself.
  lemma MarkIsCopy(F: FromSpace, st: State, open: set<nat>, s: Slot)
    requires F.Valid() && FromOK(F, st.from, st.fwd, st.canon, open) && F.Data(s)
    requires CanonOK(F, st.canon, st.src, st.to, st.done) && CellsOK(F, st.fwd, st.src, st.canon, st.owner, st.next)
    ensures s in st.from && s in F.words
    ensures st.from[s] == F.words[s] || (st.from[s].Mark? && st.from[s].slot in st.src && st.src[st.from[s].slot] == s
      && st.from[s].slot.cell >= F.base)
         || (st.from[s].Ref? && !Aligned(st.from[s].slot) && s in st.canon && st.canon[s] == st.from[s].slot
           && F.words[s].OptVar?
             && st.from[s].slot in st.to && st.to[st.from[s].slot] == Copied(F.words[s])
             && st.from[s].slot.cell >= F.base)
  {
    assert F.Good(s);
    assert FromAt(F, st.from, st.fwd, st.canon, open, s);
    if s.cell in st.fwd {
      assert CopyAt(st.fwd, st.src, s);
      assert CellAt(F, st.fwd, st.owner, st.next, s.cell);
    }
    if s in st.canon {
      assert CanonAt(F, st.canon, st.src, st.to, st.done, s);
      assert SrcAt(F, st.fwd, st.src, st.canon, st.owner, st.next, st.canon[s]);
    }
  }

  // Writing a slot leaves the chains of lower rank alone.
  lemma {:induction false} LookFrame(F: FromSpace, from: map<Slot, Word>, s: Slot, h: Slot, w: Word)
    requires F.Valid() && F.Data(s) && F.Data(h) && s in F.rank && h in F.rank && F.rank[s] < F.rank[h]
    ensures Look(F, from[h := w], s) == Look(F, from, s)
    decreases F.rank[s]
  {
    assert F.Good(s);
    if s in from && from[s].Ref? && F.Data(from[s].slot) && from[s].slot in F.rank && F.rank[from[s].slot] < F.rank[s] {
      LookFrame(F, from, from[s].slot, h, w);
    }
  }

  // Where a dereference that started in s has stopped.
  ghost predicate Stopped(F: FromSpace, st: State, s: Slot, ptr: Slot, aux: Word)
    requires F.Valid() && F.Data(s)
  {
    var z := F.Term(s);
    || (ptr == z && aux == F.words[z])
    || (aux.Mark? && F.Data(ptr) && F.Term(ptr) == z && F.rank[ptr] < F.rank[s]
        && aux.slot in st.src && st.src[aux.slot] == ptr)
    || (aux == Copied(F.words[z]) && F.words[z].OptVar? && !Aligned(ptr) && ptr.cell >= F.base
        && z != s && z in st.canon && st.canon[z] == ptr)
  }

  // The word of an unfinished slot's original has not been overwritten, unless it is the head of
  // a marked pair.
  lemma UntouchedSlot(F: FromSpace, st: State, open: set<nat>, work: set<Slot>, t: Slot)
    requires F.Valid() && Inv(F, st, open, work) && t in st.src && t !in st.done
    requires var s := st.src[t]; s.cell in F.shape && (F.shape[s.cell].Pair? ==> s.idx == 1 || s.cell in open)
    ensures F.Data(st.src[t]) && st.src[t] in st.from && st.src[t] in F.words
    ensures st.from[st.src[t]] == F.words[st.src[t]]
  {
    Parts(F, st, open, work);
    UnfinishedSlot(F, st, t);
    assert F.Good(st.src[t]);
    assert FromAt(F, st.from, st.fwd, st.canon, open, st.src[t]);
  }

  // A pair found by a dereference can be copied: it is reachable.
  lemma FoundReachable(F: FromSpace, st: State, open: set<nat>, work: set<Slot>, t: Slot, d: nat)
    requires F.Valid() && Inv(F, st, open, work) && t in st.src && t !in st.done && F.Data(st.src[t])
    requires F.Value(st.src[t]) == LTuple(d) || F.Value(st.src[t]) == SRecord(d)
    ensures F.Reachable(st.fwd.Keys + {d}) && d in F.shape
    ensures F.Value(st.src[t]).LTuple? ==> F.shape[d].Pair?
    ensures F.Value(st.src[t]).SRecord? ==> F.shape[d].Rec?
  {
    Parts(F, st, open, work);
    UnfinishedSlot(F, st, t);
    ReachableGrows(F, st.fwd.Keys, st.src[t], d);
    assert F.Good(F.Term(st.src[t]));
  }

  // What is known of a slot that is being filled.
  lemma WorkSlot(F: FromSpace, st: State, open: set<nat>, work: set<Slot>, t: Slot)
    requires F.Valid() && Inv(F, st, open, work) && t in work
    ensures t in st.src && t !in st.done && t !in st.from && F.base <= t.cell < st.next && F.Data(st.src[t])
    ensures st.src[t].cell in st.fwd && t == Slot(st.fwd[st.src[t].cell], st.src[t].idx)
    ensures st.src[t] in F.words && (F.words[st.src[t]].OptVar? || F.words[st.src[t]].Var?) && st.src[t] in st.canon ==>
      F.words[st.src[t]].Var? && F.words[st.src[t]].body in st.bodies
  {
    Parts(F, st, open, work);
    UnfinishedSlot(F, st, t);
    assert SrcAt(F, st.fwd, st.src, st.canon, st.owner, st.next, t);
    assert F.Data(t) || F.Header(t) ==> t.cell < F.base;
    if st.src[t] in st.canon { assert VarAt(F, st.canon, st.fwd, st.bodies, st.src[t]); }
  }

  // The slot of a copied cell that holds the copy of s.
  lemma CopySlot(F: FromSpace, st: State, open: set<nat>, work: set<Slot>, s: Slot)
    requires F.Valid() && Inv(F, st, open, work) && F.Data(s) && s.cell in st.fwd
    ensures Slot(st.fwd[s.cell], s.idx) in st.src && st.src[Slot(st.fwd[s.cell], s.idx)] == s
    ensures F.base <= st.fwd[s.cell] < st.next
  {
    Parts(F, st, open, work);
    assert CopyAt(st.fwd, st.src, s) && CellAt(F, st.fwd, st.owner, st.next, s.cell);
  }

  // The next free cell has no slots yet.
  lemma FreeCell(F: FromSpace, st: State, open: set<nat>, work: set<Slot>)
    requires F.Valid() && Inv(F, st, open, work)
    ensures forall i: nat :: Slot(st.next, i) !in st.src && Slot(st.next, i) !in work && Slot(st.next, i) !in st.to
    ensures F.base <= st.next
  {
    Parts(F, st, open, work);
    NewCell(F, st);
  }

  ghost function Slots(c: nat, lo: nat, hi: nat): set<Slot> {
    set i: nat | lo <= i < hi :: Slot(c, i)
  }

  // Taking back the mark of c does not make c's head lead to c.
  lemma HeadAvoids(F: FromSpace, from: map<Slot, Word>, c: nat, saved: Word, aux: Word)
    requires F.Valid() && F.Data(Slot(c, 0)) && Slot(c, 0) in F.words && saved == F.words[Slot(c, 0)]
    requires aux != LTuple(c) && (if saved.Ref? then LookWord(F, from, saved).LTuple? ==> aux == LookWord(F, from,
      saved) else aux == saved)
    ensures Look(F, from[Slot(c, 0) := saved], Slot(c, 0)) != LTuple(c)
  {
    var h := Slot(c, 0);
    assert F.Good(h);
    if saved.Ref? {
      assert F.Good(saved.slot);
      LookFrame(F, from, saved.slot, h, saved);
    }
  }

  // A heap in which the tail of a reachable pair is its own head is unsafe.
  lemma TailSelfHeaded(F: FromSpace, fwd: map<nat, nat>, frm: nat, d: nat)
    requires F.Valid() && F.Reachable(fwd.Keys) && F.SelfHeaded(d)
    requires frm in fwd && frm in F.shape && F.shape[frm].Pair? && F.Data(Slot(frm, 1))
      && F.Value(Slot(frm, 1)) == LTuple(d)
    ensures Unsafe(F)
  {
    forall live | F.Closed(live) ensures !F.TailSafe(live) { assert fwd.Keys <= live; }
  }

  lemma Progress(F: FromSpace, a: State, b: State)
    requires F.Valid() && Grows(a, b) && Inv(F, b, {}, {})
    ensures F.shape.Keys - b.fwd.Keys < F.shape.Keys - a.fwd.Keys || (b.fwd.Keys == a.fwd.Keys && b.stack == a.stack)
  {
    Parts(F, b, {}, {});
    assert a.fwd.Keys <= b.fwd.Keys;
    forall c | c in b.fwd ensures c in F.shape { assert CellAt(F, b.fwd, b.owner, b.next, c); }
    if a.fwd.Keys != b.fwd.Keys {
      var c :| c in b.fwd.Keys && c !in a.fwd.Keys;
      assert c in F.shape.Keys - a.fwd.Keys;
    }
  }

  // The state in which the block for the copies of the roots has been allocated.
  ghost function Started(F: FromSpace): State
    requires F.Valid()
  {
    State(F.words, map[], F.base + 1, [], [], map[], map[F.root := F.base],
          AddSources(F.shape[F.root], F.root, F.base, map[]), map[], map[F.base := CopyOf(F.root)], {}, map[])
  }

  lemma RootAllocated(F: FromSpace)
    requires F.Valid()
    ensures Inv(F, Started(F), {}, NewSlots(F.shape[F.root], F.base))
  {
    RootConsistent(F);
    RootOutstanding(F);
  }

  lemma RootConsistent(F: FromSpace)
    requires F.Valid()
    ensures Consistent(F, Started(F), {})
  {
    var st := Started(F);
    forall t | t in st.src ensures SrcAt(F, st.fwd, st.src, st.canon, st.owner, st.next, t) {}
    forall s | F.Data(s) && s.cell in st.fwd ensures CopyAt(st.fwd, st.src, s) {
      assert IsData(F.shape[F.root], s.idx);
    }
    forall s | s in F.words ensures FromAt(F, st.from, st.fwd, st.canon, {}, s) {
      assert F.Data(s) || F.Header(s);
    }
    assert F.Reachable({F.root});
    assert st.fwd.Keys == {F.root};
  }

  lemma RootOutstanding(F: FromSpace)
    requires F.Valid()
    ensures Outstanding(F, Started(F), {}, NewSlots(F.shape[F.root], F.base))
  {
    var st := Started(F);
    var work := NewSlots(F.shape[F.root], F.base);
    forall t | t in st.src ensures t in work && CoveredAt(st.src, st.done, st.stack, work, t) {}
    forall t | t in work ensures t in st.src { assert IsData(F.shape[F.root], t.idx); assert t == Slot(F.base, t.idx); }
  }

  // A mark found at the end of a chain refers to a slot whose copies mean the same.
  lemma MarkedImage(F: FromSpace, st: State, s: Slot, ptr: Slot, aux: Word, t: Slot)
    requires F.Valid() && F.Data(s) && Stopped(F, st, s, ptr, aux) && aux.Mark?
    ensures Image(F, st, t, s, Ref(aux.slot))
  {
    assert F.Good(F.Term(s));
  }

  datatype Book = Book(fwd: map<nat, nat>, src: map<Slot, Slot>, canon: map<Slot, Slot>, owner: map<nat, Owner>,
    done: set<Slot>, twice: map<nat, nat>)

  // The state after the copy of d has been allocated and pushed.
  lemma Pushed(F: FromSpace, a: State, d: nat, mark: Word, e: Entry, open: set<nat>, work: set<Slot>) returns (b: State)
    requires F.Valid() && Inv(F, a, open, work) && Fresh(F, a, d) && d !in open
    requires || (F.shape[d].Pair? && mark == Mark(Slot(a.next, 0)) && e == PtrLTuple(d))
             || (F.shape[d].Rec? && mark == Moved(a.next) && e == PtrSRecord(d))
    ensures Slot(d, 0) in a.from
    ensures b == a.(from := a.from[Slot(d, 0) := mark], to := a.to[Slot(a.next, 0) := a.from[Slot(d, 0)]],
                    next := a.next + 1, stack := a.stack + [e], fwd := b.fwd, owner := b.owner, src := b.src)
    ensures Inv(F, b, open, work) && Grows(a, b)
    ensures d in b.fwd && b.fwd[d] == a.next
  {
    Parts(F, a, open, work);
    NewCell(F, a);
    var h := Slot(d, 0);
    assert F.Data(h) || F.Header(h);
    assert FromAt(F, a.from, a.fwd, a.canon, open, h);
    if h in a.canon { assert VarAt(F, a.canon, a.fwd, a.bodies, h); }
    b := a.(from := a.from[h := mark], to := a.to[Slot(a.next, 0) := a.from[h]], next := a.next + 1,
            stack := a.stack + [e], fwd := a.fwd[d := a.next], owner := a.owner[a.next := CopyOf(d)],
            src := AddSources(F.shape[d], d, a.next, a.src));
    PushStep(F, a, b, d, open, work, e);
  }

  // Whether a cell is copied can be read off its mark.
  lemma MarkTells(F: FromSpace, a: State, d: nat, open: set<nat>, work: set<Slot>)
    requires F.Valid() && Inv(F, a, open, work) && d in F.shape && !F.shape[d].Block? && d !in open
    ensures Slot(d, 0) in a.from
    ensures F.shape[d].Pair? ==> (a.from[Slot(d, 0)].Mark? <==> d in a.fwd)
    ensures F.shape[d].Pair? && d in a.fwd ==> a.from[Slot(d, 0)].slot.cell == a.fwd[d]
    ensures F.shape[d].Rec? ==> (a.from[Slot(d, 0)].Moved? <==> d in a.fwd)
    ensures F.shape[d].Rec? && d in a.fwd ==> a.from[Slot(d, 0)].cell == a.fwd[d]
    ensures F.shape[d].Rec? && d !in a.fwd ==> a.from[Slot(d, 0)] == Arity(F.shape[d].width)
  {
    Parts(F, a, open, work);
    var h := Slot(d, 0);
    assert F.Data(h) || F.Header(h);
    assert F.Data(h) ==> F.Good(h);
    assert FromAt(F, a.from, a.fwd, a.canon, open, h);
    if h in a.canon { assert VarAt(F, a.canon, a.fwd, a.bodies, h); }
  }

  // The tail walk copies the head of d before it marks d.  The head gets the right pointer exactly
  // when it does not lead to d itself: then a second copy of d is made.
  lemma TailHeadExact(F: FromSpace, st: State, d: nat, e: nat, work: set<Slot>)
    requires F.Valid() && Inv(F, st, {d}, work) && d in st.fwd && d in F.shape && F.shape[d].Pair?
    requires Slot(st.fwd[d], 0) in work && F.Data(Slot(d, 0)) && Look(F, st.from, Slot(d, 0)) == LTuple(e)
    ensures Slot(e, 0) in st.from
    ensures PairTarget(Raw(st), e) == (if e in st.fwd then st.fwd[e] else st.next) <==> e != d
  {
    Parts(F, st, {d}, work);
    LookIsValue(F, st, {d}, Slot(d, 0), e);
    assert F.Good(F.Term(Slot(d, 0)));
    assert F.Data(Slot(e, 0)) && F.Good(Slot(e, 0));
    assert CopyAt(st.fwd, st.src, Slot(d, 0));
    assert CellAt(F, st.fwd, st.owner, st.next, d);
    if e == d {
      UntouchedSlot(F, st, {d}, work, Slot(st.fwd[d], 0));
    } else {
      MarkTells(F, st, e, {d}, work);
    }
  }

  // A tail that refers to a copy b of a pair that is its own head, where the head of b refers to yet another cell, is
  // no copy.
  lemma SecondCopyBreaks(F: FromSpace, to: map<Slot, Word>, next: nat, fwd: map<nat, nat>, canon: map<Slot, Slot>,
                         c: nat, d: nat, b: nat, x: nat)
    requires F.Valid() && c in fwd && F.Data(Slot(c, 1)) && F.Value(Slot(c, 1)) == LTuple(d) && F.SelfHeaded(d)
    requires Slot(fwd[c], 1) in to && to[Slot(fwd[c], 1)] == LTuple(b)
    requires Slot(b, 0) in to && to[Slot(b, 0)] == LTuple(x) && x != b
    ensures !Isomorphic(F, to, next, fwd, canon)
  {
    if Isomorphic(F, to, next, fwd, canon) {
      MeaningIs(F, to, next, fwd, canon, Slot(c, 1), 0, Slot(fwd[c], 1));
      MeaningIs(F, to, next, fwd, canon, Slot(d, 0), 0, Slot(b, 0));
    }
  }

  // What the routines for variables do to memory.
  lemma OptVarRaw(a: State, b: State, f: Slot, t: Slot, z: Slot, board: nat, copied: bool)
    requires f in a.from && t !in a.from && b.next == a.next && b.stack == a.stack && b.bodies == a.bodies
    requires b.from == if z == f then a.from[f := Forward(t)] else a.from
    requires b.to == a.to[t := if z == f then OptVar(board, true) else Ref(z)]
    requires b.vf == if z == f || (!Aligned(z) && copied) then a.vf else a.vf + [t]
    ensures Raw(b) == OptVarCopied(Raw(a), f, t, z, board, copied)
  {
  }

  // Where an optimized variable is found: in the slot itself, copied already, or at the end of the chain.
  lemma OptVarFound(F: FromSpace, st: State, open: set<nat>, work: set<Slot>, t: Slot, ptr: Slot, aux: Word)
    requires F.Valid() && Inv(F, st, open, work) && t in work && t in st.src && F.Data(st.src[t])
    requires aux.OptVar? && Stopped(F, st, st.src[t], ptr, aux)
    ensures ptr == st.src[t] ==> aux == F.words[ptr] && !aux.copied
    ensures ptr != st.src[t] ==>
      if !Aligned(ptr) && aux.copied then Image(F, st, t, st.src[t], Ref(ptr))
      else ptr == F.Term(st.src[t]) && F.words[ptr].OptVar?
  {
    Parts(F, st, open, work);
    var z := F.Term(st.src[t]);
    assert F.Good(st.src[t]) && F.Good(z);
    assert z in st.canon ==> CanonAt(F, st.canon, st.src, st.to, st.done, z);
  }

  // The state after the copy of the variable in z has been placed in a cell of its own.
  lemma VariableInCell(F: FromSpace, a: State, open: set<nat>, work: set<Slot>, z: Slot) returns (b: State)
    requires F.Valid() && Inv(F, a, open, work) && F.Data(z) && z in F.words && F.words[z].Var?
    requires F.words[z].body !in a.bodies && !F.words[z].copied
    ensures var body, p := F.words[z].body, Slot(a.next, 0);
      b == a.(to := a.to[p := Var(body, true)], next := a.next + 1, bodies := a.bodies[body := p], src := b.src,
              canon := b.canon, owner := b.owner, done := b.done)
    ensures Inv(F, b, open, work) && Grows(a, b)
    ensures z in b.canon && b.canon[z] == Slot(a.next, 0) && Slot(a.next, 0) !in work
  {
    var body, p := F.words[z].body, Slot(a.next, 0);
    FreeCell(F, a, open, work);
    b := a.(to := a.to[p := Var(body, true)], next := a.next + 1, bodies := a.bodies[body := p], src := a.src[p := z],
            canon := a.canon[z := p], owner := a.owner[a.next := HeapVar(z)], done := a.done + {p});
    HeapVariableStep(F, a, b, open, work, z);
  }

  // The mark in the body of a variable names the variable's copy.
  lemma BodyImage(F: FromSpace, st: State, open: set<nat>, work: set<Slot>, t: Slot, body: nat)
    requires F.Valid() && Inv(F, st, open, work) && t in work && t in st.src && F.Data(st.src[t])
    requires F.Term(st.src[t]) in F.words && F.words[F.Term(st.src[t])] == Var(body, false) && body in st.bodies
    ensures Image(F, st, t, st.src[t], Ref(st.bodies[body]))
  {
    Parts(F, st, open, work);
    assert F.Good(F.Term(st.src[t]));
    assert BodyAt(F, st.canon, st.bodies, body);
    assert CanonAt(F, st.canon, st.src, st.to, st.done, F.Term(st.src[t]));
  }

  // One more reference is followed from the word aux of slot p, which the chain of s has reached.
  lemma DerefStep(F: FromSpace, st: State, open: set<nat>, work: set<Slot>, s: Slot, p: Slot, aux: Word)
    requires F.Valid() && Inv(F, st, open, work) && F.Data(s) && F.Data(p) && p in F.rank && F.Term(p) == F.Term(s)
    requires s in F.rank && F.rank[p] <= F.rank[s] && aux.Ref?
    requires (p == s && aux == F.words[s]) || (p in st.from && aux == st.from[p] && F.rank[p] < F.rank[s])
    ensures var ptr := aux.slot;
      if ptr in st.from then
        && F.Data(ptr) && ptr in F.rank && F.Term(ptr) == F.Term(s) && F.rank[ptr] < F.rank[p]
        && LookWord(F, st.from, st.from[ptr]) == LookWord(F, st.from, aux)
        && (!st.from[ptr].Ref? ==> Stopped(F, st, s, ptr, st.from[ptr]))
      else
        && ptr in st.to && !st.to[ptr].Ref? && Stopped(F, st, s, ptr, st.to[ptr])
        && !st.to[ptr].LTuple? && !LookWord(F, st.from, aux).LTuple?
  {
    Parts(F, st, open, work);
    var ptr := aux.slot;
    assert F.Good(p) && F.Good(s);
    MarkIsCopy(F, st, open, p);
    DataIsFromSpace(F, ptr);
    if ptr in st.from {
      assert F.Data(ptr);
      MarkIsCopy(F, st, open, ptr);
      assert F.Good(ptr);
    }
  }

  // A pair whose head leads to itself now did so before the collection.
  lemma LeadsToItself(F: FromSpace, st: State, open: set<nat>, work: set<Slot>, d: nat)
    requires F.Valid() && Inv(F, st, open, work) && F.Data(Slot(d, 0)) && Look(F, st.from, Slot(d, 0)) == LTuple(d)
    ensures F.SelfHeaded(d)
  {
    Parts(F, st, open, work);
    LookIsValue(F, st, open, Slot(d, 0), d);
  }

  // The word that the visit to a record or to the roots comes to next has not been overwritten.
  lemma WordUntouched(F: FromSpace, st: State, work: set<Slot>, c: nat, i: nat)
    requires F.Valid() && Inv(F, st, {}, work) && c in st.fwd && c in F.shape && !F.shape[c].Pair?
      && IsData(F.shape[c], i)
    requires Slot(st.fwd[c], i) in work
    ensures var f, t := Slot(c, i), Slot(st.fwd[c], i);
      F.Data(f) && t in st.src && st.src[t] == f && f in st.from && f in F.words && st.from[f] == F.words[f]
  {
    assert F.Data(Slot(c, i));
    CopySlot(F, st, {}, work, Slot(c, i));
    WorkSlot(F, st, {}, work, Slot(st.fwd[c], i));
    UntouchedSlot(F, st, {}, work, Slot(st.fwd[c], i));
  }

  // The mark and the header of a record that has been taken from the stack.
  lemma RecordFound(F: FromSpace, st: State, work: set<Slot>, c: nat)
    requires F.Valid() && Inv(F, st, {}, work) && c in st.fwd && c in F.shape && F.shape[c].Rec?
    ensures Slot(c, 0) in st.from && st.from[Slot(c, 0)] == Moved(st.fwd[c])
    ensures Slot(st.fwd[c], 0) !in st.from && Slot(st.fwd[c], 0) in st.to
    ensures st.to[Slot(st.fwd[c], 0)] == Arity(F.shape[c].width)
  {
    Parts(F, st, {}, work);
    MarkTells(F, st, c, {}, work);
    assert HeaderAt(F, st.fwd, st.to, c) && CellAt(F, st.fwd, st.owner, st.next, c);
    forall s: Slot | s in st.from ensures s.cell < F.base { assert F.Data(s) || F.Header(s); }
  }

  // A pair that is being visited: its mark, and its saved head.
  ghost predicate Visited(F: FromSpace, st: State, c: nat) {
    && c in st.fwd && c in F.shape && F.shape[c].Pair? && Slot(c, 0) in F.words && Slot(st.fwd[c], 0) in st.to
    && st.to[Slot(st.fwd[c], 0)] == F.words[Slot(c, 0)]
  }

  lemma PairFound(F: FromSpace, st: State, work: set<Slot>, c: nat)
    requires F.Valid() && Inv(F, st, {}, work) && c in st.fwd && c in F.shape && F.shape[c].Pair?
    ensures F.Data(Slot(c, 0)) && F.Data(Slot(c, 1)) && Slot(c, 0) in F.words && Slot(c, 0) in st.from
    ensures st.from[Slot(c, 0)] == Mark(Slot(st.fwd[c], 0)) && Slot(st.fwd[c], 0) !in st.from
    ensures forall i :: i < 2 ==> Slot(st.fwd[c], i) in st.src && st.src[Slot(st.fwd[c], i)] == Slot(c, i)
  {
    assert F.Data(Slot(c, 0)) && F.Data(Slot(c, 1)) && F.Good(Slot(c, 0));
    CopySlot(F, st, {}, work, Slot(c, 0));
    CopySlot(F, st, {}, work, Slot(c, 1));
    Parts(F, st, {}, work);
    assert FromAt(F, st.from, st.fwd, st.canon, {}, Slot(c, 0));
    forall s: Slot | s in st.from ensures s.cell < F.base { assert F.Data(s) || F.Header(s); }
  }

  lemma HeadUntouched(F: FromSpace, st: State, work: set<Slot>, c: nat)
    requires F.Valid() && Inv(F, st, {c}, work) && c in st.fwd && c in F.shape && F.shape[c].Pair?
    requires Slot(st.fwd[c], 0) in work
    ensures var f, t := Slot(c, 0), Slot(st.fwd[c], 0);
      F.Data(f) && t in st.src && st.src[t] == f && f in st.from && f in F.words && st.from[f] == F.words[f]
  {
    assert F.Data(Slot(c, 0));
    CopySlot(F, st, {c}, work, Slot(c, 0));
    WorkSlot(F, st, {c}, work, Slot(st.fwd[c], 0));
    UntouchedSlot(F, st, {c}, work, Slot(st.fwd[c], 0));
  }

  lemma TailUntouched(F: FromSpace, st: State, work: set<Slot>, c: nat)
    requires F.Valid() && Inv(F, st, {}, work) && c in st.fwd && c in F.shape && F.shape[c].Pair?
    requires Slot(st.fwd[c], 1) in work
    ensures var f, t := Slot(c, 1), Slot(st.fwd[c], 1);
      F.Data(f) && t in st.src && st.src[t] == f && f in st.from && f in F.words && st.from[f] == F.words[f]
  {
    assert F.Data(Slot(c, 1));
    CopySlot(F, st, {}, work, Slot(c, 1));
    WorkSlot(F, st, {}, work, Slot(st.fwd[c], 1));
    UntouchedSlot(F, st, {}, work, Slot(st.fwd[c], 1));
  }

  // The open pair has not been copied twice.
  lemma OpenOnce(F: FromSpace, st: State, work: set<Slot>, d: nat)
    requires F.Valid() && Inv(F, st, {d}, work)
    ensures d !in st.twice
  {
    Parts(F, st, {d}, work);
    forall c | c in st.twice ensures c != d { assert TwiceAt(F, st, {d}, work, c); }
  }

  lemma HeadStays(F: FromSpace, st: State, open: set<nat>, work: set<Slot>, c: nat)
    requires F.Valid() && Inv(F, st, open, work) && F.Data(Slot(c, 0))
    ensures Slot(c, 0) in st.from
  {
    Parts(F, st, open, work);
    assert F.Good(Slot(c, 0));
  }

  // What a second copy does to memory.
  lemma SecondRaw(a: State, b: State, f: Slot, t: Slot, d: nat, n: nat, z: Slot)
    requires f == Slot(d, 0) && f in a.from && !a.from[f].Mark? && t !in a.from
    requires Ends(Raw(a), f, n, z) && Raw(a).Written(z) && Raw(a).Read(z) == LTuple(d)
    requires b.to == a.to[Slot(a.next, 0) := a.from[f]][t := LTuple(a.next)] && b.vf == a.vf && b.bodies == a.bodies
    requires b.from == a.from[f := Mark(Slot(a.next, 0))][f := Mark(t)] && b.next == a.next + 1
    requires b.stack == a.stack + [PtrLTuple(d)]
    ensures MarksAfter(Raw(a), f, t, Raw(b))
  {
    var m1 := PairMarked(Raw(a), d).Fill(t, LTuple(PairTarget(Raw(a), d)));
    assert WordCopied(Raw(a), f, t, z) == Now(m1);
    assert Copies(Raw(a), f, t, m1);
    assert Raw(b) == m1.Overwrite(f, Mark(t));
  }

  lemma CopiedAgain(F: FromSpace, a: State, b: State, d: nat, n: nat, z: Slot)
    requires d in a.fwd && d in F.shape && F.shape[d].Pair? && F.Valid() && F.SelfHeaded(d) && Unsafe(F)
    requires Inv(F, a, {d}, {Slot(a.fwd[d], 0), Slot(a.fwd[d], 1)}) && Slot(d, 0) in a.from
    requires Ends(Raw(a), Slot(d, 0), n, z) && Raw(a).Written(z) && Raw(a).Read(z) == LTuple(d)
    requires var f, t, u := Slot(d, 0), Slot(a.fwd[d], 0), Slot(a.next, 0);
      b == a.(from := a.from[f := Mark(u)][f := Mark(t)], to := a.to[u := a.from[f]][t := LTuple(a.next)],
              next := a.next + 1, stack := a.stack + [PtrLTuple(d)], owner := a.owner[a.next := Second(d)],
              twice := a.twice[d := a.next])
    ensures Inv(F, b, {}, {Slot(a.fwd[d], 1)}) && Grows(a, b.(stack := a.stack))
    ensures MarksAfter(Raw(a), Slot(d, 0), Slot(a.fwd[d], 0), Raw(b))
  {
    var f, t := Slot(d, 0), Slot(a.fwd[d], 0);
    var work := {t, Slot(a.fwd[d], 1)};
    HeadUntouched(F, a, work, d);
    WorkSlot(F, a, {d}, work, t);
    assert F.Good(f) && b.from == a.from[f := Mark(t)];
    SecondRaw(a, b, f, t, d, n, z);
    SecondCopyStep(F, a, b, d, work);
    assert work - {t} == {Slot(a.fwd[d], 1)};
  }

  lemma TailReached(m: Memory, m1: Memory, c': nat, d: nat, m': Memory)
    requires m1 == m.Fill(Slot(c', 1), LTuple(m.next)).(next := m.next + 1)
    requires MarksAfter(m1, Slot(d, 0), Slot(m.next, 0), m')
    ensures PairReached(m, c', d, Config(m', Tail(d, m.next)))
  {
  }

  lemma GrowsOn(a: State, b: State, c: State, d: nat)
    requires Grows(a, b) && Grows(b, c.(stack := b.stack)) && d !in a.fwd && d in b.fwd
    ensures Grows(a, c)
  {
    assert a.fwd.Keys <= b.fwd.Keys <= c.fwd.Keys;
    assert d in c.fwd.Keys && d !in a.fwd.Keys;
  }

  // The state after the copy of d, to which the tail being copied to t refers, has been allocated.
  lemma PairOpened(F: FromSpace, a: State, t: Slot, d: nat) returns (b: State)
    requires F.Valid() && Inv(F, a, {}, {t}) && Fresh(F, a, d) && F.shape[d].Pair?
    requires t in a.src && F.Data(a.src[t]) && F.Value(a.src[t]) == LTuple(d)
    ensures b == a.(next := a.next + 1, fwd := b.fwd, owner := b.owner, src := b.src) && d in b.fwd
      && b.fwd[d] == a.next
    ensures Inv(F, b, {d}, {t, Slot(a.next, 0), Slot(a.next, 1)}) && Grows(a, b)
    ensures t in b.src && F.Data(b.src[t]) && Image(F, b, t, b.src[t], LTuple(a.next))
    ensures {t, Slot(a.next, 0), Slot(a.next, 1)} - {t} == {Slot(a.next, 0), Slot(a.next, 1)}
  {
    WorkSlot(F, a, {}, {t}, t);
    FreeCell(F, a, {}, {t});
    b := a.(next := a.next + 1, fwd := a.fwd[d := a.next], owner := a.owner[a.next := CopyOf(d)],
            src := AddSources(F.shape[d], d, a.next, a.src));
    TailAllocStep(F, a, b, d, {t});
    assert {t} + {Slot(a.next, 0), Slot(a.next, 1)} == {t, Slot(a.next, 0), Slot(a.next, 1)};
  }

  lemma TailUnsafe(F: FromSpace, st: State, work: set<Slot>, frm: nat, d: nat)
    requires F.Valid() && Inv(F, st, {}, work) && frm in st.fwd && frm in F.shape && F.shape[frm].Pair?
    requires F.Data(Slot(frm, 1)) && F.Value(Slot(frm, 1)) == LTuple(d)
    ensures F.SelfHeaded(d) ==> Unsafe(F)
  {
    Parts(F, st, {}, work);
    if F.SelfHeaded(d) { TailSelfHeaded(F, st.fwd, frm, d); }
  }

  // The image of a tail that refers to a pair copied already.
  lemma MarkedTail(F: FromSpace, st: State, work: set<Slot>, s: Slot, t: Slot, d: nat)
    requires F.Valid() && Inv(F, st, {}, work) && d in F.shape && F.shape[d].Pair? && F.Data(s)
      && F.Value(s) == LTuple(d)
    ensures Slot(d, 0) in st.from && (st.from[Slot(d, 0)].Mark? <==> d in st.fwd)
    ensures d in st.fwd ==> Image(F, st, t, s, LTuple(st.from[Slot(d, 0)].slot.cell))
  {
    MarkTells(F, st, d, {}, work);
  }

  lemma TailStep(m: Memory, c: nat, c': nat, n: nat, z: Slot, y: Config)
    requires Ends(m, Slot(c, 1), n, z) && m.Written(z) && TailCopied(m, c, c', z, y)
    ensures Gets(Config(m, Tail(c, c')), y)
  {
    GetsOne(Config(m, Tail(c, c')), y);
  }

  ghost predicate TwiceOnTop(e: Entry, twice: map<nat, nat>) { e.PtrLTuple? && e.cell in twice }

  // The entry on top of the stack has been taken from it.
  lemma Taken(F: FromSpace, a: State, b: State, e: Entry)
    requires F.Valid() && Inv(F, a, {}, {}) && |a.stack| > 0 && e == a.stack[|a.stack| - 1]
    requires b == a.(stack := a.stack[..|a.stack| - 1]) && (e.PtrLTuple? ==> e.cell !in a.twice)
    ensures e.cell in b.fwd && e.cell in F.shape
    ensures if e.PtrLTuple? then Visited(F, b, e.cell) else F.shape[e.cell].Rec?
    ensures Inv(F, b, {}, if e.PtrLTuple? then {Slot(b.fwd[e.cell], 0), Slot(b.fwd[e.cell], 1)}
                          else NewSlots(F.shape[e.cell], b.fwd[e.cell]))
  {
    PopStep(F, a, b, e);
    if e.PtrLTuple? {
      var c' := b.fwd[e.cell];
      assert NewSlots(F.shape[e.cell], c') == {Slot(c', 0), Slot(c', 1)};
    }
  }

  // The first copy of a pair on the stack shows whether the pair was copied twice: then the copy's head does not refer
  // to a from-space cell.
  lemma TopTells(F: FromSpace, st: State)
    requires F.Valid() && Inv(F, st, {}, {}) && |st.stack| > 0 && st.stack[|st.stack| - 1].PtrLTuple?
    ensures var c := st.stack[|st.stack| - 1].cell;
      && Slot(c, 0) in st.from && st.from[Slot(c, 0)].Mark? && st.from[Slot(c, 0)].slot in st.to
      && var w := st.to[st.from[Slot(c, 0)].slot]; c in st.twice <==> w.LTuple? && Slot(w.cell, 0) !in st.from
  {
    var c := st.stack[|st.stack| - 1].cell;
    Parts(F, st, {}, {});
    assert Pending(F, st.fwd, st.to, st.done, st.twice, {}, {}, PtrLTuple(c));
    if c in st.twice {
      MarkOfTwice(F, st, c);
    } else {
      PairFound(F, st, {}, c);
      assert F.Good(Slot(c, 0));
      assert forall d :: F.words[Slot(c, 0)] == LTuple(d) ==> F.Data(Slot(d, 0)) && F.Good(Slot(d, 0));
    }
  }

  lemma LostThere(F: FromSpace, st: State, n: nat, root': nat)
    requires F.Valid() && Inv(F, st, {}, {}) && Gets(Begin(F, n), Config(Raw(st), Idle))
    requires |st.stack| > 0 && TwiceOnTop(st.stack[|st.stack| - 1], st.twice)
    requires F.root in st.fwd && st.fwd[F.root] == root'
    ensures !Completes(F, n) && Unsafe(F)
    ensures forall k: nat, y :: Reaches(Config(Raw(st), Idle), k, y) ==> !Finished(y) && NoCopy(F, y.m, root')
    ensures NoCopy(F, Raw(st), root')
  {
    var x := Config(Raw(st), Idle);
    forall k: nat, y | Reaches(x, k, y) ensures !Finished(y) && NoCopy(F, y.m, root') {
      NeverFinished(F, st, st.stack[|st.stack| - 1].cell, k, y);
    }
    LostForever(F, n, x);
    Parts(F, st, {}, {});
    assert Reaches(x, 0, x);
  }

  lemma NoneTwice(F: FromSpace, st: State)
    requires F.Valid() && Inv(F, st, {}, {}) && st.stack == []
    ensures st.twice == map[]
  {
    Parts(F, st, {}, {});
    forall d | d in st.twice ensures TwiceAt(F, st, {}, {}, d) {}
  }

  lemma CompletesThere(F: FromSpace, n: nat, x: Config)
    requires Gets(Begin(F, n), x) && Finished(x)
    ensures Completes(F, n)
  {
    GetsReaches(Begin(F, n), x);
  }

  lemma VisitDone(m: Memory, rest: Memory, e: Entry, m': Memory)
    requires |m.stack| > 0 && e == m.stack[|m.stack| - 1] && rest == Rest(m) && Comes(rest, e, m')
    ensures Gets(Config(m, Idle), Config(m', Idle))
  {
    var y :| Visits(rest, e, y) && Gets(y, Config(m', Idle));
    GetsOne(Config(m, Idle), y);
    GetsJoin(Config(m, Idle), y, Config(m', Idle));
  }

  class Collector {
    ghost const F: FromSpace
    var from: map<Slot, Word>
    var to: map<Slot, Word>
    var next: nat
    var stack: seq<Entry>
    var vf: seq<Slot>
    var bodies: map<nat, Slot>
    ghost var book: Book   // bookkeeping of the proof

    ghost function St(): State
      reads this
    {
      State(from, to, next, stack, vf, bodies, book.fwd, book.src, book.canon, book.owner, book.done, book.twice)
    }

    // Follow references from the word w of slot s.
    method Deref(w: Word, ghost s: Slot, ghost open: set<nat>, ghost work: set<Slot>)
      returns (ptr: Slot, aux: Word, ghost n: nat)
      requires F.Valid() && Inv(F, St(), open, work) && F.Data(s) && s in F.words && w == F.words[s] && w.Ref?
      ensures !aux.Ref? && Stopped(F, St(), s, ptr, aux)
      ensures aux.LTuple? || LookWord(F, from, w).LTuple? ==> aux == LookWord(F, from, w)
      ensures Ends(Raw(St()), w.slot, n, ptr) && Raw(St()).Written(ptr) && aux == Raw(St()).Read(ptr)
    {
      assert F.Good(s);
      ptr, aux, n := w.slot, w, 0;
      ghost var m := Raw(St());
      ghost var p := s;
      while aux.Ref?
        invariant aux.Ref? ==> F.Data(p) && p in F.rank && F.Term(p) == F.Term(s) && F.rank[p] <= F.rank[s]
        invariant aux.Ref? ==> (p == s && aux == w) || (p in from && aux == from[p] && F.rank[p] < F.rank[s])
        invariant aux.Ref? ==> LookWord(F, from, aux) == LookWord(F, from, w) && Follows(m, w.slot, n, aux.slot)
        invariant !aux.Ref? ==> Stopped(F, St(), s, ptr, aux)
        invariant !aux.Ref? ==> aux.LTuple? || LookWord(F, from, w).LTuple? ==> aux == LookWord(F, from, w)
        invariant !aux.Ref? ==> Ends(m, w.slot, n, ptr) && m.Written(ptr) && aux == m.Read(ptr)
        decreases aux.Ref?, if p in F.rank then F.rank[p] else 0
      {
        DerefStep(F, St(), open, work, s, p, aux);
        ptr := aux.slot;
        aux := if ptr in from then from[ptr] else to[ptr];
        p := ptr;
        n := FollowsOn(m, w.slot, n, ptr);
      }
    }

    // The copy of a pair: the one its mark names, or a new one.
    method CopyPair(d: nat, ghost open: set<nat>, ghost work: set<Slot>) returns (c: nat)
      requires F.Valid() && Inv(F, St(), open, work)
      requires d in F.shape && F.shape[d].Pair? && d !in open && F.Reachable(book.fwd.Keys + {d})
      modifies this
      ensures Inv(F, St(), open, work) && Grows(old(St()), St())
      ensures d in book.fwd && c == book.fwd[d] && old(Raw(St())).Written(Slot(d, 0))
      ensures Raw(St()) == PairMarked(old(Raw(St())), d) && c == PairTarget(old(Raw(St())), d)
    {
      MarkTells(F, St(), d, open, work);
      if from[Slot(d, 0)].Mark? {
        c := from[Slot(d, 0)].slot.cell;
      } else {
        c := next;
        Push(d, Mark(Slot(c, 0)), PtrLTuple(d), open, work);
      }
    }

    // The copy of a record.
    method CopyRecord(d: nat, ghost open: set<nat>, ghost work: set<Slot>) returns (c: nat)
      requires F.Valid() && Inv(F, St(), open, work)
      requires d in F.shape && F.shape[d].Rec? && d !in open && F.Reachable(book.fwd.Keys + {d})
      modifies this
      ensures Inv(F, St(), open, work) && Grows(old(St()), St())
      ensures d in book.fwd && c == book.fwd[d] && Header(old(Raw(St())), d)
      ensures Raw(St()) == RecordMarked(old(Raw(St())), d) && c == RecordTarget(old(Raw(St())), d)
    {
      MarkTells(F, St(), d, open, work);
      if from[Slot(d, 0)].Moved? {
        c := from[Slot(d, 0)].cell;
      } else {
        c := next;
        Push(d, Moved(c), PtrSRecord(d), open, work);
      }
    }

    // Allocate the copy of d: its first slot, the head of a pair or the header of a record, is saved there; d is marked
    // and left on the stack.
    method Push(d: nat, mark: Word, e: Entry, ghost open: set<nat>, ghost work: set<Slot>)
      requires F.Valid() && Inv(F, St(), open, work) && Fresh(F, St(), d) && d !in open
      requires || (F.shape[d].Pair? && mark == Mark(Slot(next, 0)) && e == PtrLTuple(d))
               || (F.shape[d].Rec? && mark == Moved(next) && e == PtrSRecord(d))
      modifies this`from, this`to, this`next, this`stack, this`book
      ensures Inv(F, St(), open, work) && Grows(old(St()), St())
      ensures d in book.fwd && book.fwd[d] == old(next) && Slot(d, 0) in old(from)
      ensures Raw(St()) == Allocated(old(Raw(St())), Slot(d, 0), mark, e)
    {
      ghost var b := Pushed(F, St(), d, mark, e, open, work);
      to := to[Slot(next, 0) := from[Slot(d, 0)]];
      from := from[Slot(d, 0) := mark];
      next := next + 1;
      stack := stack + [e];
      book := Book(b.fwd, b.src, b.canon, b.owner, b.done, b.twice);
      assert St() == b;
    }

    // Store a word that needs no further work.
    method Store(t: Slot, w: Word, ghost open: set<nat>, ghost work: set<Slot>)
      requires F.Valid() && Inv(F, St(), open, work) && t in work && t in book.src && F.Data(book.src[t])
      requires Image(F, St(), t, book.src[t], w)
      modifies this`to, this`book
      ensures Inv(F, St(), open, work - {t}) && Grows(old(St()), St())
      ensures St() == old(St()).(to := old(to)[t := w], done := old(book.done) + {t})
    {
      ghost var a := St();
      to := to[t := w];
      book := book.(done := book.done + {t});
      assert Image(F, St(), t, book.src[t], w);
      FinishStep(F, a, St(), open, work, t, w);
    }

    // An optimized variable: copied in place when visited directly, deferred behind a reference.
    method CopyOptVar(f: Slot, t: Slot, ptr: Slot, aux: Word, ghost open: set<nat>, ghost work: set<Slot>)
      requires F.Valid() && Inv(F, St(), open, work) && t in work && t in book.src && book.src[t] == f && F.Data(f)
      requires f in from && f in F.words && from[f] == F.words[f]
      requires aux.OptVar? && Stopped(F, St(), f, ptr, aux)
      modifies this`from, this`to, this`vf, this`book
      ensures Inv(F, St(), open, work - {t}) && Grows(old(St()), St())
      ensures Raw(St()) == OptVarCopied(old(Raw(St())), f, t, ptr, aux.board, aux.copied)
    {
      ghost var a := St();
      WorkSlot(F, a, open, work, t);
      OptVarFound(F, a, open, work, t, ptr, aux);
      if ptr == f {
        PlaceOptVar(f, t, aux.board, open, work);
        OptVarRaw(a, St(), f, t, ptr, aux.board, aux.copied);
      } else if !Aligned(ptr) && aux.copied {
        Store(t, Ref(ptr), open, work);
      } else {
        DeferRef(t, ptr, open, work);
      }
    }

    // Copy the optimized variable in slot f itself; its old slot is forwarded.
    method PlaceOptVar(f: Slot, t: Slot, board: nat, ghost open: set<nat>, ghost work: set<Slot>)
      requires F.Valid() && Inv(F, St(), open, work) && t in work && t in book.src && book.src[t] == f && F.Data(f)
      requires f in from && f in F.words && from[f] == F.words[f] && F.words[f] == OptVar(board, false)
      modifies this`from, this`to, this`book
      ensures Inv(F, St(), open, work - {t}) && Grows(old(St()), St())
      ensures from == old(from)[f := Forward(t)] && to == old(to)[t := OptVar(board, true)]
    {
      ghost var a := St();
      WorkSlot(F, a, open, work, t);
      to := to[t := OptVar(board, true)];
      from := from[f := if Aligned(f) then Mark(t) else Ref(t)];
      book := book.(canon := book.canon[f := t], done := book.done + {t});
      DirectVariableStep(F, a, St(), open, work, t);
    }

    // Refer to an optimized variable that is not collected yet, and remember the slot.
    method DeferRef(t: Slot, z: Slot, ghost open: set<nat>, ghost work: set<Slot>)
      requires F.Valid() && Inv(F, St(), open, work) && t in work && t in book.src && F.Data(book.src[t])
      requires z == F.Term(book.src[t]) && z != book.src[t] && F.words[z].OptVar?
      modifies this`to, this`vf, this`book
      ensures Inv(F, St(), open, work - {t}) && Grows(old(St()), St())
      ensures to == old(to)[t := Ref(z)] && vf == old(vf) + [t]
    {
      ghost var a := St();
      to := to[t := Ref(z)];
      vf := vf + [t];
      book := book.(done := book.done + {t});
      DeferStep(F, a, St(), open, work, t, z);
    }

    // An ordinary variable: its body is marked with the place of its copy.
    method CopyVar(f: Slot, t: Slot, ptr: Slot, aux: Word, ghost open: set<nat>, ghost work: set<Slot>)
      requires F.Valid() && Inv(F, St(), open, work) && t in work && t in book.src && book.src[t] == f && F.Data(f)
      requires f in from && f in F.words && from[f] == F.words[f]
      requires aux.Var? && Stopped(F, St(), f, ptr, aux)
      modifies this`to, this`next, this`bodies, this`book
      ensures Inv(F, St(), open, work - {t}) && Grows(old(St()), St())
      ensures Raw(St()) == VarCopied(old(Raw(St())), f, t, ptr, aux.body)
    {
      ghost var a := St();
      assert F.Good(ptr);
      if aux.body in bodies {
        BodyImage(F, a, open, work, t, aux.body);
        Store(t, Ref(bodies[aux.body]), open, work);
      } else if ptr == f {
        PlaceVar(f, t, aux.body, open, work);
      } else {
        var p := CopyHeapVar(ptr, aux.body, open, work);
        ghost var b := St();
        Store(t, Ref(p), open, work);
        GrowsTransitive(a, b, St());
      }
    }

    // Copy the ordinary variable in slot f itself; its body is marked.
    method PlaceVar(f: Slot, t: Slot, body: nat, ghost open: set<nat>, ghost work: set<Slot>)
      requires F.Valid() && Inv(F, St(), open, work) && t in work && t in book.src && book.src[t] == f && F.Data(f)
      requires f in from && f in F.words && from[f] == F.words[f] && F.words[f] == Var(body, false) && body !in bodies
      modifies this`to, this`bodies, this`book
      ensures Inv(F, St(), open, work - {t}) && Grows(old(St()), St())
      ensures to == old(to)[t := Var(body, true)] && bodies == old(bodies)[body := t]
    {
      ghost var a := St();
      WorkSlot(F, a, open, work, t);
      to := to[t := Var(body, true)];
      bodies := bodies[body := t];
      book := book.(canon := book.canon[f := t], done := book.done + {t});
      DirectVariableStep(F, a, St(), open, work, t);
    }

    // The copy of a variable that lies outside the block being copied, in a cell of its own.
    method CopyHeapVar(ghost z: Slot, body: nat, ghost open: set<nat>, ghost work: set<Slot>) returns (p: Slot)
      requires F.Valid() && Inv(F, St(), open, work) && F.Data(z) && z in F.words && F.words[z] == Var(body, false)
        && body !in bodies
      modifies this`to, this`next, this`bodies, this`book
      ensures Inv(F, St(), open, work) && Grows(old(St()), St())
      ensures z in book.canon && book.canon[z] == p && p !in work && p == Slot(old(next), 0)
      ensures to == old(to)[p := Var(body, true)] && bodies == old(bodies)[body := p] && next == old(next) + 1
    {
      ghost var b := VariableInCell(F, St(), open, work, z);
      p := Slot(next, 0);
      to := to[p := Var(body, true)];
      next := next + 1;
      bodies := bodies[body := p];
      book := Book(b.fwd, b.src, b.canon, b.owner, b.done, b.twice);
      assert St() == b;
    }

    // A pair or a record: the slot gets a pointer to its one copy.
    method CopyCell(f: Slot, t: Slot, ptr: Slot, aux: Word, ghost open: set<nat>, ghost work: set<Slot>)
      requires F.Valid() && Inv(F, St(), open, work) && t in work && t in book.src && book.src[t] == f && F.Data(f)
      requires (aux.LTuple? || aux.SRecord?) && F.Value(f) == aux && Raw(St()).Written(ptr)
        && Raw(St()).Read(ptr) == aux
      requires forall d :: d in open ==> aux != LTuple(d) && aux != SRecord(d)
      modifies this
      ensures Inv(F, St(), open, work - {t}) && Grows(old(St()), St())
      ensures WordCopied(old(Raw(St())), f, t, ptr) == Now(Raw(St()))
    {
      ghost var a := St();
      WorkSlot(F, a, open, work, t);
      FoundReachable(F, a, open, work, t, aux.cell);
      if aux.LTuple? {
        var c := CopyPair(aux.cell, open, work);
        ghost var b := St();
        Store(t, LTuple(c), open, work);
        GrowsTransitive(a, b, St());
      } else {
        var c := CopyRecord(aux.cell, open, work);
        ghost var b := St();
        Store(t, SRecord(c), open, work);
        GrowsTransitive(a, b, St());
      }
    }

    // Copy one word; `OZ_cacBlock` does this for each word of a block.
    method CopyTerm(f: Slot, t: Slot, ghost open: set<nat>, ghost work: set<Slot>)
      requires F.Valid() && Inv(F, St(), open, work) && t in work && t in book.src && book.src[t] == f && F.Data(f)
      requires f in from && f in F.words && from[f] == F.words[f]
      requires forall d :: d in open ==> Look(F, from, f) != LTuple(d)
      requires forall d :: d in open ==> d in F.shape && F.shape[d].Pair?
      modifies this
      ensures Inv(F, St(), open, work - {t}) && Grows(old(St()), St())
      ensures Copies(old(Raw(St())), f, t, Raw(St()))
    {
      var ptr, aux, n := DerefSlot(f, open, work);
      ghost var m := Raw(St());
      CopyStopped(f, t, ptr, aux, open, work);
      assert Ends(m, f, n, ptr);
    }

    // Follow references from the word of slot f.
    method DerefSlot(f: Slot, ghost open: set<nat>, ghost work: set<Slot>)
      returns (ptr: Slot, aux: Word, ghost n: nat)
      requires F.Valid() && Inv(F, St(), open, work) && F.Data(f)
      requires f in from && f in F.words && from[f] == F.words[f]
      ensures Stopped(F, St(), f, ptr, aux) && !aux.Ref?
      ensures Ends(Raw(St()), f, n, ptr) && Raw(St()).Written(ptr) && aux == Raw(St()).Read(ptr)
      ensures aux.LTuple? || Look(F, from, f).LTuple? ==> aux == Look(F, from, f)
    {
      assert F.Good(f);
      ptr, aux, n := f, from[f], 0;
      if aux.Ref? {
        ptr, aux, n := Deref(aux, f, open, work);
        n := n + 1;
      }
    }

    // Copy the word at which the dereferencing has stopped.
    method CopyStopped(f: Slot, t: Slot, ptr: Slot, aux: Word, ghost open: set<nat>, ghost work: set<Slot>)
      requires F.Valid() && Inv(F, St(), open, work) && t in work && t in book.src && book.src[t] == f && F.Data(f)
      requires f in from && f in F.words && from[f] == F.words[f] && Stopped(F, St(), f, ptr, aux) && !aux.Ref?
      requires Raw(St()).Written(ptr) && aux == Raw(St()).Read(ptr)
      requires forall d :: d in open ==> aux != LTuple(d) && d in F.shape && F.shape[d].Pair?
      modifies this
      ensures Inv(F, St(), open, work - {t}) && Grows(old(St()), St())
      ensures WordCopied(old(Raw(St())), f, t, ptr) == Now(Raw(St()))
    {
      assert F.Good(F.Term(f));
      if aux.LTuple? || aux.SRecord? {
        CopyCell(f, t, ptr, aux, open, work);
      } else if aux.OptVar? {
        CopyOptVar(f, t, ptr, aux, open, work);
      } else if aux.Var? {
        CopyVar(f, t, ptr, aux, open, work);
      } else {
        CopyPlain(f, t, ptr, aux, open, work);
      }
    }

    // A word that is copied as it is, or a mark, which becomes a reference.
    method CopyPlain(ghost f: Slot, t: Slot, ghost ptr: Slot, aux: Word, ghost open: set<nat>, ghost work: set<Slot>)
      requires F.Valid() && Inv(F, St(), open, work) && t in work && t in book.src && book.src[t] == f && F.Data(f)
      requires Stopped(F, St(), f, ptr, aux) && Raw(St()).Written(ptr) && aux == Raw(St()).Read(ptr)
      requires !aux.Ref? && !aux.LTuple? && !aux.SRecord? && !aux.OptVar? && !aux.Var?
      modifies this`to, this`book
      ensures Inv(F, St(), open, work - {t}) && Grows(old(St()), St())
      ensures WordCopied(old(Raw(St())), f, t, ptr) == Now(Raw(St()))
    {
      assert F.Good(F.Term(f));
      match aux {
        case Null => Store(t, Null, open, work);
        case SmallInt(_) => Store(t, aux, open, work);
        case Atom(_) => Store(t, aux, open, work);
        case Mark(m) =>
          MarkedImage(F, St(), f, ptr, aux, t);
          Store(t, Ref(m), open, work);
        case _ => assert false;
      }
    }

    // Copy word i of a record or of the roots.
    method CopyWord(c: nat, c': nat, i: nat, ghost hi: nat)
      requires F.Valid() && i < hi && Inv(F, St(), {}, Slots(c', i, hi))
      requires c in book.fwd && book.fwd[c] == c' && c in F.shape && !F.shape[c].Pair? && IsData(F.shape[c], i)
      modifies this
      ensures Inv(F, St(), {}, Slots(c', i + 1, hi)) && Grows(old(St()), St())
      ensures Gets(Config(old(Raw(St())), Words(c, c', i, hi)), Config(Raw(St()), Words(c, c', i + 1, hi)))
    {
      ghost var m := Raw(St());
      var f, t := Slot(c, i), Slot(c', i);
      assert t in Slots(c', i, hi);
      WordUntouched(F, St(), Slots(c', i, hi), c, i);
      assert Slots(c', i, hi) - {t} == Slots(c', i + 1, hi);
      CopyTerm(f, t, {}, Slots(c', i, hi));
      GetsOne(Config(m, Words(c, c', i, hi)), Config(Raw(St()), Words(c, c', i + 1, hi)));
    }

    // Copy the words lo to hi - 1 of a record or of the roots.
    method CopyBlock(c: nat, c': nat, lo: nat, hi: nat)
      requires F.Valid() && Inv(F, St(), {}, Slots(c', lo, hi)) && lo <= hi
      requires c in book.fwd && book.fwd[c] == c' && c in F.shape && !F.shape[c].Pair?
      requires forall i: nat :: lo <= i < hi <==> IsData(F.shape[c], i)
      modifies this
      ensures Inv(F, St(), {}, {}) && Grows(old(St()), St())
      ensures Gets(Config(old(Raw(St())), Words(c, c', lo, hi)), Config(Raw(St()), Idle))
    {
      ghost var a := St();
      var i := lo;
      ghost var x := Config(Raw(a), Words(c, c', lo, hi));
      while i < hi
        invariant lo <= i <= hi
        invariant Inv(F, St(), {}, Slots(c', i, hi)) && Grows(a, St())
        invariant Gets(x, Config(Raw(St()), Words(c, c', i, hi)))
      {
        ghost var b := St();
        CopyWord(c, c', i, hi);
        GrowsTransitive(a, b, St());
        GetsJoin(x, Config(Raw(b), Words(c, c', i, hi)), Config(Raw(St()), Words(c, c', i + 1, hi)));
        i := i + 1;
      }
      assert Slots(c', i, hi) == {};
      WordsDone(x, Raw(St()), c, c', i, hi);
    }

    // Continue a record: copy its label and arguments.
    method ContinueRecord(c: nat)
      requires F.Valid() && c in book.fwd && c in F.shape && F.shape[c].Rec?
      requires Inv(F, St(), {}, NewSlots(F.shape[c], book.fwd[c]))
      modifies this
      ensures Inv(F, St(), {}, {}) && Grows(old(St()), St())
      ensures Comes(old(Raw(St())), PtrSRecord(c), Raw(St()))
    {
      ghost var m := Raw(St());
      RecordFound(F, St(), NewSlots(F.shape[c], book.fwd[c]), c);
      var c' := from[Slot(c, 0)].cell;
      var width := to[Slot(c', 0)].width;
      assert NewSlots(F.shape[c], c') == Slots(c', 1, width + 2);
      CopyBlock(c, c', 1, width + 2);
      assert Visits(m, PtrSRecord(c), Config(m, Words(c, c', 1, width + 2)));
    }

    // Copy the head of a pair that was left on the stack.  A pair that is its own head points to
    // its own copy; otherwise the mark is taken back while the head is copied.
    method CopyHead(c: nat, c': nat)
      requires F.Valid() && Visited(F, St(), c) && book.fwd[c] == c'
      requires Inv(F, St(), {}, {Slot(c', 0), Slot(c', 1)})
      modifies this
      ensures Inv(F, St(), {}, {Slot(c', 1)}) && Grows(old(St()), St())
      ensures HeadCopied(old(Raw(St())), c, c', Raw(St()))
    {
      ghost var m := Raw(St());
      var f, t := Slot(c, 0), Slot(c', 0);
      ghost var work := {t, Slot(c', 1)};
      PairFound(F, St(), work, c);
      var ptr, aux, n := DerefSaved(f, t, work);
      if aux == LTuple(c) {
        assert F.Good(f) && work - {t} == {Slot(c', 1)};
        Store(t, LTuple(c'), {}, work);
      } else {
        HeadAvoids(F, from, c, to[t], aux);
        CopyRestored(c, c');
      }
      assert Ends(m, t, n, ptr);
    }

    // Follow references from the head of f, which was saved in t.
    method DerefSaved(f: Slot, t: Slot, ghost work: set<Slot>) returns (ptr: Slot, aux: Word, ghost n: nat)
      requires F.Valid() && Inv(F, St(), {}, work) && F.Data(f) && f in F.words
      requires t !in from && t in to && to[t] == F.words[f]
      ensures !aux.Ref? && Ends(Raw(St()), t, n, ptr) && Raw(St()).Written(ptr) && aux == Raw(St()).Read(ptr)
      ensures if F.words[f].Ref? then LookWord(F, from, F.words[f]).LTuple? ==> aux == LookWord(F, from, F.words[f])
        else aux == F.words[f]
      ensures aux.LTuple? ==> F.Value(f) == aux
    {
      ptr, aux, n := t, to[t], 0;
      if aux.Ref? {
        ptr, aux, n := Deref(aux, f, {}, work);
        n := n + 1;
      }
      assert F.Good(f);
    }

    // Put the saved head of c back, copy it, and mark c again.
    method CopyRestored(c: nat, c': nat)
      requires F.Valid() && Visited(F, St(), c) && book.fwd[c] == c'
      requires Inv(F, St(), {}, {Slot(c', 0), Slot(c', 1)}) && Slot(c, 0) in from && F.Data(Slot(c, 0))
      requires Look(F, from[Slot(c, 0) := to[Slot(c', 0)]], Slot(c, 0)) != LTuple(c)
      modifies this
      ensures Inv(F, St(), {}, {Slot(c', 1)}) && Grows(old(St()), St())
      ensures old(Raw(St())).Written(Slot(c', 0))
      ensures var m, f, t := old(Raw(St())), Slot(c, 0), Slot(c', 0);
        MarksAfter(m.Overwrite(f, m.Read(t)), f, t, Raw(St()))
    {
      ghost var a := St();
      var f, t := Slot(c, 0), Slot(c', 0);
      ghost var work := {t, Slot(c', 1)};
      PairFound(F, a, work, c);
      from := from[f := to[t]];
      ghost var b := St();
      RestoreStep(F, a, b, c, work);
      CopyAndMark(c, c');
      GrowsTransitive(a, b, St());
    }

    // Copy the head of the open pair c, which does not lead to c itself, and mark c.
    method CopyAndMark(c: nat, c': nat)
      requires F.Valid() && Inv(F, St(), {c}, {Slot(c', 0), Slot(c', 1)})
      requires c in book.fwd && book.fwd[c] == c' && c in F.shape && F.shape[c].Pair? && F.Data(Slot(c, 0))
      requires Look(F, from, Slot(c, 0)) != LTuple(c)
      modifies this
      ensures Inv(F, St(), {}, {Slot(c', 1)}) && Grows(old(St()), St())
      ensures MarksAfter(old(Raw(St())), Slot(c, 0), Slot(c', 0), Raw(St()))
    {
      ghost var a := St();
      var f, t := Slot(c, 0), Slot(c', 0);
      ghost var work := {t, Slot(c', 1)};
      assert work - {t} == {Slot(c', 1)};
      HeadUntouched(F, a, work, c);
      CopyTerm(f, t, {c}, work);
      ghost var b := St();
      HeadStays(F, b, {c}, {Slot(c', 1)}, c);
      from := from[f := Mark(t)];
      StoreForwardStep(F, b, St(), c, {Slot(c', 1)});
      GrowsTransitive(a, b, St());
    }

    // One step of the tail walk: the pair d, which is not marked, is copied into a new cell in place of the tail of c'.
    method CopyTailPair(c': nat, d: nat) returns (d': nat)
      requires F.Valid() && Inv(F, St(), {}, {Slot(c', 1)})
      requires Slot(c', 1) in book.src && F.Data(book.src[Slot(c', 1)]) && F.Value(book.src[Slot(c', 1)]) == LTuple(d)
      requires Fresh(F, St(), d) && F.shape[d].Pair? && (F.SelfHeaded(d) ==> Unsafe(F))
      modifies this
      ensures Inv(F, St(), {}, {Slot(d', 1)}) && Grows(old(St()), St())
      ensures d in book.fwd && book.fwd[d] == d' && d !in old(book.fwd)
      ensures PairReached(old(Raw(St())), c', d, Config(Raw(St()), Tail(d, d')))
    {
      ghost var a := St();
      d' := LinkTailPair(c', d);
      ghost var b := St();
      CopyTailHead(d, d');
      GrowsOn(a, b, St(), d);
      TailReached(Raw(a), Raw(b), c', d, Raw(St()));
    }

    // Allocate the copy of d, which is not marked yet, as the tail of c'.
    method LinkTailPair(c': nat, d: nat) returns (d': nat)
      requires F.Valid() && Inv(F, St(), {}, {Slot(c', 1)})
      requires Slot(c', 1) in book.src && F.Data(book.src[Slot(c', 1)]) && F.Value(book.src[Slot(c', 1)]) == LTuple(d)
      requires Fresh(F, St(), d) && F.shape[d].Pair?
      modifies this`to, this`next, this`book
      ensures Inv(F, St(), {d}, {Slot(d', 0), Slot(d', 1)}) && Grows(old(St()), St())
      ensures d in book.fwd && book.fwd[d] == d' && d' == old(next)
      ensures Raw(St()) == old(Raw(St())).Fill(Slot(c', 1), LTuple(d')).(next := d' + 1)
    {
      ghost var a := St();
      var t := Slot(c', 1);
      ghost var b := PairOpened(F, a, t, d);
      d' := next;
      next := next + 1;
      book := Book(b.fwd, b.src, b.canon, b.owner, b.done, b.twice);
      assert St() == b;
      Store(t, LTuple(d'), {d}, {t, Slot(d', 0), Slot(d', 1)});
      GrowsTransitive(a, b, St());
    }

    // The tail walk copies the head of the open pair d before it marks d.  If the head leads to d itself, d is copied
    // again by that.
    method CopyTailHead(d: nat, d': nat)
      requires F.Valid() && Inv(F, St(), {d}, {Slot(d', 0), Slot(d', 1)})
      requires d in book.fwd && book.fwd[d] == d' && d in F.shape && F.shape[d].Pair? && (F.SelfHeaded(d) ==> Unsafe(F))
      modifies this
      ensures Inv(F, St(), {}, {Slot(d', 1)}) && Grows(old(St()), St().(stack := old(stack)))
      ensures d in book.fwd && book.fwd[d] == d' && F.Data(Slot(d, 0))
      ensures MarksAfter(old(Raw(St())), Slot(d, 0), Slot(d', 0), Raw(St()))
      ensures d in book.twice <==> Look(F, old(from), Slot(d, 0)) == LTuple(d)
    {
      ghost var a := St();
      var f, t := Slot(d, 0), Slot(d', 0);
      ghost var work := {t, Slot(d', 1)};
      assert work - {t} == {Slot(d', 1)};
      HeadUntouched(F, a, work, d);
      var ptr, aux, n := DerefSlot(f, {d}, work);
      if aux == LTuple(d) {
        LeadsToItself(F, a, {d}, work, d);
        SecondAndMark(d, d', ptr, n);
      } else {
        CopyStopped(f, t, ptr, aux, {d}, work);
        ghost var b := St();
        HeadStays(F, b, {d}, {Slot(d', 1)}, d);
        from := from[f := Mark(t)];
        StoreForwardStep(F, b, St(), d, {Slot(d', 1)});
        GrowsTransitive(a, b, St());
        OpenOnce(F, b, {Slot(d', 1)}, d);
        assert Ends(Raw(a), f, n, ptr) && Copies(Raw(a), f, t, Raw(b));
      }
    }

    // The head of d leads to d: the pair is copied again, then the mark of that copy is overwritten with the first one.
    method SecondAndMark(d: nat, d': nat, ghost ptr: Slot, ghost n: nat)
      requires F.Valid() && Inv(F, St(), {d}, {Slot(d', 0), Slot(d', 1)})
      requires d in book.fwd && book.fwd[d] == d' && d in F.shape && F.shape[d].Pair? && F.SelfHeaded(d) && Unsafe(F)
      requires Ends(Raw(St()), Slot(d, 0), n, ptr) && Raw(St()).Written(ptr) && Raw(St()).Read(ptr) == LTuple(d)
      modifies this`from, this`to, this`next, this`stack, this`book
      ensures Inv(F, St(), {}, {Slot(d', 1)}) && Grows(old(St()), St().(stack := old(stack)))
      ensures d in book.fwd && book.fwd[d] == d' && d in book.twice
      ensures MarksAfter(old(Raw(St())), Slot(d, 0), Slot(d', 0), Raw(St()))
    {
      ghost var a := St();
      var f, t := Slot(d, 0), Slot(d', 0);
      ghost var work := {t, Slot(d', 1)};
      assert work - {t} == {Slot(d', 1)};
      HeadUntouched(F, a, work, d);
      var c := next;
      next := next + 1;
      to := to[Slot(c, 0) := from[f]];
      from := from[f := Mark(Slot(c, 0))];
      stack := stack + [PtrLTuple(d)];
      to := to[t := LTuple(c)];
      from := from[f := Mark(t)];
      book := book.(owner := book.owner[c := Second(d)], twice := book.twice[d := c]);
      CopiedAgain(F, a, St(), d, n, ptr);
    }

    // What the tail of a pair being walked refers to.
    method TailOf(frm: nat, ghost frm': nat) returns (more: bool, d: nat, ghost n: nat, ghost ptr: Slot)
      requires F.Valid() && Inv(F, St(), {}, {Slot(frm', 1)})
      requires frm in book.fwd && book.fwd[frm] == frm' && frm in F.shape && F.shape[frm].Pair?
      ensures F.Data(Slot(frm, 1)) && Slot(frm', 1) in book.src && book.src[Slot(frm', 1)] == Slot(frm, 1)
      ensures Slot(frm, 1) in from && Slot(frm, 1) in F.words && from[Slot(frm, 1)] == F.words[Slot(frm, 1)]
      ensures Ends(Raw(St()), Slot(frm, 1), n, ptr) && Raw(St()).Written(ptr)
      ensures if more then Raw(St()).Read(ptr) == LTuple(d) else !Raw(St()).Read(ptr).LTuple?
      ensures more ==>
        F.Value(Slot(frm, 1)) == LTuple(d) && d in F.shape && F.shape[d].Pair? && F.Reachable(book.fwd.Keys + {d})
    {
      var f := Slot(frm, 1);
      ghost var work := {Slot(frm', 1)};
      TailUntouched(F, St(), work, frm);
      var aux;
      ptr, aux, n := DerefSlot(f, {}, work);
      more := aux.LTuple?;
      d := 0;
      if more {
        d := aux.cell;
        WorkSlot(F, St(), {}, work, Slot(frm', 1));
        assert F.Good(F.Term(f));
        FoundReachable(F, St(), {}, work, Slot(frm', 1), d);
      }
    }

    // One step of the tail walk.
    method WalkTail(frm: nat, frm': nat) returns (more: bool, d: nat, d': nat)
      requires F.Valid() && Inv(F, St(), {}, {Slot(frm', 1)})
      requires frm in book.fwd && book.fwd[frm] == frm' && frm in F.shape && F.shape[frm].Pair?
      modifies this
      ensures Inv(F, St(), {}, if more then {Slot(d', 1)} else {}) && Grows(old(St()), St())
      ensures more ==> d in book.fwd && book.fwd[d] == d' && d in F.shape && F.shape[d].Pair? && d !in old(book.fwd)
      ensures Gets(Config(old(Raw(St())), Tail(frm, frm')), Config(Raw(St()), if more then Tail(d, d') else Idle))
    {
      ghost var a := St();
      var s, t := Slot(frm, 1), Slot(frm', 1);
      assert {t} - {t} == {};
      d' := 0;
      ghost var n: nat;
      ghost var ptr;
      more, d, n, ptr := TailOf(frm, frm');
      if !more {
        CopyTerm(s, t, {}, {t});
        TailStep(Raw(a), frm, frm', n, ptr, Config(Raw(St()), Idle));
      } else {
        MarkedTail(F, a, {t}, s, t, d);
        if from[Slot(d, 0)].Mark? {
          Store(t, LTuple(from[Slot(d, 0)].slot.cell), {}, {t});
          TailStep(Raw(a), frm, frm', n, ptr, Config(Raw(St()), Idle));
          more := false;
        } else {
          TailUnsafe(F, a, {t}, frm, d);
          d' := CopyTailPair(frm', d);
          TailStep(Raw(a), frm, frm', n, ptr, Config(Raw(St()), Tail(d, d')));
        }
      }
    }

    // Continue a pair: copy its head, then walk down the list copying pair after pair.
    method ContinuePair(c: nat)
      requires F.Valid() && Visited(F, St(), c) && Inv(F, St(), {}, {Slot(book.fwd[c], 0), Slot(book.fwd[c], 1)})
      modifies this
      ensures Inv(F, St(), {}, {}) && Grows(old(St()), St())
      ensures Comes(old(Raw(St())), PtrLTuple(c), Raw(St()))
    {
      ghost var a := St();
      PairFound(F, a, {Slot(book.fwd[c], 0), Slot(book.fwd[c], 1)}, c);
      var frm, frm' := c, from[Slot(c, 0)].slot.cell;
      CopyHead(frm, frm');
      ghost var y := Config(Raw(St()), Tail(c, frm'));
      assert Visits(Raw(a), PtrLTuple(c), y);
      var more := true;
      while more
        invariant Inv(F, St(), {}, if more then {Slot(frm', 1)} else {}) && Grows(a, St())
        invariant more ==> frm in book.fwd && book.fwd[frm] == frm' && frm in F.shape && F.shape[frm].Pair?
        invariant Gets(y, Config(Raw(St()), if more then Tail(frm, frm') else Idle))
        decreases more, F.shape.Keys - book.fwd.Keys
      {
        ghost var b := St();
        var d, d';
        more, d, d' := WalkTail(frm, frm');
        GrowsTransitive(a, b, St());
        GetsJoin(y, Config(Raw(b), Tail(frm, frm')), Config(Raw(St()), if more then Tail(d, d') else Idle));
        if more { assert book.fwd.Keys >= b.fwd.Keys && d in F.shape.Keys - b.fwd.Keys; }
        frm, frm' := d, d';
      }
    }

    // The entry on top of the work stack is a pair that was copied twice.
    ghost predicate AtTwice()
      reads this
    {
      |stack| > 0 && TwiceOnTop(stack[|stack| - 1], book.twice)
    }

    // Continue the entry on top of the work stack.
    method Step()
      requires F.Valid() && Inv(F, St(), {}, {}) && |stack| > 0
      requires !AtTwice()
      modifies this
      ensures Inv(F, St(), {}, {}) && Grows(old(St()).(stack := old(stack)[..|old(stack)| - 1]), St())
      ensures Gets(Config(old(Raw(St())), Idle), Config(Raw(St()), Idle))
    {
      ghost var m := Raw(St());
      var e := Pop();
      ghost var rest := Raw(St());
      match e {
        case PtrLTuple(c) => ContinuePair(c);
        case PtrSRecord(c) => ContinueRecord(c);
      }
      VisitDone(m, rest, e, Raw(St()));
    }

    // Take the entry on top of the work stack: the slots of its copy are open.
    method Pop() returns (e: Entry)
      requires F.Valid() && Inv(F, St(), {}, {}) && |stack| > 0 && !AtTwice()
      modifies this`stack
      ensures e == old(stack[|stack| - 1]) && St() == old(St()).(stack := old(stack)[..|old(stack)| - 1])
      ensures e.cell in book.fwd && e.cell in F.shape
      ensures if e.PtrLTuple? then Visited(F, St(), e.cell) else F.shape[e.cell].Rec?
      ensures Inv(F, St(), {}, if e.PtrLTuple? then {Slot(book.fwd[e.cell], 0), Slot(book.fwd[e.cell], 1)}
                               else NewSlots(F.shape[e.cell], book.fwd[e.cell]))
    {
      ghost var a := St();
      e := stack[|stack| - 1];
      stack := stack[..|stack| - 1];
      Taken(F, a, St(), e);
    }

    // Whether the entry on top of the stack is a pair that was copied twice.
    method TopTwice() returns (b: bool)
      requires F.Valid() && Inv(F, St(), {}, {}) && |stack| > 0
      ensures b <==> AtTwice()
    {
      match stack[|stack| - 1] {
        case PtrLTuple(c) =>
          TopTells(F, St());
          var w := to[from[Slot(c, 0)].slot];
          b := w.LTuple? && Slot(w.cell, 0) !in from;
        case PtrSRecord(_) => b := false;
      }
    }

    // Drain the work stack.  The code goes on when it comes to a pair that was copied twice; the model stops there.
    method Drain() returns (lost: bool)
      requires F.Valid() && Inv(F, St(), {}, {})
      modifies this
      ensures Inv(F, St(), {}, {}) && Gets(Config(old(Raw(St())), Idle), Config(Raw(St()), Idle))
      ensures if lost then AtTwice() else stack == [] && book.twice == map[]
      ensures forall c :: c in old(book.fwd) ==> c in book.fwd && book.fwd[c] == old(book.fwd)[c]
    {
      ghost var x := Config(Raw(St()), Idle);
      lost := false;
      while |stack| > 0 && !lost
        invariant Inv(F, St(), {}, {}) && Gets(x, Config(Raw(St()), Idle))
        invariant lost ==> AtTwice()
        invariant forall c :: c in old(book.fwd) ==> c in book.fwd && book.fwd[c] == old(book.fwd)[c]
        decreases !lost, F.shape.Keys - book.fwd.Keys, |stack|
      {
        lost := TopTwice();
        if !lost {
          ghost var a := St();
          Step();
          Progress(F, a.(stack := a.stack[..|a.stack| - 1]), St());
          GetsJoin(x, Config(Raw(a), Idle), Config(Raw(St()), Idle));
        }
      }
      if !lost { NoneTwice(F, St()); }
    }

    // Make the copy of a deferred variable that was never visited directly.
    method FixVariable(z: Slot, r: Slot)
      requires F.Valid() && FixInv(F, St()) && F.Data(z) && z in F.words && F.words[z].OptVar?
      requires z in from && from[z] == F.words[z] && r.cell == next
      modifies this
      ensures FixInv(F, St()) && vf == old(vf) && book.fwd == old(book.fwd) && book.twice == old(book.twice)
      ensures r in book.src && book.src[r] == z
      ensures forall t :: t in old(book.src) ==> t in book.src && book.src[t] == old(book.src)[t]
    {
      ghost var b := Fixed(F, St(), z, r);
      to := to[r := OptVar(from[z].board, true)];
      from := from[z := if Aligned(r) then Mark(r) else Ref(r)];
      next := next + 1;
      book := Book(b.fwd, b.src, b.canon, b.owner, b.done, b.twice);
      assert St() == b;
    }

    // Redirect every deferred reference to the copy of its variable, making the copy if the
    // variable was never visited directly.  Where a new variable lands is up to the allocator.
    method Fix(place: nat -> nat)
      requires F.Valid() && FixInv(F, St())
      modifies this
      ensures FixInv(F, St()) && vf == []
      ensures book.fwd == old(book.fwd) && book.twice == old(book.twice)
    {
      while |vf| > 0
        invariant FixInv(F, St()) && book.fwd == old(book.fwd) && book.twice == old(book.twice)
        decreases |vf|
      {
        NextToFix(F, St());
        var t := vf[|vf| - 1];
        var z := to[t].slot;
        var r: Slot;
        if from[z].OptVar? {
          r := Slot(next, place(next));
          FixVariable(z, r);
        } else {
          r := from[z].slot;
        }
        ghost var b := St();
        NextToFix(F, b);
        to := to[t := Ref(r)];
        vf := vf[..|vf| - 1];
        FixRefStep(F, b, St(), t, r);
      }
    }

    constructor (ghost f: FromSpace, words: map<Slot, Word>, base: nat)
      requires f.Valid() && words == f.words && base == f.base
      ensures F == f && from == words && to == map[] && next == base && stack == [] && vf == [] && bodies == map[]
      ensures book == Book(map[], map[], map[], map[], {}, map[])
    {
      F := f;
      from, to, next, stack, vf, bodies := words, map[], base, [], [], map[];
      book := Book(map[], map[], map[], map[], {}, map[]);
    }

    // With the work stack drained, fixing the deferred references completes the copy.
    method Complete(place: nat -> nat)
      requires F.Valid() && Inv(F, St(), {}, {}) && stack == []
      modifies this
      ensures Isomorphic(F, to, next, book.fwd, book.canon) && vf == []
      ensures book.fwd == old(book.fwd) && book.twice == old(book.twice)
    {
      FixBegins(F, St());
      Fix(place);
      CollectionCopiesGraph(F, St());
    }

    // Allocate the block for the copies of n roots and copy the roots into it.
    method CopyRoots(root: nat, n: nat) returns (root': nat)
      requires F.Valid() && F.root == root && F.shape[root] == Block(n)
      requires from == F.words && to == map[] && next == F.base && stack == [] && vf == [] && bodies == map[]
      modifies this
      ensures Inv(F, St(), {}, {}) && root in book.fwd && book.fwd[root] == root'
      ensures Gets(Begin(F, n), Config(Raw(St()), Idle))
    {
      root' := next;
      next := next + 1;
      book := Book(map[root := root'], AddSources(F.shape[root], root, root', map[]), map[], map[root' := CopyOf(root)],
        {}, map[]);
      RootAllocated(F);
      assert St() == Started(F);
      assert NewSlots(F.shape[root], root') == Slots(root', 0, n);
      assert Config(Raw(St()), Words(root, root', 0, n)) == Begin(F, n);
      CopyBlock(root, root', 0, n);
    }

    // Copy a block of n roots and everything reachable from it.  The collection is lost if it comes to a pair that was
    // copied twice.
    method Collect(root: nat, n: nat, place: nat -> nat) returns (root': nat, lost: bool)
      requires F.Valid() && F.root == root && F.shape[root] == Block(n)
      requires from == F.words && to == map[] && next == F.base && stack == [] && vf == [] && bodies == map[]
      modifies this
      ensures !lost ==>
        Isomorphic(F, to, next, book.fwd, book.canon) && root in book.fwd && book.fwd[root] == root' && vf == []
      ensures lost <==> !Completes(F, n)
      ensures lost <==> book.twice != map[]
      ensures lost ==> Unsafe(F) && NoCopy(F, Raw(St()), root')
      ensures lost ==>
        forall k: nat, y :: Reaches(Config(Raw(St()), Idle), k, y) ==> !Finished(y) && NoCopy(F, y.m, root')
    {
      root' := CopyRoots(root, n);
      ghost var x := Config(Raw(St()), Idle);
      lost := Drain();
      GetsJoin(Begin(F, n), x, Config(Raw(St()), Idle));
      if lost {
        LostThere(F, St(), n, root');
      } else {
        CompletesThere(F, n, Config(Raw(St()), Idle));
        Complete(place);
      }
    }
  }
}

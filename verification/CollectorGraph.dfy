// What a finished collection has achieved: the to-space graph is a copy of the reachable
// from-space graph, with sharing, cycles and the identity of variables kept.
module CollectorGraph {
  import opened CollectorHeap

  // Following n references from t in to-space ends in t'.
  ghost predicate Leads(to: map<Slot, Word>, t: Slot, n: nat, t': Slot)
    decreases n
  {
    t in to &&
    if n == 0 then t' == t && !to[t].Ref?
    else to[t].Ref? && Leads(to, to[t].slot, n - 1, t')
  }

  // The word w in slot t' is the copy of the word in from-space slot z.
  ghost predicate CopyOfWord(F: FromSpace, fwd: map<nat, nat>, canon: map<Slot, Slot>, z: Slot, t': Slot, w: Word)
    requires F.Valid() && F.Data(z) && z in F.words
  {
    match F.words[z]
    case LTuple(d) => d in fwd && w == LTuple(fwd[d])
    case SRecord(d) => d in fwd && w == SRecord(fwd[d])
    case OptVar(board, _) => z in canon && canon[z] == t' && w == OptVar(board, true)
    case Var(body, _) => z in canon && canon[z] == t' && w == Var(body, true)
    case v => w == v
  }

  // Slots s and t mean the same once references are followed on both sides.
  ghost predicate SameMeaning(F: FromSpace, to: map<Slot, Word>, fwd: map<nat, nat>, canon: map<Slot, Slot>, s: Slot,
                              t: Slot)
    requires F.Valid() && F.Data(s)
  {
    exists n: nat, t' :: Leads(to, t, n, t') && t' in to && CopyOfWord(F, fwd, canon, F.Term(s), t', to[t'])
  }

  ghost predicate SlotCopied(F: FromSpace, to: map<Slot, Word>, fwd: map<nat, nat>, canon: map<Slot, Slot>, s: Slot)
    requires F.Valid()
  {
    F.Data(s) && s.cell in fwd && SameMeaning(F, to, fwd, canon, s, Slot(fwd[s.cell], s.idx))
  }

  // A to-space cell is the copy of a cell, or was made for the copy of just one variable.
  ghost predicate Accounted(fwd: map<nat, nat>, canon: map<Slot, Slot>, c': nat) {
    || (exists c :: c in fwd && fwd[c] == c')
    || (exists z :: z in canon && canon[z].cell == c' && forall y :: y in canon && canon[y].cell == c' ==> y == z)
  }

  // The one copy of a variable holds the variable.
  ghost predicate PlacedAt(F: FromSpace, to: map<Slot, Word>, canon: map<Slot, Slot>, z: Slot) {
    && z in canon && canon[z] in to && z in F.words
    && (match F.words[z]
        case OptVar(board, _) => to[canon[z]] == OptVar(board, true)
        case Var(body, _) => to[canon[z]] == Var(body, true)
        case _ => false)
  }

  ghost predicate Isomorphic(F: FromSpace, to: map<Slot, Word>, next: nat, fwd: map<nat, nat>, canon: map<Slot, Slot>)
    requires F.Valid()
  {
    // exactly the cells reachable from the roots are copied
    && F.Closed(fwd.Keys) && F.Reachable(fwd.Keys)
    // one copy each, in to-space
    && (forall c, d :: c in fwd && d in fwd && fwd[c] == fwd[d] ==> c == d)
    && (forall c :: c in fwd ==> F.base <= fwd[c] < next)
    && (forall c' {:trigger Accounted(fwd, canon, c')} :: F.base <= c' < next ==> Accounted(fwd, canon, c'))
    && (forall y, z :: y in canon && z in canon && canon[y] == canon[z] ==> y == z)
    && (forall z {:trigger PlacedAt(F, to, canon, z)} :: z in canon ==> PlacedAt(F, to, canon, z))
    // record headers and all other words are copied
    && (forall c :: c in fwd && c in F.shape && F.shape[c].Rec? ==>
          Slot(fwd[c], 0) in to && to[Slot(fwd[c], 0)] == Arity(F.shape[c].width))
    && (forall s {:trigger SlotCopied(F, to, fwd, canon, s)} ::
      F.Data(s) && s.cell in fwd ==> SlotCopied(F, to, fwd, canon, s))
  }

  lemma {:induction false} LeadsUnique(to: map<Slot, Word>, t: Slot, n: nat, t': Slot, m: nat, t'': Slot)
    requires Leads(to, t, n, t') && Leads(to, t, m, t'')
    ensures n == m && t' == t''
    decreases n
  {
    if n > 0 && m > 0 { LeadsUnique(to, to[t].slot, n - 1, t', m - 1, t''); }
  }

  // ---------------------------------------------------------------- fixing deferred references

  // Once the work stack is empty: an optimized variable's old slot is untouched or forwarded.
  ghost predicate FixAt(F: FromSpace, st: State, z: Slot) {
    && z in F.words && z in st.from
    && (|| (st.from[z] == F.words[z] && z !in st.canon)
        || ((st.from[z].Mark? || st.from[z].Ref?) && st.from[z].slot in st.src && st.src[st.from[z].slot] == z))
  }

  // Everything is copied, up to the deferred references.
  ghost predicate AllCopied(F: FromSpace, st: State)
    requires F.Valid()
  {
    && CellsOK(F, st.fwd, st.src, st.canon, st.owner, st.next)
    && ToOK(F, st.fwd, st.to, st.next)
    && CanonOK(F, st.canon, st.src, st.to, st.done)
    && DoneOK(F, st)
    && st.src.Keys <= st.done
    && F.Reachable(st.fwd.Keys)
    && (forall c' :: F.base <= c' < st.next && c' in st.owner ==> !st.owner[c'].Second?)
  }

  ghost predicate ToFix(F: FromSpace, st: State)
    requires F.Valid()
  {
    && DeferralsOK(F, st.src, st.to, st.done, st.vf)
    && (forall z {:trigger FixAt(F, st, z)} :: F.Data(z) && z in F.words && F.words[z].OptVar? ==> FixAt(F, st, z))
  }

  ghost predicate FixHolds(part: Part, F: FromSpace, st: State)
    requires F.Valid()
  {
    match part
    case Copying => AllCopied(F, st)
    case Waiting => ToFix(F, st)
  }

  // The invariant of fixing the deferred references.  A proof that needs its parts names them.
  ghost predicate FixInv(F: FromSpace, st: State)
    requires F.Valid()
  {
    forall part {:trigger FixHolds(part, F, st)} :: FixHolds(part, F, st)
  }

  lemma FixParts(F: FromSpace, st: State)
    requires F.Valid() && FixInv(F, st)
    ensures AllCopied(F, st) && ToFix(F, st)
  {
    assert FixHolds(Copying, F, st) && FixHolds(Waiting, F, st);
  }

  lemma FixBegins(F: FromSpace, st: State)
    requires F.Valid() && Inv(F, st, {}, {}) && st.stack == []
    ensures FixInv(F, st)
  {
    Parts(F, st, {}, {});
    forall t | t in st.src ensures t in st.done { assert CoveredAt(st.src, st.done, st.stack, {}, t); }
    forall d | d in st.twice ensures TwiceAt(F, st, {}, {}, d) {}
    forall z | F.Data(z) && z in F.words && F.words[z].OptVar? ensures FixAt(F, st, z) {
      assert FromAt(F, st.from, st.fwd, st.canon, {}, z);
      if z.cell in st.fwd { assert CopyAt(st.fwd, st.src, z); }
      if z in st.canon { assert CanonAt(F, st.canon, st.src, st.to, st.done, z); }
    }
  }

  // A deferred variable that has still no copy gets one in a cell of its own.
  lemma FixNewStep(F: FromSpace, a: State, b: State, z: Slot, p: Slot)
    requires F.Valid() && FixInv(F, a) && F.Data(z) && z in F.words && F.words[z].OptVar?
    requires z in a.from && a.from[z] == F.words[z] && p.cell == a.next && FixesNew(F, a, b, z, p)
    ensures FixInv(F, b)
  {
    FixParts(F, a);
    NewCell(F, a);
    assert FixAt(F, a, z);
    assert p == Slot(a.next, p.idx);
    FixNewKeeps(F, a, b, z, p);
    HeapVariableCells(F, a, b, z, p);
    forall y | F.Data(y) && y in F.words && F.words[y].OptVar? ensures FixAt(F, b, y) {
      assert FixAt(F, a, y);
    }
  }

  // The state after the deferred variable z has got its copy in r.
  lemma Fixed(F: FromSpace, a: State, z: Slot, r: Slot) returns (b: State)
    requires F.Valid() && FixInv(F, a) && F.Data(z) && z in F.words && F.words[z].OptVar?
    requires z in a.from && a.from[z] == F.words[z] && r.cell == a.next
    ensures b == a.(to := a.to[r := Copied(F.words[z])], from := a.from[z := Forward(r)], next := a.next + 1,
                    src := a.src[r := z], canon := b.canon, owner := b.owner, done := b.done)
    ensures FixInv(F, b) && r !in a.src
  {
    FixFree(F, a);
    assert r == Slot(a.next, r.idx);
    b := a.(to := a.to[r := Copied(F.words[z])], from := a.from[z := Forward(r)], next := a.next + 1,
            src := a.src[r := z], canon := a.canon[z := r], owner := a.owner[a.next := HeapVar(z)],
            done := a.done + {r});
    FixNewStep(F, a, b, z, r);
  }

  ghost predicate FixesNew(F: FromSpace, a: State, b: State, z: Slot, p: Slot)
    requires z in F.words
  {
    b == a.(to := a.to[p := Copied(F.words[z])], from := a.from[z := Forward(p)], next := a.next + 1,
            src := a.src[p := z], canon := a.canon[z := p], owner := a.owner[a.next := HeapVar(z)],
            done := a.done + {p})
  }

  lemma FixNewKeeps(F: FromSpace, a: State, b: State, z: Slot, p: Slot)
    requires F.Valid() && F.Data(z) && z in F.words && F.words[z].OptVar? && FixesNew(F, a, b, z, p) && z !in a.canon
    requires DoneOK(F, a) && CanonOK(F, a.canon, a.src, a.to, a.done)
    requires DeferralsOK(F, a.src, a.to, a.done, a.vf) && p !in a.src && p !in a.done && p !in a.to
    ensures DoneOK(F, b) && CanonOK(F, b.canon, b.src, b.to, b.done) && DeferralsOK(F, b.src, b.to, b.done, b.vf)
  {
    assert Grows(a, b);
    assert F.Term(z) == z;
    assert SlotOK(F, b, p);
    FinishDone(F, a, b, p);
    DeferralsStay(F, a, b);
    CanonsStay(F, a, b);
    forall x | x in b.canon ensures CanonAt(F, b.canon, b.src, b.to, b.done, x) {
      if x == z { assert CanonAt(F, b.canon, b.src, b.to, b.done, z); }
    }
  }

  lemma FixFree(F: FromSpace, st: State)
    requires F.Valid() && FixInv(F, st)
    ensures forall i: nat :: Slot(st.next, i) !in st.src
  {
    FixParts(F, st);
    NewCell(F, st);
  }

  // A deferred slot on top of the stack, and where its variable is or is to be.
  lemma NextToFix(F: FromSpace, st: State)
    requires F.Valid() && FixInv(F, st) && |st.vf| > 0
    ensures DeferredOK(F, st.src, st.to, st.done, st.vf[|st.vf| - 1])
    ensures var z := F.Term(st.src[st.vf[|st.vf| - 1]]);
      F.Data(z) && z in F.words && F.words[z].OptVar? && FixAt(F, st, z)
  {
    FixParts(F, st);
    var t := st.vf[|st.vf| - 1];
    assert t in st.vf && DeferredOK(F, st.src, st.to, st.done, t);
    assert F.Good(st.to[t].slot) && FixAt(F, st, st.to[t].slot);
  }

  // A deferred reference is redirected to the copy of its variable.
  lemma FixRefStep(F: FromSpace, a: State, b: State, t: Slot, r: Slot)
    requires F.Valid() && FixInv(F, a) && |a.vf| > 0 && t == a.vf[|a.vf| - 1]
    requires DeferredOK(F, a.src, a.to, a.done, t) && r in a.src && a.src[r] == F.Term(a.src[t])
    requires b == a.(to := a.to[t := Ref(r)], vf := a.vf[..|a.vf| - 1])
    ensures FixInv(F, b)
  {
    FixParts(F, a);
    FixRefSlots(F, a, b, t, r);
    FixRefOthers(F, a, b, t, r);
    FinishTo(F, a, t, Ref(r));
    forall y | F.Data(y) && y in F.words && F.words[y].OptVar? ensures FixAt(F, b, y) {
      assert FixAt(F, a, y);
    }
  }

  lemma FixRefSlots(F: FromSpace, a: State, b: State, t: Slot, r: Slot)
    requires F.Valid() && DoneOK(F, a) && DeferredOK(F, a.src, a.to, a.done, t)
    requires r in a.src && a.src[r] == F.Term(a.src[t])
    requires |a.vf| > 0 && t == a.vf[|a.vf| - 1] && b == a.(to := a.to[t := Ref(r)], vf := a.vf[..|a.vf| - 1])
    ensures DoneOK(F, b)
  {
    assert a.vf == b.vf + [t];
    forall x | x in b.done ensures SlotOK(F, b, x) { assert SlotOK(F, a, x); }
  }

  lemma FixRefOthers(F: FromSpace, a: State, b: State, t: Slot, r: Slot)
    requires F.Valid() && DeferralsOK(F, a.src, a.to, a.done, a.vf) && CanonOK(F, a.canon, a.src, a.to, a.done)
    requires |a.vf| > 0 && t == a.vf[|a.vf| - 1] && b == a.(to := a.to[t := Ref(r)], vf := a.vf[..|a.vf| - 1])
    ensures DeferralsOK(F, b.src, b.to, b.done, b.vf) && CanonOK(F, b.canon, b.src, b.to, b.done)
  {
    DistinctInit(a.vf);
    assert t in a.vf && DeferredOK(F, a.src, a.to, a.done, t);
    forall x | x in b.vf ensures DeferredOK(F, b.src, b.to, b.done, x) {
      assert DeferredOK(F, a.src, a.to, a.done, x);
    }
    forall z | z in b.canon ensures CanonAt(F, b.canon, b.src, b.to, b.done, z) {
      assert CanonAt(F, a.canon, a.src, a.to, a.done, z);
    }
  }

  // ---------------------------------------------------------------- the theorem

  lemma {:induction false} SlotMeaning(F: FromSpace, st: State, t: Slot) returns (n: nat, t': Slot)
    requires F.Valid() && FixInv(F, st) && st.vf == [] && t in st.src
    ensures F.Data(st.src[t]) && Leads(st.to, t, n, t') && t' in st.to
    ensures CopyOfWord(F, st.fwd, st.canon, F.Term(st.src[t]), t', st.to[t'])
    decreases if F.Data(st.src[t]) && st.src[t] in F.rank then F.rank[st.src[t]] else 0
  {
    FixParts(F, st);
    assert SlotOK(F, st, t);
    var s := st.src[t];
    assert F.Good(s);
    var z := F.Term(s);
    if st.to[t].Ref? {
      var r := st.to[t].slot;
      if z in st.canon && st.canon[z] == r {
        assert CanonAt(F, st.canon, st.src, st.to, st.done, z);
        n, t' := 1, r;
        assert Leads(st.to, r, 0, r);
      } else {
        assert F.Good(st.src[r]);
        n, t' := SlotMeaning(F, st, r);
        n := n + 1;
      }
    } else {
      n, t' := 0, t;
    }
  }

  lemma CollectionCopiesGraph(F: FromSpace, st: State)
    requires F.Valid() && FixInv(F, st) && st.vf == []
    ensures Isomorphic(F, st.to, st.next, st.fwd, st.canon)
  {
    FixParts(F, st);
    forall s | F.Data(s) && s.cell in st.fwd ensures SlotCopied(F, st.to, st.fwd, st.canon, s) {
      assert CopyAt(st.fwd, st.src, s);
      var n, t' := SlotMeaning(F, st, Slot(st.fwd[s.cell], s.idx));
    }
    forall s | F.Data(s) && s.cell in st.fwd
      ensures match F.Value(s) case LTuple(d) => d in st.fwd case SRecord(d) => d in st.fwd case _ => true
    {
      assert SlotCopied(F, st.to, st.fwd, st.canon, s);
    }
    forall c, d | c in st.fwd && d in st.fwd && st.fwd[c] == st.fwd[d] ensures c == d {
      assert CellAt(F, st.fwd, st.owner, st.next, c) && CellAt(F, st.fwd, st.owner, st.next, d);
    }
    forall c | c in st.fwd
      ensures F.base <= st.fwd[c] < st.next
      ensures c in F.shape && F.shape[c].Rec? ==>
        Slot(st.fwd[c], 0) in st.to && st.to[Slot(st.fwd[c], 0)] == Arity(F.shape[c].width)
    {
      assert CellAt(F, st.fwd, st.owner, st.next, c) && HeaderAt(F, st.fwd, st.to, c);
    }
    forall y, z | y in st.canon && z in st.canon && st.canon[y] == st.canon[z] ensures y == z {
      assert CanonAt(F, st.canon, st.src, st.to, st.done, y) && CanonAt(F, st.canon, st.src, st.to, st.done, z);
    }
    forall z | z in st.canon ensures PlacedAt(F, st.to, st.canon, z) {
      assert CanonAt(F, st.canon, st.src, st.to, st.done, z);
    }
    forall c' | F.base <= c' < st.next ensures Accounted(st.fwd, st.canon, c') {
      assert OwnerAt(F, st.fwd, st.canon, st.owner, c');
      if st.owner[c'].HeapVar? {
        forall y | y in st.canon && st.canon[y].cell == c' ensures y == st.owner[c'].slot {
          assert CanonAt(F, st.canon, st.src, st.to, st.done, y);
          assert SrcAt(F, st.fwd, st.src, st.canon, st.owner, st.next, st.canon[y]);
        }
      }
    }
    assert F.Closed(st.fwd.Keys);
  }

  // ---------------------------------------------------------------- consequences

  // Two references end in the same to-space variable exactly when they ended in the same variable.
  lemma VariableIdentityKept(F: FromSpace, to: map<Slot, Word>, next: nat, fwd: map<nat, nat>, canon: map<Slot, Slot>,
                             s1: Slot, s2: Slot, n1: nat, t1: Slot, n2: nat, t2: Slot)
    requires F.Valid() && Isomorphic(F, to, next, fwd, canon)
    requires F.Data(s1) && F.Data(s2) && s1.cell in fwd && s2.cell in fwd
    requires (F.Value(s1).OptVar? || F.Value(s1).Var?) && (F.Value(s2).OptVar? || F.Value(s2).Var?)
    requires Leads(to, Slot(fwd[s1.cell], s1.idx), n1, t1) && Leads(to, Slot(fwd[s2.cell], s2.idx), n2, t2)
    ensures t1 == t2 <==> F.Term(s1) == F.Term(s2)
    ensures t1 in to && to[t1] == Copied(F.Value(s1))
  {
    MeaningIs(F, to, next, fwd, canon, s1, n1, t1);
    MeaningIs(F, to, next, fwd, canon, s2, n2, t2);
  }

  lemma MeaningIs(F: FromSpace, to: map<Slot, Word>, next: nat, fwd: map<nat, nat>, canon: map<Slot, Slot>, s: Slot,
                  n: nat, t: Slot)
    requires F.Valid() && Isomorphic(F, to, next, fwd, canon) && F.Data(s) && s.cell in fwd
    requires Leads(to, Slot(fwd[s.cell], s.idx), n, t)
    ensures t in to && CopyOfWord(F, fwd, canon, F.Term(s), t, to[t])
  {
    assert SlotCopied(F, to, fwd, canon, s);
    var m: nat, t' :| Leads(to, Slot(fwd[s.cell], s.idx), m, t') && t' in to
      && CopyOfWord(F, fwd, canon, F.Term(s), t', to[t']);
    LeadsUnique(to, Slot(fwd[s.cell], s.idx), n, t, m, t');
  }

  // The cell that the mutator reaches from the roots by a sequence of slot selections, if there is one.
  datatype Reached = Cell(cell: nat) | NoCell

  ghost function FromPath(F: FromSpace, path: seq<nat>): (r: Reached)
    requires F.Valid()
  {
    if path == [] then Cell(F.root)
    else match FromPath(F, path[..|path| - 1])
      case NoCell => NoCell
      case Cell(c) =>
        var s := Slot(c, path[|path| - 1]);
        if !F.Data(s) then NoCell else PointsTo(F.Value(s))
  }

  ghost function PointsTo(w: Word): Reached {
    match w
    case LTuple(d) => Cell(d)
    case SRecord(d) => Cell(d)
    case _ => NoCell
  }

  // The same walk in to-space: r is what the path reaches from the copy of the roots.
  ghost predicate ToPath(F: FromSpace, to: map<Slot, Word>, root': nat, path: seq<nat>, r: Reached)
    requires F.Valid()
  {
    if path == [] then r == Cell(root')
    else exists c' :: ToPath(F, to, root', path[..|path| - 1], Cell(c')) && Selects(to, Slot(c', path[|path| - 1]), r)
  }

  ghost predicate Selects(to: map<Slot, Word>, t: Slot, r: Reached) {
    exists n: nat, t' :: Leads(to, t, n, t') && t' in to && PointsTo(to[t']) == r
  }

  // Every path through the graph reaches the copy of what it reached before; so two paths reach
  // one cell afterwards exactly when they did before.
  lemma {:induction false} PathsKept(F: FromSpace, to: map<Slot, Word>, next: nat, fwd: map<nat, nat>,
                                     canon: map<Slot, Slot>, path: seq<nat>)
    requires F.Valid() && Isomorphic(F, to, next, fwd, canon) && FromPath(F, path).Cell?
    ensures FromPath(F, path).cell in fwd
    ensures ToPath(F, to, fwd[F.root], path, Cell(fwd[FromPath(F, path).cell]))
  {
    if path != [] {
      var init := path[..|path| - 1];
      PathsKept(F, to, next, fwd, canon, init);
      var s := Slot(FromPath(F, init).cell, path[|path| - 1]);
      assert SlotCopied(F, to, fwd, canon, s);
    }
  }

  lemma {:induction false} ToPathUnique(F: FromSpace, to: map<Slot, Word>, root': nat, path: seq<nat>, r1: Reached,
                                        r2: Reached)
    requires F.Valid() && ToPath(F, to, root', path, r1) && ToPath(F, to, root', path, r2)
    ensures r1 == r2
  {
    if path != [] {
      var init, i := path[..|path| - 1], path[|path| - 1];
      var c1 :| ToPath(F, to, root', init, Cell(c1)) && Selects(to, Slot(c1, i), r1);
      var c2 :| ToPath(F, to, root', init, Cell(c2)) && Selects(to, Slot(c2, i), r2);
      ToPathUnique(F, to, root', init, Cell(c1), Cell(c2));
      var n1: nat, t1 :| Leads(to, Slot(c1, i), n1, t1) && t1 in to && PointsTo(to[t1]) == r1;
      var n2: nat, t2 :| Leads(to, Slot(c1, i), n2, t2) && t2 in to && PointsTo(to[t2]) == r2;
      LeadsUnique(to, Slot(c1, i), n1, t1, n2, t2);
    }
  }

  lemma SharingKept(F: FromSpace, to: map<Slot, Word>, next: nat, fwd: map<nat, nat>, canon: map<Slot, Slot>,
                    p: seq<nat>, q: seq<nat>, c1: nat, c2: nat)
    requires F.Valid() && Isomorphic(F, to, next, fwd, canon) && FromPath(F, p).Cell? && FromPath(F, q).Cell?
    requires ToPath(F, to, fwd[F.root], p, Cell(c1)) && ToPath(F, to, fwd[F.root], q, Cell(c2))
    ensures c1 == c2 <==> FromPath(F, p) == FromPath(F, q)
  {
    PathsKept(F, to, next, fwd, canon, p);
    PathsKept(F, to, next, fwd, canon, q);
    ToPathUnique(F, to, fwd[F.root], p, Cell(c1), Cell(fwd[FromPath(F, p).cell]));
    ToPathUnique(F, to, fwd[F.root], q, Cell(c2), Cell(fwd[FromPath(F, q).cell]));
  }
}

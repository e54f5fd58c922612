// The memory that the copying collector works on, and what the collector keeps true of it.
//
// Memory is flat, as in the emulator: a slot is a word-sized field of a cell, and the collector
// reads and overwrites slots one at a time.  From-space is described by its initial contents,
// which never change; `State` is the current memory together with the proof's bookkeeping.
module CollectorHeap {

  datatype Slot = Slot(cell: nat, idx: nat)

  // A tagged word.  `Mark` and `Moved` are forward marks; an unaligned slot cannot be the target
  // of a mark, so a variable stored there is forwarded by a plain `Ref` instead.
  datatype Word =
    | Null
    | SmallInt(i: int)
    | Atom(name: nat)
    | LTuple(cell: nat)
    | SRecord(cell: nat)
    | Ref(slot: Slot)
    | OptVar(board: nat, copied: bool)
    | Var(body: nat, copied: bool)
    | Mark(slot: Slot)
    | Arity(width: nat)
    | Moved(cell: nat)

  // A list pair has two slots; a record has a header, a label and its arguments; a block is
  // the array of roots.
  datatype Shape = Pair | Rec(width: nat) | Block(size: nat)

  // Entries of the collector's work stack.
  datatype Entry = PtrLTuple(cell: nat) | PtrSRecord(cell: nat)

  predicate IsData(shape: Shape, i: nat) {
    match shape
    case Pair => i < 2
    case Rec(w) => 1 <= i <= w + 1
    case Block(n) => i < n
  }

  // Cells are double-word aligned, so a slot is aligned when its index is even.
  predicate Aligned(s: Slot) { s.idx % 2 == 0 }

  // The forward mark left in a variable's old slot.
  function Forward(t: Slot): Word {
    if Aligned(t) then Mark(t) else Ref(t)
  }

  function Copied(w: Word): Word {
    match w
    case OptVar(b, _) => OptVar(b, true)
    case Var(v, _) => Var(v, true)
    case _ => w
  }

  // ---------------------------------------------------------------- from-space

  datatype FromSpace = FromSpace(
    words: map<Slot, Word>,   // contents before the collection
    shape: map<nat, Shape>,
    rank: map<Slot, nat>,     // witnesses that reference chains end
    home: map<nat, Slot>,     // the one slot holding each ordinary variable
    root: nat,                // the cell holding the roots
    base: nat)                // cells below are from-space, the others to-space
  {
    ghost predicate Data(s: Slot) {
      s.cell in shape && IsData(shape[s.cell], s.idx)
    }

    ghost predicate Header(s: Slot) {
      s.cell in shape && shape[s.cell].Rec? && s.idx == 0
    }

    // A data slot holds a word that the mutator can have put there.
    ghost predicate Good(s: Slot) {
      s in words && s in rank &&
      match words[s]
      case Null => s.cell in shape && !shape[s.cell].Pair?
      case SmallInt(_) => true
      case Atom(_) => true
      case LTuple(c) => c in shape && shape[c].Pair?
      case SRecord(c) => c in shape && shape[c].Rec?
      case Ref(r) => Data(r) && r in words && words[r] != Null && r in rank && rank[r] < rank[s]
      case OptVar(_, copied) => !copied
      case Var(v, copied) => !copied && v in home && home[v] == s
      case Mark(_) => false
      case Arity(_) => false
      case Moved(_) => false
    }

    ghost predicate Valid() {
      && (forall s :: s in words <==> Data(s) || Header(s))
      && (forall s {:trigger Good(s)} :: Data(s) ==> Good(s))
      && (forall s {:trigger Header(s)} :: Header(s) ==> words[s] == Arity(shape[s.cell].width))
      && (forall c :: c in shape ==> c < base)
      && root in shape && shape[root].Block? && shape[root].size > 0
    }

    // The end of the reference chain that starts in s.
    ghost function Term(s: Slot): (z: Slot)
      requires Valid() && Data(s)
      ensures z in words && s in words && z in rank && s in rank
      ensures Data(z) && !words[z].Ref?
      ensures z == s || (words[s].Ref? && rank[z] < rank[s])
      ensures words[z] == Null ==> z == s
      decreases if s in rank then rank[s] else 0
    {
      assert Good(s);
      if words[s].Ref? then Term(words[s].slot) else s
    }

    // What a slot means once its references are followed.
    ghost function Value(s: Slot): Word
      requires Valid() && Data(s)
    {
      words[Term(s)]
    }

    // A set of cells that contains the roots and everything its members point to.
    ghost predicate Closed(live: set<nat>)
      requires Valid()
    {
      root in live &&
      forall s :: Data(s) && s.cell in live ==>
        match Value(s)
        case LTuple(d) => d in live
        case SRecord(d) => d in live
        case _ => true
    }

    // Every member of k is reachable: it lies in every closed set.
    ghost predicate Reachable(k: set<nat>)
      requires Valid()
    {
      forall live :: Closed(live) ==> k <= live
    }

    ghost predicate SelfHeaded(d: nat)
      requires Valid()
    {
      Data(Slot(d, 0)) && Value(Slot(d, 0)) == LTuple(d)
    }

    // No list pair of `live` has a tail that is a pair whose head is that pair itself.
    ghost predicate TailSafe(live: set<nat>)
      requires Valid()
    {
      forall c :: c in live && c in shape && shape[c].Pair? && Data(Slot(c, 1)) ==>
        match Value(Slot(c, 1))
        case LTuple(d) => !SelfHeaded(d)
        case _ => true
    }
  }

  lemma ReachableGrows(F: FromSpace, k: set<nat>, s: Slot, d: nat)
    requires F.Valid() && F.Reachable(k) && F.Data(s) && s.cell in k
    requires F.Value(s) == LTuple(d) || F.Value(s) == SRecord(d)
    ensures F.Reachable(k + {d})
  {
    forall live | F.Closed(live) ensures k + {d} <= live {
      assert k <= live;
    }
  }

  // ---------------------------------------------------------------- the state

  // A second copy of a pair is made when the tail walk meets a pair that is its own head.
  datatype Owner = CopyOf(cell: nat) | HeapVar(slot: Slot) | Second(cell: nat)

  datatype State = State(
    from: map<Slot, Word>,     // from-space memory, overwritten by forward marks
    to: map<Slot, Word>,       // to-space memory; a slot is absent until it is written
    next: nat,                 // next free cell
    stack: seq<Entry>,         // work stack
    vf: seq<Slot>,             // deferred variable references
    bodies: map<nat, Slot>,    // ordinary variables already copied, by variable body
    // bookkeeping of the proof
    fwd: map<nat, nat>,        // copy of each copied cell
    src: map<Slot, Slot>,      // what each to-space slot is a copy of
    canon: map<Slot, Slot>,    // the one copy of each copied variable
    owner: map<nat, Owner>,    // what each to-space cell was allocated for
    done: set<Slot>,           // to-space slots with their final contents
    twice: map<nat, nat>)      // the second copies of pairs that were copied twice

  // What a finished to-space slot t, a copy of s, holds.
  ghost predicate Image(F: FromSpace, st: State, t: Slot, s: Slot, w: Word)
    requires F.Valid() && F.Data(s)
  {
    var z := F.Term(s);
    match w
    case Ref(r) =>
      || (r in st.src && F.Data(st.src[r]) && F.Term(st.src[r]) == z && F.rank[st.src[r]] < F.rank[s])
      || (z in st.canon && st.canon[z] == r && r != t)
      || (r == z && z != s && F.words[z].OptVar? && t in st.vf)
    case LTuple(d') => F.words[z].LTuple? && F.words[z].cell in st.fwd && st.fwd[F.words[z].cell] == d'
    case SRecord(d') => F.words[z].SRecord? && F.words[z].cell in st.fwd && st.fwd[F.words[z].cell] == d'
    case OptVar(_, _) => F.words[z].OptVar? && w == Copied(F.words[z]) && z in st.canon && st.canon[z] == t
    case Var(_, _) => F.words[z].Var? && w == Copied(F.words[z]) && z in st.canon && st.canon[z] == t
    case SmallInt(_) => F.words[z] == w
    case Atom(_) => F.words[z] == w
    case Null => F.words[z] == w
    case _ => false
  }

  ghost predicate SlotOK(F: FromSpace, st: State, t: Slot)
    requires F.Valid()
  {
    t in st.src && t in st.to && F.Data(st.src[t]) && Image(F, st, t, st.src[t], st.to[t])
  }

  // The parts of the invariant are stated item by item; each quantifier is instantiated only
  // where a proof names the item.

  ghost predicate CellAt(F: FromSpace, fwd: map<nat, nat>, owner: map<nat, Owner>, next: nat, c: nat) {
    && c in fwd && c in F.shape && F.base <= fwd[c] < next
    && fwd[c] in owner && owner[fwd[c]] == CopyOf(c)
  }

  ghost predicate CopyAt(fwd: map<nat, nat>, src: map<Slot, Slot>, s: Slot) {
    s.cell in fwd && Slot(fwd[s.cell], s.idx) in src && src[Slot(fwd[s.cell], s.idx)] == s
  }

  // Every to-space slot belongs to the copy of a cell or holds the copy of a variable.
  ghost predicate SrcAt(F: FromSpace, fwd: map<nat, nat>, src: map<Slot, Slot>, canon: map<Slot, Slot>,
                        owner: map<nat, Owner>, next: nat, t: Slot)
  {
    && t in src && F.Data(src[t]) && F.base <= t.cell < next && t.cell in owner
    && (match owner[t.cell]
        case CopyOf(c) => c in F.shape && IsData(F.shape[c], t.idx) && src[t] == Slot(c, t.idx) && c in fwd
          && fwd[c] == t.cell
        case HeapVar(z) => src[t] == z && z in canon && canon[z] == t
        case Second(_) => false)
  }

  ghost predicate OwnerAt(F: FromSpace, fwd: map<nat, nat>, canon: map<Slot, Slot>, owner: map<nat, Owner>, c': nat) {
    && c' in owner
    && (match owner[c']
        case CopyOf(c) => c in fwd && fwd[c] == c'
        case HeapVar(z) => z in canon && canon[z].cell == c'
        case Second(_) => true)
  }

  ghost predicate CellsOK(F: FromSpace, fwd: map<nat, nat>, src: map<Slot, Slot>, canon: map<Slot, Slot>,
                          owner: map<nat, Owner>, next: nat)
  {
    && F.root in fwd && F.base <= next
    && (forall c {:trigger CellAt(F, fwd, owner, next, c)} :: c in fwd ==> CellAt(F, fwd, owner, next, c))
    && (forall s {:trigger CopyAt(fwd, src, s)} :: F.Data(s) && s.cell in fwd ==> CopyAt(fwd, src, s))
    && (forall t {:trigger SrcAt(F, fwd, src, canon, owner, next, t)} ::
      t in src ==> SrcAt(F, fwd, src, canon, owner, next, t))
    && (forall c' {:trigger OwnerAt(F, fwd, canon, owner, c')} ::
      F.base <= c' < next ==> OwnerAt(F, fwd, canon, owner, c'))
  }

  ghost predicate HeaderAt(F: FromSpace, fwd: map<nat, nat>, to: map<Slot, Word>, c: nat) {
    c in fwd && c in F.shape && F.shape[c].Rec? ==>
      Slot(fwd[c], 0) in to && to[Slot(fwd[c], 0)] == Arity(F.shape[c].width)
  }

  ghost predicate ToOK(F: FromSpace, fwd: map<nat, nat>, to: map<Slot, Word>, next: nat) {
    && (forall c {:trigger HeaderAt(F, fwd, to, c)} :: c in fwd ==> HeaderAt(F, fwd, to, c))
    && (forall t :: t in to ==> t.cell < next && !to[t].Mark? && !to[t].Moved?)
  }

  // From-space slots keep their contents, except for the marks the collector has left.
  ghost predicate FromAt(F: FromSpace, from: map<Slot, Word>, fwd: map<nat, nat>, canon: map<Slot, Slot>,
                         open: set<nat>, s: Slot)
  {
    s in F.words && s in from && s.cell in F.shape &&
    if F.shape[s.cell].Rec? && s.idx == 0 then
      from[s] == if s.cell in fwd then Moved(fwd[s.cell]) else F.words[s]
    else if F.shape[s.cell].Pair? && s.idx == 0 && s.cell in fwd && s.cell !in open then
      from[s] == Mark(Slot(fwd[s.cell], 0))
    else if F.words[s].OptVar? && s in canon then
      from[s] == Forward(canon[s])
    else
      from[s] == F.words[s]
  }

  ghost predicate FromOK(F: FromSpace, from: map<Slot, Word>, fwd: map<nat, nat>, canon: map<Slot, Slot>,
                         open: set<nat>)
  {
    && from.Keys == F.words.Keys
    && (forall s {:trigger FromAt(F, from, fwd, canon, open, s)} ::
      s in F.words ==> FromAt(F, from, fwd, canon, open, s))
  }

  // No mark leads to a slot that a mark cannot lead to.
  lemma MarksAligned(F: FromSpace, st: State, open: set<nat>, work: set<Slot>, s: Slot)
    requires F.Valid() && Inv(F, st, open, work) && s in st.from && st.from[s].Mark?
    ensures st.from[s].slot.idx % 2 == 0
  {
    Parts(F, st, open, work);
    assert FromAt(F, st.from, st.fwd, st.canon, open, s);
    assert F.Data(s) ==> F.Good(s);
  }

  ghost predicate CanonAt(F: FromSpace, canon: map<Slot, Slot>, src: map<Slot, Slot>, to: map<Slot, Word>,
                          done: set<Slot>, z: Slot)
  {
    && z in canon && F.Data(z) && z in F.words && (F.words[z].OptVar? || F.words[z].Var?)
    && canon[z] in src && src[canon[z]] == z
    && canon[z] in done && canon[z] in to && to[canon[z]] == Copied(F.words[z])
  }

  ghost predicate CanonOK(F: FromSpace, canon: map<Slot, Slot>, src: map<Slot, Slot>, to: map<Slot, Word>,
                          done: set<Slot>)
  {
    forall z {:trigger CanonAt(F, canon, src, to, done, z)} :: z in canon ==> CanonAt(F, canon, src, to, done, z)
  }

  // Before the deferred references are fixed, a copied optimized variable sits in the copy of its
  // cell, and a copied ordinary variable is marked in its body.
  ghost predicate VarAt(F: FromSpace, canon: map<Slot, Slot>, fwd: map<nat, nat>, bodies: map<nat, Slot>, z: Slot) {
    && z in canon && z in F.words
    && (F.words[z].OptVar? ==> z.cell in fwd && canon[z] == Slot(fwd[z.cell], z.idx))
    && (F.words[z].Var? ==> F.words[z].body in bodies)
  }

  ghost predicate BodyAt(F: FromSpace, canon: map<Slot, Slot>, bodies: map<nat, Slot>, v: nat) {
    v in bodies && v in F.home && F.home[v] in canon && canon[F.home[v]] == bodies[v]
  }

  ghost predicate VarsOK(F: FromSpace, canon: map<Slot, Slot>, fwd: map<nat, nat>, bodies: map<nat, Slot>) {
    && (forall z {:trigger VarAt(F, canon, fwd, bodies, z)} :: z in canon ==> VarAt(F, canon, fwd, bodies, z))
    && (forall v {:trigger BodyAt(F, canon, bodies, v)} :: v in bodies ==> BodyAt(F, canon, bodies, v))
  }

  ghost predicate DoneOK(F: FromSpace, st: State)
    requires F.Valid()
  {
    forall t {:trigger SlotOK(F, st, t)} :: t in st.done ==> SlotOK(F, st, t)
  }

  // Every to-space slot is finished, or being worked on, or its cell waits on the stack.
  ghost predicate CoveredAt(src: map<Slot, Slot>, done: set<Slot>, stack: seq<Entry>, work: set<Slot>, t: Slot) {
    t in src && (t in done || t in work || PtrLTuple(src[t].cell) in stack || PtrSRecord(src[t].cell) in stack)
  }

  ghost predicate CoverOK(src: map<Slot, Slot>, done: set<Slot>, stack: seq<Entry>, work: set<Slot>) {
    && (forall t {:trigger CoveredAt(src, done, stack, work, t)} :: t in src ==> CoveredAt(src, done, stack, work, t))
    && work <= src.Keys && work !! done
  }

  ghost predicate EntryOK(F: FromSpace, fwd: map<nat, nat>, to: map<Slot, Word>, done: set<Slot>,
                          open: set<nat>, work: set<Slot>, e: Entry)
  {
    var c := e.cell;
    && c in fwd && c in F.shape && c !in open
    && (forall i: nat :: IsData(F.shape[c], i) ==> Slot(fwd[c], i) !in done && Slot(fwd[c], i) !in work)
    && (match e
        case PtrLTuple(_) =>
          && F.shape[c].Pair? && Slot(c, 0) in F.words
          && Slot(fwd[c], 0) in to && to[Slot(fwd[c], 0)] == F.words[Slot(c, 0)]
        case PtrSRecord(_) => F.shape[c].Rec?)
  }

  // An entry of the stack waits for the first visit to its cell, or for the visit to a pair that was copied twice.
  ghost predicate Pending(F: FromSpace, fwd: map<nat, nat>, to: map<Slot, Word>, done: set<Slot>, twice: map<nat, nat>,
                          open: set<nat>, work: set<Slot>, e: Entry)
  {
    || EntryOK(F, fwd, to, done, open, work, e)
    || (e.PtrLTuple? && e.cell in twice && e.cell in fwd && e.cell !in open)
  }

  ghost predicate Distinct<T>(s: seq<T>) {
    forall j, k :: 0 <= j < k < |s| ==> s[j] != s[k]
  }

  lemma DistinctAppend<T>(s: seq<T>, x: T)
    requires Distinct(s) && x !in s
    ensures Distinct(s + [x])
  {
  }

  lemma DistinctInit<T>(s: seq<T>)
    requires Distinct(s) && |s| > 0
    ensures Distinct(s[..|s| - 1]) && s[|s| - 1] !in s[..|s| - 1]
    ensures forall x :: x in s ==> x == s[|s| - 1] || x in s[..|s| - 1]
  {
    assert s == s[..|s| - 1] + [s[|s| - 1]];
  }

  ghost predicate StackOK(F: FromSpace, fwd: map<nat, nat>, to: map<Slot, Word>, done: set<Slot>, stack: seq<Entry>,
                          twice: map<nat, nat>, open: set<nat>, work: set<Slot>)
  {
    && (forall e {:trigger Pending(F, fwd, to, done, twice, open, work, e)} ::
      e in stack ==> Pending(F, fwd, to, done, twice, open, work, e))
    && Distinct(stack)
  }

  // The heap has no set of cells that contains what is reachable and is free of tails that are their own heads.
  ghost predicate Unsafe(F: FromSpace)
    requires F.Valid()
  {
    forall live :: F.Closed(live) ==> !F.TailSafe(live)
  }

  // A pair that was copied twice: its mark names the first copy, whose head refers to the second one; that holds
  // nothing but the old head.  The pair waits on the stack.
  ghost predicate TwiceAt(F: FromSpace, st: State, open: set<nat>, work: set<Slot>, d: nat)
    requires F.Valid()
  {
    && d in st.twice && d in st.fwd && d in F.shape && F.shape[d].Pair? && F.SelfHeaded(d) && d !in open
    && PtrLTuple(d) in st.stack
    && (var t, u := Slot(st.fwd[d], 0), Slot(st.twice[d], 0);
        && t in st.to && st.to[t] == LTuple(u.cell) && t !in st.done && t !in work
        && F.base <= u.cell < st.next && u.cell in st.owner && st.owner[u.cell] == Second(d)
        && u in st.to && Slot(d, 0) in F.words && st.to[u] == F.words[Slot(d, 0)])
    && (forall t :: t in st.to && t.cell == st.twice[d] ==> t.idx == 0)
  }

  ghost predicate TwiceOK(F: FromSpace, st: State, open: set<nat>, work: set<Slot>)
    requires F.Valid()
  {
    && (forall d {:trigger TwiceAt(F, st, open, work, d)} :: d in st.twice ==> TwiceAt(F, st, open, work, d))
    && (forall c' :: c' in st.owner && c' < st.next && st.owner[c'].Second? ==> st.owner[c'].cell in st.twice)
    && (st.twice != map[] ==> Unsafe(F))
  }

  // A deferred slot refers to the old variable.
  ghost predicate DeferredOK(F: FromSpace, src: map<Slot, Slot>, to: map<Slot, Word>, done: set<Slot>, t: Slot)
    requires F.Valid()
  {
    && t in done && t in src && t in to && F.Data(src[t])
    && to[t] == Ref(F.Term(src[t])) && F.Term(src[t]) != src[t]
    && F.words[F.Term(src[t])].OptVar?
  }

  ghost predicate DeferralsOK(F: FromSpace, src: map<Slot, Slot>, to: map<Slot, Word>, done: set<Slot>, vf: seq<Slot>)
    requires F.Valid()
  {
    && (forall t {:trigger DeferredOK(F, src, to, done, t)} :: t in vf ==> DeferredOK(F, src, to, done, t))
    && Distinct(vf)
  }

  // What has been copied is copied right.  `open` holds the pair whose forward mark is temporarily absent.
  ghost predicate Consistent(F: FromSpace, st: State, open: set<nat>)
    requires F.Valid()
  {
    && CellsOK(F, st.fwd, st.src, st.canon, st.owner, st.next)
    && ToOK(F, st.fwd, st.to, st.next)
    && FromOK(F, st.from, st.fwd, st.canon, open)
    && CanonOK(F, st.canon, st.src, st.to, st.done)
    && VarsOK(F, st.canon, st.fwd, st.bodies)
    && DoneOK(F, st)
    && DeferralsOK(F, st.src, st.to, st.done, st.vf)
    && F.Reachable(st.fwd.Keys)
  }

  // What has not been copied is waiting.  `work` holds the to-space slots that the running routine has still to fill.
  ghost predicate Outstanding(F: FromSpace, st: State, open: set<nat>, work: set<Slot>)
    requires F.Valid()
  {
    && CoverOK(st.src, st.done, st.stack, work)
    && StackOK(F, st.fwd, st.to, st.done, st.stack, st.twice, open, work)
    && TwiceOK(F, st, open, work)
  }

  datatype Part = Copying | Waiting

  ghost predicate Holds(part: Part, F: FromSpace, st: State, open: set<nat>, work: set<Slot>)
    requires F.Valid()
  {
    match part
    case Copying => Consistent(F, st, open)
    case Waiting => Outstanding(F, st, open, work)
  }

  // The collector's invariant.  A proof that needs its parts names them.
  ghost predicate Inv(F: FromSpace, st: State, open: set<nat>, work: set<Slot>)
    requires F.Valid()
  {
    forall part {:trigger Holds(part, F, st, open, work)} :: Holds(part, F, st, open, work)
  }

  lemma Parts(F: FromSpace, st: State, open: set<nat>, work: set<Slot>)
    requires F.Valid() && Inv(F, st, open, work)
    ensures Consistent(F, st, open) && Outstanding(F, st, open, work)
  {
    assert Holds(Copying, F, st, open, work) && Holds(Waiting, F, st, open, work);
  }

  // How the state may change: nothing that is finished changes.
  ghost predicate Grows(a: State, b: State) {
    && (forall c :: c in a.fwd ==> c in b.fwd && b.fwd[c] == a.fwd[c])
    && (forall t :: t in a.src ==> t in b.src && b.src[t] == a.src[t])
    && (forall z :: z in a.canon ==> z in b.canon && b.canon[z] == a.canon[z])
    && a.done <= b.done
    && (forall t :: t in a.done && t in a.to ==> t in b.to && b.to[t] == a.to[t])
    && (forall t :: t in a.vf ==> t in b.vf)
    && (a.fwd.Keys == b.fwd.Keys ==> a.stack == b.stack)
  }

  lemma GrowsTransitive(a: State, b: State, c: State)
    requires Grows(a, b) && Grows(b, c)
    ensures Grows(a, c)
  {
    assert a.fwd.Keys <= b.fwd.Keys <= c.fwd.Keys;
  }

  lemma SlotsStay(F: FromSpace, a: State, b: State)
    requires F.Valid() && Grows(a, b) && DoneOK(F, a)
    ensures forall t {:trigger SlotOK(F, b, t)} :: t in a.done ==> SlotOK(F, b, t)
  {
    forall t | t in a.done ensures SlotOK(F, b, t) {
      assert SlotOK(F, a, t);
    }
  }

  lemma DeferralsStay(F: FromSpace, a: State, b: State)
    requires F.Valid() && Grows(a, b) && DeferralsOK(F, a.src, a.to, a.done, a.vf) && b.vf == a.vf
    ensures DeferralsOK(F, b.src, b.to, b.done, b.vf)
  {
    forall t | t in b.vf ensures DeferredOK(F, b.src, b.to, b.done, t) {
      assert DeferredOK(F, a.src, a.to, a.done, t);
    }
  }

  // A step that fills only slots in work and slots of new cells leaves the pairs that were copied twice alone.
  ghost predicate Leaves(a: State, b: State, work: set<Slot>, work': set<Slot>) {
    && b.twice == a.twice && a.next <= b.next
    && (forall c :: c in a.fwd ==> c in b.fwd && b.fwd[c] == a.fwd[c])
    && (forall c' :: c' in a.owner && c' < a.next ==> c' in b.owner && b.owner[c'] == a.owner[c'])
    && (forall c' :: c' in b.owner && c' < b.next && b.owner[c'].Second? ==> c' in a.owner && c' < a.next)
    && (forall e :: e in a.stack ==> e in b.stack)
    && (forall t :: t in a.to ==> t in b.to)
    && (forall t :: t in b.to ==> (t in a.to && b.to[t] == a.to[t]) || t in work || t.cell >= a.next)
    && (forall t :: t in b.done ==> t in a.done || t in work || t.cell >= a.next)
    && (forall t :: t in work' ==> t in work || t.cell >= a.next)
  }

  lemma TwiceStays(F: FromSpace, a: State, b: State, open: set<nat>, open': set<nat>, work: set<Slot>,
                   work': set<Slot>)
    requires F.Valid() && CellsOK(F, a.fwd, a.src, a.canon, a.owner, a.next) && TwiceOK(F, a, open, work)
    requires Leaves(a, b, work, work') && work <= a.src.Keys
    requires forall d :: d in open' ==> d in open || PtrLTuple(d) !in a.stack
    ensures TwiceOK(F, b, open', work')
  {
    forall d | d in b.twice ensures TwiceAt(F, b, open', work', d) {
      assert TwiceAt(F, a, open, work, d);
      assert CellAt(F, a.fwd, a.owner, a.next, d);
      forall t | t in work ensures t.cell != a.twice[d] { assert SrcAt(F, a.fwd, a.src, a.canon, a.owner, a.next, t); }
    }
  }

  // ---------------------------------------------------------------- finishing a slot

  // An unfinished slot: where it is, and that its variable, if it is one, has not been copied.
  lemma UnfinishedSlot(F: FromSpace, a: State, t: Slot)
    requires t in a.src && t !in a.done
    requires CellsOK(F, a.fwd, a.src, a.canon, a.owner, a.next) && CanonOK(F, a.canon, a.src, a.to, a.done)
    requires VarsOK(F, a.canon, a.fwd, a.bodies)
    ensures F.Data(a.src[t]) && a.src[t].cell in a.fwd
    ensures t == Slot(a.fwd[a.src[t].cell], a.src[t].idx)
    ensures a.src[t] in F.words && F.words[a.src[t]].OptVar? ==> a.src[t] !in a.canon
  {
    assert SrcAt(F, a.fwd, a.src, a.canon, a.owner, a.next, t);
    var s := a.src[t];
    if s in a.canon {
      assert CanonAt(F, a.canon, a.src, a.to, a.done, s);
      assert VarAt(F, a.canon, a.fwd, a.bodies, s);
    }
    forall z | z in a.canon ensures a.canon[z] in a.done {
      assert CanonAt(F, a.canon, a.src, a.to, a.done, z);
    }
  }

  lemma FinishTo(F: FromSpace, a: State, t: Slot, w: Word)
    requires CellsOK(F, a.fwd, a.src, a.canon, a.owner, a.next) && ToOK(F, a.fwd, a.to, a.next) && t in a.src
    requires !w.Mark? && !w.Moved?
    ensures ToOK(F, a.fwd, a.to[t := w], a.next)
  {
    var to := a.to[t := w];
    assert SrcAt(F, a.fwd, a.src, a.canon, a.owner, a.next, t);
    forall c | c in a.fwd ensures HeaderAt(F, a.fwd, to, c) {
      assert HeaderAt(F, a.fwd, a.to, c);
      assert CellAt(F, a.fwd, a.owner, a.next, c);
    }
  }

  lemma FinishStack(F: FromSpace, a: State, t: Slot, w: Word, open: set<nat>, work: set<Slot>)
    requires t in work
    requires CoverOK(a.src, a.done, a.stack, work) && StackOK(F, a.fwd, a.to, a.done, a.stack, a.twice, open, work)
    ensures CoverOK(a.src, a.done + {t}, a.stack, work - {t})
    ensures StackOK(F, a.fwd, a.to[t := w], a.done + {t}, a.stack, a.twice, open, work - {t})
  {
    forall e | e in a.stack ensures Pending(F, a.fwd, a.to[t := w], a.done + {t}, a.twice, open, work - {t}, e) {
      assert Pending(F, a.fwd, a.to, a.done, a.twice, open, work, e);
      if e.cell in F.shape && F.shape[e.cell].Pair? { assert IsData(F.shape[e.cell], 0); }
    }
    forall x | x in a.src ensures CoveredAt(a.src, a.done + {t}, a.stack, work - {t}, x) {
      assert CoveredAt(a.src, a.done, a.stack, work, x);
    }
  }

  lemma FinishOutstanding(F: FromSpace, a: State, b: State, open: set<nat>, work: set<Slot>, t: Slot, w: Word)
    requires F.Valid() && CellsOK(F, a.fwd, a.src, a.canon, a.owner, a.next) && Outstanding(F, a, open, work)
    requires t in work && b.to == a.to[t := w] && b.done == a.done + {t}
    requires b.src == a.src && b.fwd == a.fwd && b.stack == a.stack && b.twice == a.twice && b.owner == a.owner
      && b.next == a.next
    ensures Outstanding(F, b, open, work - {t})
  {
    FinishStack(F, a, t, w, open, work);
    TwiceStays(F, a, b, open, open, work, work - {t});
  }

  lemma FinishDone(F: FromSpace, a: State, b: State, t: Slot)
    requires F.Valid() && Grows(a, b) && DoneOK(F, a) && b.done == a.done + {t} && SlotOK(F, b, t)
    ensures DoneOK(F, b)
  {
    SlotsStay(F, a, b);
    forall x | x in b.done ensures SlotOK(F, b, x) {}
  }

  lemma CanonsStay(F: FromSpace, a: State, b: State)
    requires CanonOK(F, a.canon, a.src, a.to, a.done) && Grows(a, b)
    ensures forall z {:trigger CanonAt(F, b.canon, b.src, b.to, b.done, z)} ::
      z in a.canon ==> CanonAt(F, b.canon, b.src, b.to, b.done, z)
  {
    forall z | z in a.canon ensures CanonAt(F, b.canon, b.src, b.to, b.done, z) {
      assert CanonAt(F, a.canon, a.src, a.to, a.done, z);
    }
  }

  // Store a finished word that is not a variable.
  lemma FinishStep(F: FromSpace, a: State, b: State, open: set<nat>, work: set<Slot>, t: Slot, w: Word)
    requires F.Valid() && Inv(F, a, open, work) && t in work
    requires b == a.(to := a.to[t := w], done := a.done + {t})
    requires SlotOK(F, b, t)
    ensures Inv(F, b, open, work - {t}) && Grows(a, b)
  {
    Parts(F, a, open, work);
    assert Grows(a, b);
    FinishTo(F, a, t, w);
    FinishOutstanding(F, a, b, open, work, t, w);
    FinishDone(F, a, b, t);
    CanonsStay(F, a, b);
    DeferralsStay(F, a, b);
  }

  // Store a reference to an optimized variable that is not collected yet, and remember the slot.
  lemma DeferStep(F: FromSpace, a: State, b: State, open: set<nat>, work: set<Slot>, t: Slot, z: Slot)
    requires F.Valid() && Inv(F, a, open, work) && t in work && t in a.src && F.Data(a.src[t])
    requires z == F.Term(a.src[t]) && z != a.src[t] && F.words[z].OptVar?
    requires b == a.(to := a.to[t := Ref(z)], vf := a.vf + [t], done := a.done + {t})
    ensures Inv(F, b, open, work - {t}) && Grows(a, b)
  {
    Parts(F, a, open, work);
    assert Grows(a, b);
    FinishTo(F, a, t, Ref(z));
    FinishOutstanding(F, a, b, open, work, t, Ref(z));
    assert t in b.vf;
    assert SlotOK(F, b, t);
    FinishDone(F, a, b, t);
    CanonsStay(F, a, b);
    DeferMore(F, a, b, t, z);
  }

  lemma DeferMore(F: FromSpace, a: State, b: State, t: Slot, z: Slot)
    requires F.Valid() && Grows(a, b) && DeferralsOK(F, a.src, a.to, a.done, a.vf)
    requires t !in a.done && t in b.src && F.Data(b.src[t])
    requires z == F.Term(b.src[t]) && z != b.src[t] && F.words[z].OptVar?
    requires b.vf == a.vf + [t] && b.to == a.to[t := Ref(z)] && b.done == a.done + {t}
    ensures DeferralsOK(F, b.src, b.to, b.done, b.vf)
  {
    forall x | x in a.vf ensures x != t && DeferredOK(F, b.src, b.to, b.done, x) {
      assert DeferredOK(F, a.src, a.to, a.done, x);
    }
    DistinctAppend(a.vf, t);
    forall x | x in b.vf ensures DeferredOK(F, b.src, b.to, b.done, x) {
      if x !in a.vf { assert x == t; }
    }
  }

  // Copy a variable that sits in the slot being copied.
  lemma DirectVariableStep(F: FromSpace, a: State, b: State, open: set<nat>, work: set<Slot>, t: Slot)
    requires F.Valid() && Inv(F, a, open, work) && t in work && t in a.src && VariablePlaced(F, a, b, t)
    ensures Inv(F, b, open, work - {t}) && Grows(a, b)
  {
    Parts(F, a, open, work);
    DirectVariableConsistent(F, a, b, open, t);
    FinishOutstanding(F, a, b, open, work, t, Copied(F.words[a.src[t]]));
  }

  ghost predicate VariablePlaced(F: FromSpace, a: State, b: State, t: Slot)
    requires t in a.src
  {
    var f := a.src[t];
    && F.Data(f) && f in F.words && f in a.from && a.from[f] == F.words[f] && f !in a.canon
    && var w := F.words[f];
       && (w.OptVar? || w.Var?)
       && b == a.(to := a.to[t := Copied(w)], from := if w.OptVar? then a.from[f := Forward(t)] else a.from,
                  bodies := if w.Var? then a.bodies[w.body := t] else a.bodies, canon := a.canon[f := t],
                  done := a.done + {t})
  }

  lemma DirectVariableConsistent(F: FromSpace, a: State, b: State, open: set<nat>, t: Slot)
    requires F.Valid() && Consistent(F, a, open) && t in a.src && t !in a.done && VariablePlaced(F, a, b, t)
    ensures Consistent(F, b, open) && Grows(a, b)
  {
    var f := a.src[t];
    UnfinishedSlot(F, a, t);
    FinishTo(F, a, t, Copied(F.words[f]));
    CanonCells(F, a.fwd, a.src, a.canon, a.owner, a.next, f, t);
    VariableMark(F, a, b, open, f, t);
    DirectVariableKeeps(F, a, b, t);
  }

  lemma DirectVariableKeeps(F: FromSpace, a: State, b: State, t: Slot)
    requires F.Valid() && t in a.src && t !in a.done && VariablePlaced(F, a, b, t)
    requires DoneOK(F, a) && CanonOK(F, a.canon, a.src, a.to, a.done) && VarsOK(F, a.canon, a.fwd, a.bodies)
    requires DeferralsOK(F, a.src, a.to, a.done, a.vf)
    requires var f := a.src[t]; f.cell in a.fwd && t == Slot(a.fwd[f.cell], f.idx)
    ensures Grows(a, b) && DoneOK(F, b) && DeferralsOK(F, b.src, b.to, b.done, b.vf)
    ensures CanonOK(F, b.canon, b.src, b.to, b.done) && VarsOK(F, b.canon, b.fwd, b.bodies)
  {
    var f := a.src[t];
    assert Grows(a, b);
    assert F.Term(f) == f;
    assert SlotOK(F, b, t);
    FinishDone(F, a, b, t);
    DeferralsStay(F, a, b);
    CanonsStay(F, a, b);
    NewCanon(F, a, b, f, t);
  }

  lemma NewCanon(F: FromSpace, a: State, b: State, z: Slot, t: Slot)
    requires F.Valid() && VarsOK(F, a.canon, a.fwd, a.bodies)
    requires forall x {:trigger CanonAt(F, b.canon, b.src, b.to, b.done, x)} ::
      x in a.canon ==> CanonAt(F, b.canon, b.src, b.to, b.done, x)
    requires F.Data(z) && z in F.words && z !in a.canon && b.canon == a.canon[z := t]
    requires t in b.src && b.src[t] == z && t in b.done && t in b.to && b.to[t] == Copied(F.words[z])
    requires b.fwd == a.fwd
    requires (F.words[z].OptVar? && b.bodies == a.bodies && z.cell in a.fwd && t == Slot(a.fwd[z.cell], z.idx))
          || (F.words[z].Var? && b.bodies == a.bodies[F.words[z].body := t])
    ensures CanonOK(F, b.canon, b.src, b.to, b.done) && VarsOK(F, b.canon, b.fwd, b.bodies)
  {
    assert F.Good(z);
    forall x | x in b.canon ensures CanonAt(F, b.canon, b.src, b.to, b.done, x) {
      if x == z { assert CanonAt(F, b.canon, b.src, b.to, b.done, z); }
    }
    forall x | x in b.canon ensures VarAt(F, b.canon, b.fwd, b.bodies, x) {
      if x != z { assert VarAt(F, a.canon, a.fwd, a.bodies, x); }
    }
    forall v | v in b.bodies ensures BodyAt(F, b.canon, b.bodies, v) {
      if v in a.bodies { assert BodyAt(F, a.canon, a.bodies, v); }
    }
  }

  lemma CanonCells(F: FromSpace, fwd: map<nat, nat>, src: map<Slot, Slot>, canon: map<Slot, Slot>,
                   owner: map<nat, Owner>, next: nat, z: Slot, t: Slot)
    requires CellsOK(F, fwd, src, canon, owner, next) && z !in canon
    ensures CellsOK(F, fwd, src, canon[z := t], owner, next)
  {
    var canon' := canon[z := t];
    forall x | x in src ensures SrcAt(F, fwd, src, canon', owner, next, x) {
      assert SrcAt(F, fwd, src, canon, owner, next, x);
    }
    forall c' | F.base <= c' < next ensures OwnerAt(F, fwd, canon', owner, c') {
      assert OwnerAt(F, fwd, canon, owner, c');
    }
  }

  lemma VariableMark(F: FromSpace, a: State, b: State, open: set<nat>, f: Slot, t: Slot)
    requires F.Valid() && FromOK(F, a.from, a.fwd, a.canon, open) && b.fwd == a.fwd && b.canon == a.canon[f := t]
    requires F.Data(f) && f in F.words
    requires (F.words[f].OptVar? && b.from == a.from[f := Forward(t)] && f.cell in a.fwd
      && t == Slot(a.fwd[f.cell], f.idx))
          || (F.words[f].Var? && b.from == a.from)
    ensures FromOK(F, b.from, b.fwd, b.canon, open)
  {
    forall s | s in F.words ensures FromAt(F, b.from, b.fwd, b.canon, open, s) {
      assert FromAt(F, a.from, a.fwd, a.canon, open, s);
    }
  }

  // Copy an ordinary variable that was reached through a reference into a cell of its own.
  lemma HeapVariableStep(F: FromSpace, a: State, b: State, open: set<nat>, work: set<Slot>, z: Slot)
    requires F.Valid() && Inv(F, a, open, work) && VariableAllocated(F, a, b, z)
    ensures Inv(F, b, open, work) && Grows(a, b)
  {
    Parts(F, a, open, work);
    NewCell(F, a);
    HeapVariableConsistent(F, a, b, open, z);
    HeapVariableOutstanding(F, a, b, open, work, z);
  }

  lemma HeapVariableOutstanding(F: FromSpace, a: State, b: State, open: set<nat>, work: set<Slot>, z: Slot)
    requires F.Valid() && CellsOK(F, a.fwd, a.src, a.canon, a.owner, a.next) && Outstanding(F, a, open, work)
    requires VariableAllocated(F, a, b, z) && Slot(a.next, 0) !in a.src && Slot(a.next, 0) !in a.to
    ensures Outstanding(F, b, open, work)
  {
    HeapVariableStack(F, a, b, open, work, z);
    TwiceStays(F, a, b, open, open, work, work);
  }

  ghost predicate VariableAllocated(F: FromSpace, a: State, b: State, z: Slot) {
    var p := Slot(a.next, 0);
    && F.Data(z) && z in F.words && F.words[z].Var? && F.words[z].body !in a.bodies
    && b == a.(to := a.to[p := Copied(F.words[z])], next := a.next + 1, bodies := a.bodies[F.words[z].body := p],
               src := a.src[p := z], canon := a.canon[z := p], owner := a.owner[a.next := HeapVar(z)],
               done := a.done + {p})
  }

  lemma HeapVariableConsistent(F: FromSpace, a: State, b: State, open: set<nat>, z: Slot)
    requires F.Valid() && Consistent(F, a, open) && VariableAllocated(F, a, b, z)
    ensures Consistent(F, b, open) && Grows(a, b)
  {
    NewCell(F, a);
    HeapVariableKeeps(F, a, b, z);
    HeapVariableCells(F, a, b, z, Slot(a.next, 0));
    VariableMark(F, a, b, open, z, Slot(a.next, 0));
  }

  lemma HeapVariableKeeps(F: FromSpace, a: State, b: State, z: Slot)
    requires F.Valid() && VariableAllocated(F, a, b, z)
    requires DoneOK(F, a) && CanonOK(F, a.canon, a.src, a.to, a.done) && VarsOK(F, a.canon, a.fwd, a.bodies)
    requires DeferralsOK(F, a.src, a.to, a.done, a.vf)
    requires var p := Slot(a.next, 0); p !in a.src && p !in a.done && p !in a.to
    ensures Grows(a, b) && DoneOK(F, b) && DeferralsOK(F, b.src, b.to, b.done, b.vf) && z !in a.canon
    ensures CanonOK(F, b.canon, b.src, b.to, b.done) && VarsOK(F, b.canon, b.fwd, b.bodies)
  {
    var p := Slot(a.next, 0);
    forall x | x in a.canon && x in F.words && F.words[x].Var? ensures F.words[x].body in a.bodies {
      assert VarAt(F, a.canon, a.fwd, a.bodies, x);
    }
    assert Grows(a, b);
    HeapVariableDone(F, a, b, z);
    DeferralsStay(F, a, b);
    CanonsStay(F, a, b);
    NewCanon(F, a, b, z, p);
  }

  lemma HeapVariableDone(F: FromSpace, a: State, b: State, z: Slot)
    requires F.Valid() && VariableAllocated(F, a, b, z) && DoneOK(F, a) && Grows(a, b)
    ensures DoneOK(F, b)
  {
    assert F.Term(z) == z;
    assert SlotOK(F, b, Slot(a.next, 0));
    FinishDone(F, a, b, Slot(a.next, 0));
  }

  // The next free cell has no slots yet.
  lemma NewCell(F: FromSpace, a: State)
    requires F.Valid() && CellsOK(F, a.fwd, a.src, a.canon, a.owner, a.next) && DoneOK(F, a)
      && ToOK(F, a.fwd, a.to, a.next)
    ensures forall i: nat :: Slot(a.next, i) !in a.src && Slot(a.next, i) !in a.done && Slot(a.next, i) !in a.to
    ensures forall t :: t in a.src ==> t.cell < a.next
  {
    forall t | t in a.src ensures t.cell < a.next { assert SrcAt(F, a.fwd, a.src, a.canon, a.owner, a.next, t); }
    forall t | t in a.done ensures t in a.src { assert SlotOK(F, a, t); }
  }

  lemma HeapVariableCells(F: FromSpace, a: State, b: State, z: Slot, p: Slot)
    requires F.Valid() && CellsOK(F, a.fwd, a.src, a.canon, a.owner, a.next) && ToOK(F, a.fwd, a.to, a.next)
    requires F.Data(z) && z !in a.canon
    requires
      && p.cell == a.next && p !in a.src && b.fwd == a.fwd && b.next == a.next + 1 && b.src == a.src[p := z]
      && b.canon == a.canon[z := p]
      && b.owner == a.owner[a.next := HeapVar(z)]
      && p in b.to && b.to == a.to[p := b.to[p]] && !b.to[p].Mark? && !b.to[p].Moved?
    ensures CellsOK(F, b.fwd, b.src, b.canon, b.owner, b.next) && ToOK(F, b.fwd, b.to, b.next)
  {
    forall c | c in b.fwd ensures CellAt(F, b.fwd, b.owner, b.next, c) && HeaderAt(F, b.fwd, b.to, c) {
      assert CellAt(F, a.fwd, a.owner, a.next, c) && HeaderAt(F, a.fwd, a.to, c);
    }
    forall s | F.Data(s) && s.cell in b.fwd ensures CopyAt(b.fwd, b.src, s) {
      assert CopyAt(a.fwd, a.src, s);
    }
    forall x | x in b.src ensures SrcAt(F, b.fwd, b.src, b.canon, b.owner, b.next, x) {
      if x != p { assert SrcAt(F, a.fwd, a.src, a.canon, a.owner, a.next, x); }
    }
    forall c' | F.base <= c' < b.next ensures OwnerAt(F, b.fwd, b.canon, b.owner, c') {
      if c' != a.next { assert OwnerAt(F, a.fwd, a.canon, a.owner, c'); }
    }
  }

  lemma HeapVariableStack(F: FromSpace, a: State, b: State, open: set<nat>, work: set<Slot>, z: Slot)
    requires CoverOK(a.src, a.done, a.stack, work) && StackOK(F, a.fwd, a.to, a.done, a.stack, a.twice, open, work)
    requires CellsOK(F, a.fwd, a.src, a.canon, a.owner, a.next)
    requires var p := Slot(a.next, 0);
      && p !in a.src && p !in a.to && b.fwd == a.fwd && b.src == a.src[p := z] && b.done == a.done + {p}
      && b.stack == a.stack && b.twice == a.twice
      && p in b.to && b.to == a.to[p := b.to[p]]
    ensures CoverOK(b.src, b.done, b.stack, work) && StackOK(F, b.fwd, b.to, b.done, b.stack, b.twice, open, work)
  {
    var p := Slot(a.next, 0);
    forall e | e in b.stack ensures Pending(F, b.fwd, b.to, b.done, b.twice, open, work, e) {
      assert Pending(F, a.fwd, a.to, a.done, a.twice, open, work, e);
      assert CellAt(F, a.fwd, a.owner, a.next, e.cell);
    }
    forall x | x in b.src ensures CoveredAt(b.src, b.done, b.stack, work, x) {
      if x != p { assert CoveredAt(a.src, a.done, a.stack, work, x); }
    }
  }

  // ---------------------------------------------------------------- allocation

  // The bookkeeping of allocating a.next as the copy of d.
  ghost predicate Allocates(F: FromSpace, a: State, b: State, d: nat)
    requires d in F.shape
  {
    && b.next == a.next + 1 && b.fwd == a.fwd[d := a.next] && b.owner == a.owner[a.next := CopyOf(d)]
    && NewSources(F.shape[d], d, a.next, a.src, b.src)
    && b.canon == a.canon && b.bodies == a.bodies && b.done == a.done && b.vf == a.vf && b.twice == a.twice
  }

  // The slots of the copy c' of d become copies of the slots of d.
  ghost predicate NewSources(shape: Shape, d: nat, c': nat, src: map<Slot, Slot>, src': map<Slot, Slot>) {
    && (forall t :: t in src ==> t in src' && src'[t] == src[t])
    && (forall t :: t in src' ==> t in src || (t.cell == c' && IsData(shape, t.idx) && src'[t] == Slot(d, t.idx)))
    && (forall i: nat {:trigger IsData(shape, i)} ::
      IsData(shape, i) ==> Slot(c', i) in src' && src'[Slot(c', i)] == Slot(d, i))
  }

  // The to-space slots of the copy c' of a cell of the given shape.
  ghost function NewSlots(shape: Shape, c': nat): (r: set<Slot>)
    ensures forall t :: t in r <==> t.cell == c' && IsData(shape, t.idx)
  {
    var hi := match shape case Pair => 2 case Rec(w) => w + 2 case Block(n) => n;
    var r := set i: nat | i < hi && IsData(shape, i) :: Slot(c', i);
    assert forall t: Slot :: t.cell == c' && IsData(shape, t.idx) ==> t.idx < hi && t == Slot(c', t.idx);
    r
  }

  ghost function AddSources(shape: Shape, d: nat, c': nat, src: map<Slot, Slot>): (src': map<Slot, Slot>)
    requires forall i: nat :: Slot(c', i) !in src
    ensures NewSources(shape, d, c', src, src')
  {
    var added := map t | t in NewSlots(shape, c') :: Slot(d, t.idx);
    var src' := src + added;
    assert forall i: nat :: IsData(shape, i) ==> Slot(c', i) in added;
    src'
  }

  ghost predicate Fresh(F: FromSpace, a: State, d: nat)
    requires F.Valid()
  {
    d in F.shape && d !in a.fwd && F.Reachable(a.fwd.Keys + {d})
  }

  lemma AllocCells(F: FromSpace, a: State, b: State, d: nat)
    requires F.Valid() && d in F.shape && d !in a.fwd && Allocates(F, a, b, d)
    requires CellsOK(F, a.fwd, a.src, a.canon, a.owner, a.next)
    requires forall i: nat :: Slot(a.next, i) !in a.src
    ensures CellsOK(F, b.fwd, b.src, b.canon, b.owner, b.next)
  {
    forall c | c in b.fwd ensures CellAt(F, b.fwd, b.owner, b.next, c) {
      if c != d { assert CellAt(F, a.fwd, a.owner, a.next, c); }
    }
    forall s | F.Data(s) && s.cell in b.fwd ensures CopyAt(b.fwd, b.src, s) {
      if s.cell == d { assert IsData(F.shape[d], s.idx); } else { assert CopyAt(a.fwd, a.src, s); }
    }
    forall x | x in b.src ensures SrcAt(F, b.fwd, b.src, b.canon, b.owner, b.next, x) {
      if x in a.src { assert SrcAt(F, a.fwd, a.src, a.canon, a.owner, a.next, x); }
    }
    forall c' | F.base <= c' < b.next ensures OwnerAt(F, b.fwd, b.canon, b.owner, c') {
      if c' != a.next { assert OwnerAt(F, a.fwd, a.canon, a.owner, c'); }
    }
  }

  lemma AllocTo(F: FromSpace, a: State, b: State, d: nat)
    requires d in F.shape && d !in a.fwd && Allocates(F, a, b, d) && ToOK(F, a.fwd, a.to, a.next)
    requires forall t :: t in a.to ==> t in b.to && b.to[t] == a.to[t]
    requires forall t :: t in b.to ==> t in a.to || (t.cell == a.next && !b.to[t].Mark? && !b.to[t].Moved?)
    requires F.shape[d].Rec? ==> Slot(a.next, 0) in b.to && b.to[Slot(a.next, 0)] == Arity(F.shape[d].width)
    ensures ToOK(F, b.fwd, b.to, b.next)
  {
    forall c | c in b.fwd ensures HeaderAt(F, b.fwd, b.to, c) {
      if c != d { assert HeaderAt(F, a.fwd, a.to, c); }
    }
  }

  lemma AllocKeeps(F: FromSpace, a: State, b: State, d: nat)
    requires F.Valid() && d in F.shape && d !in a.fwd && Allocates(F, a, b, d)
    requires DoneOK(F, a) && CanonOK(F, a.canon, a.src, a.to, a.done) && VarsOK(F, a.canon, a.fwd, a.bodies)
    requires DeferralsOK(F, a.src, a.to, a.done, a.vf)
    requires forall t :: t in a.to ==> t in b.to && b.to[t] == a.to[t]
    ensures Grows(a, b) && DoneOK(F, b) && DeferralsOK(F, b.src, b.to, b.done, b.vf)
    ensures CanonOK(F, b.canon, b.src, b.to, b.done) && VarsOK(F, b.canon, b.fwd, b.bodies)
    ensures b.fwd.Keys == a.fwd.Keys + {d}
  {
    assert d in b.fwd.Keys && d !in a.fwd.Keys;
    assert Grows(a, b);
    SlotsStay(F, a, b);
    forall x | x in b.done ensures SlotOK(F, b, x) {}
    DeferralsStay(F, a, b);
    CanonsStay(F, a, b);
    forall x | x in b.canon ensures VarAt(F, b.canon, b.fwd, b.bodies, x) {
      assert VarAt(F, a.canon, a.fwd, a.bodies, x);
    }
    forall v | v in b.bodies ensures BodyAt(F, b.canon, b.bodies, v) {
      assert BodyAt(F, a.canon, a.bodies, v);
    }
  }

  lemma AllocLeaves(F: FromSpace, a: State, b: State, d: nat, work: set<Slot>, work': set<Slot>)
    requires d in F.shape && d !in a.fwd && Allocates(F, a, b, d) && a.stack <= b.stack
    requires b.to == a.to || (Slot(a.next, 0) in b.to && b.to == a.to[Slot(a.next, 0) := b.to[Slot(a.next, 0)]])
    requires Slot(a.next, 0) !in a.to && forall t :: t in work' ==> t in work || t.cell == a.next
    ensures Leaves(a, b, work, work')
  {
    forall e | e in a.stack ensures e in b.stack {
      var i :| 0 <= i < |a.stack| && a.stack[i] == e;
      assert b.stack[i] == e;
    }
  }

  lemma AllocFrom(F: FromSpace, a: State, b: State, d: nat, open: set<nat>, open': set<nat>)
    requires F.Valid() && d in F.shape && d !in a.fwd && d !in open && Slot(d, 0) in F.words && Slot(d, 0) in a.from
    requires FromOK(F, a.from, a.fwd, a.canon, open) && VarsOK(F, a.canon, a.fwd, a.bodies)
    requires b.fwd == a.fwd[d := a.next] && b.canon == a.canon
    requires
      || (open' == open && F.shape[d].Pair? && b.from == a.from[Slot(d, 0) := Mark(Slot(a.next, 0))])
      || (open' == open && F.shape[d].Rec? && b.from == a.from[Slot(d, 0) := Moved(a.next)])
      || (open == {} && open' == {d} && F.shape[d].Pair? && b.from == a.from)
    ensures FromOK(F, b.from, b.fwd, b.canon, open')
    ensures F.shape[d].Pair? ==> a.from[Slot(d, 0)] == F.words[Slot(d, 0)]
  {
    var h := Slot(d, 0);
    assert FromAt(F, a.from, a.fwd, a.canon, open, h);
    if h in a.canon { assert VarAt(F, a.canon, a.fwd, a.bodies, h); }
    forall s | s in F.words ensures FromAt(F, b.from, b.fwd, b.canon, open', s) {
      assert FromAt(F, a.from, a.fwd, a.canon, open, s);
    }
  }

  // Allocate and mark the copy of d, and leave d on the work stack.
  lemma PushStep(F: FromSpace, a: State, b: State, d: nat, open: set<nat>, work: set<Slot>, e: Entry)
    requires F.Valid() && Inv(F, a, open, work) && Fresh(F, a, d) && d !in open && Pushes(F, a, b, d, e)
    ensures Inv(F, b, open, work) && Grows(a, b)
  {
    Parts(F, a, open, work);
    PushConsistent(F, a, b, d, open, e);
    NewCell(F, a);
    assert F.Data(Slot(d, 0)) ==> F.Good(Slot(d, 0));
    PushOutstanding(F, a, b, d, open, work, e);
  }

  ghost predicate Pushes(F: FromSpace, a: State, b: State, d: nat, e: Entry) {
    && d in F.shape && Slot(d, 0) in a.from && Allocates(F, a, b, d) && b.stack == a.stack + [e] && e.cell == d
    && match e
       case PtrLTuple(_) => F.shape[d].Pair? && b.to == a.to[Slot(a.next, 0) := a.from[Slot(d, 0)]]
                            && b.from == a.from[Slot(d, 0) := Mark(Slot(a.next, 0))]
       case PtrSRecord(_) => F.shape[d].Rec? && b.to == a.to[Slot(a.next, 0) := Arity(F.shape[d].width)]
                             && b.from == a.from[Slot(d, 0) := Moved(a.next)]
  }

  lemma PushConsistent(F: FromSpace, a: State, b: State, d: nat, open: set<nat>, e: Entry)
    requires F.Valid() && Consistent(F, a, open) && Fresh(F, a, d) && d !in open && Pushes(F, a, b, d, e)
    ensures Consistent(F, b, open) && Grows(a, b) && (F.shape[d].Pair? ==> a.from[Slot(d, 0)] == F.words[Slot(d, 0)])
  {
    NewCell(F, a);
    AllocFrom(F, a, b, d, open, open);
    assert F.Data(Slot(d, 0)) ==> F.Good(Slot(d, 0));
    AllocCells(F, a, b, d);
    AllocTo(F, a, b, d);
    AllocKeeps(F, a, b, d);
  }

  lemma PushOutstanding(F: FromSpace, a: State, b: State, d: nat, open: set<nat>, work: set<Slot>, e: Entry)
    requires F.Valid() && CellsOK(F, a.fwd, a.src, a.canon, a.owner, a.next) && Outstanding(F, a, open, work)
    requires d !in a.fwd && d !in open && Pushes(F, a, b, d, e)
    requires forall i: nat :: Slot(a.next, i) !in a.src && Slot(a.next, i) !in a.done && Slot(a.next, i) !in a.to
    requires F.shape[d].Pair? ==> Slot(d, 0) in F.words && a.from[Slot(d, 0)] == F.words[Slot(d, 0)]
    ensures Outstanding(F, b, open, work)
  {
    PushStack(F, a, b, d, open, work, e);
    AllocLeaves(F, a, b, d, work, work);
    TwiceStays(F, a, b, open, open, work, work);
  }

  lemma PushStack(F: FromSpace, a: State, b: State, d: nat, open: set<nat>, work: set<Slot>, e': Entry)
    requires d in F.shape && d !in a.fwd && d !in open && Allocates(F, a, b, d)
    requires forall i: nat :: Slot(a.next, i) !in a.src && Slot(a.next, i) !in a.done && Slot(a.next, i) !in a.to
    requires CoverOK(a.src, a.done, a.stack, work) && StackOK(F, a.fwd, a.to, a.done, a.stack, a.twice, open, work)
    requires e'.cell == d && b.stack == a.stack + [e']
    requires forall t :: t in a.to ==> t in b.to && b.to[t] == a.to[t]
    requires match e'
      case PtrLTuple(_) => F.shape[d].Pair? && Slot(d, 0) in F.words && Slot(a.next, 0) in b.to
        && b.to[Slot(a.next, 0)] == F.words[Slot(d, 0)]
      case PtrSRecord(_) => F.shape[d].Rec?
    ensures StackOK(F, b.fwd, b.to, b.done, b.stack, b.twice, open, work) && CoverOK(b.src, b.done, b.stack, work)
  {
    forall e | e in a.stack ensures e != e' && Pending(F, b.fwd, b.to, b.done, b.twice, open, work, e) {
      assert Pending(F, a.fwd, a.to, a.done, a.twice, open, work, e);
    }
    DistinctAppend(a.stack, e');
    assert Pending(F, b.fwd, b.to, b.done, b.twice, open, work, e');
    assert b.stack[|a.stack|] == e';
    forall x | x in b.src ensures CoveredAt(b.src, b.done, b.stack, work, x) {
      if x in a.src { assert CoveredAt(a.src, a.done, a.stack, work, x); }
    }
  }

  // The tail loop allocates the copy of d without marking d yet.
  lemma TailAllocStep(F: FromSpace, a: State, b: State, d: nat, work: set<Slot>)
    requires F.Valid() && Inv(F, a, {}, work) && Fresh(F, a, d) && F.shape[d].Pair?
    requires Allocates(F, a, b, d) && b.from == a.from && b.to == a.to && b.stack == a.stack
    ensures Inv(F, b, {d}, work + {Slot(a.next, 0), Slot(a.next, 1)}) && Grows(a, b)
    ensures Slot(a.next, 0) in b.src && b.src[Slot(a.next, 0)] == Slot(d, 0)
    ensures Slot(a.next, 1) in b.src && b.src[Slot(a.next, 1)] == Slot(d, 1)
  {
    Parts(F, a, {}, work);
    assert IsData(F.shape[d], 0) && IsData(F.shape[d], 1);
    NewCell(F, a);
    TailConsistent(F, a, b, d);
    TailOutstanding(F, a, b, d, work);
  }

  lemma TailConsistent(F: FromSpace, a: State, b: State, d: nat)
    requires F.Valid() && Consistent(F, a, {}) && Fresh(F, a, d) && F.shape[d].Pair?
    requires Allocates(F, a, b, d) && b.from == a.from && b.to == a.to && b.stack == a.stack
    ensures Consistent(F, b, {d}) && Grows(a, b)
  {
    assert F.Data(Slot(d, 0)) && IsData(F.shape[d], 0);
    NewCell(F, a);
    AllocCells(F, a, b, d);
    AllocTo(F, a, b, d);
    AllocKeeps(F, a, b, d);
    AllocFrom(F, a, b, d, {}, {d});
  }

  lemma TailOutstanding(F: FromSpace, a: State, b: State, d: nat, work: set<Slot>)
    requires F.Valid() && CellsOK(F, a.fwd, a.src, a.canon, a.owner, a.next) && Outstanding(F, a, {}, work)
    requires d in F.shape && d !in a.fwd && Allocates(F, a, b, d) && F.shape[d].Pair? && b.to == a.to
      && b.stack == a.stack
    requires forall i: nat :: Slot(a.next, i) !in a.src && Slot(a.next, i) !in a.done && Slot(a.next, i) !in a.to
    ensures Outstanding(F, b, {d}, work + {Slot(a.next, 0), Slot(a.next, 1)})
  {
    TailStack(F, a, b, d, work);
    forall e | e in a.stack ensures e.cell in a.fwd { assert Pending(F, a.fwd, a.to, a.done, a.twice, {}, work, e); }
    AllocLeaves(F, a, b, d, work, work + {Slot(a.next, 0), Slot(a.next, 1)});
    TwiceStays(F, a, b, {}, {d}, work, work + {Slot(a.next, 0), Slot(a.next, 1)});
  }

  lemma TailStack(F: FromSpace, a: State, b: State, d: nat, work: set<Slot>)
    requires d in F.shape && d !in a.fwd && Allocates(F, a, b, d) && F.shape[d].Pair?
    requires CellsOK(F, a.fwd, a.src, a.canon, a.owner, a.next)
    requires forall i: nat :: Slot(a.next, i) !in a.src && Slot(a.next, i) !in a.done && Slot(a.next, i) !in a.to
    requires CoverOK(a.src, a.done, a.stack, work) && StackOK(F, a.fwd, a.to, a.done, a.stack, a.twice, {}, work)
    requires b.to == a.to && b.stack == a.stack
    ensures var work' := work + {Slot(a.next, 0), Slot(a.next, 1)};
      StackOK(F, b.fwd, b.to, b.done, b.stack, b.twice, {d}, work') && CoverOK(b.src, b.done, b.stack, work')
  {
    var work' := work + {Slot(a.next, 0), Slot(a.next, 1)};
    assert IsData(F.shape[d], 0) && IsData(F.shape[d], 1);
    forall e | e in b.stack ensures Pending(F, b.fwd, b.to, b.done, b.twice, {d}, work', e) {
      assert Pending(F, a.fwd, a.to, a.done, a.twice, {}, work, e);
      assert CellAt(F, a.fwd, a.owner, a.next, e.cell);
    }
    forall x | x in b.src ensures CoveredAt(b.src, b.done, b.stack, work', x) {
      if x in a.src { assert CoveredAt(a.src, a.done, a.stack, work, x); }
    }
  }

  // ---------------------------------------------------------------- marks and the work stack

  lemma RemarkKeeps(F: FromSpace, a: State, b: State)
    requires F.Valid() && DoneOK(F, a) && b == a.(from := b.from)
    ensures Grows(a, b) && DoneOK(F, b)
  {
    assert Grows(a, b);
    SlotsStay(F, a, b);
    forall x | x in b.done ensures SlotOK(F, b, x) {}
  }

  // Storing the forward mark of the open pair.
  lemma StoreForwardStep(F: FromSpace, a: State, b: State, d: nat, work: set<Slot>)
    requires F.Valid() && Inv(F, a, {d}, work) && d in a.fwd && d in F.shape && F.shape[d].Pair?
    requires b == a.(from := a.from[Slot(d, 0) := Mark(Slot(a.fwd[d], 0))])
    ensures Inv(F, b, {}, work) && Grows(a, b)
  {
    Parts(F, a, {d}, work);
    RemarkKeeps(F, a, b);
    StackOpen(F, a, {d}, {}, work);
    TwiceStays(F, a, b, {d}, {}, work, work);
    assert F.Data(Slot(d, 0));
    assert FromOK(F, b.from, b.fwd, b.canon, {}) by {
      forall s | s in F.words ensures FromAt(F, b.from, b.fwd, b.canon, {}, s) {
        assert FromAt(F, a.from, a.fwd, a.canon, {d}, s);
      }
    }
  }

  // Taking the forward mark of a pair back.
  lemma RestoreStep(F: FromSpace, a: State, b: State, d: nat, work: set<Slot>)
    requires F.Valid() && Inv(F, a, {}, work) && d in a.fwd && d in F.shape && F.shape[d].Pair? && Slot(d, 0) in F.words
    requires Slot(a.fwd[d], 0) in work
    requires b == a.(from := a.from[Slot(d, 0) := F.words[Slot(d, 0)]])
    ensures Inv(F, b, {d}, work) && Grows(a, b)
  {
    Parts(F, a, {}, work);
    var h := Slot(d, 0);
    RemarkKeeps(F, a, b);
    assert IsData(F.shape[d], 0) && F.Data(h);
    assert d in a.twice ==> TwiceAt(F, a, {}, work, d);
    forall e | e in a.stack ensures e.cell != d { assert Pending(F, a.fwd, a.to, a.done, a.twice, {}, work, e); }
    StackOpen(F, a, {}, {d}, work);
    TwiceStays(F, a, b, {}, {d}, work, work);
    assert CopyAt(a.fwd, a.src, h);
    UnfinishedSlot(F, a, Slot(a.fwd[d], 0));
    assert FromOK(F, b.from, b.fwd, b.canon, {d}) by {
      forall s | s in F.words ensures FromAt(F, b.from, b.fwd, b.canon, {d}, s) {
        assert FromAt(F, a.from, a.fwd, a.canon, {}, s);
      }
    }
  }

  // ---------------------------------------------------------------- second copies

  // The tail walk copies the head of the open pair d, and the head leads to d itself: d is not marked, so it is copied
  // again.  Then d gets the mark of its first copy.
  ghost predicate CopiesAgain(F: FromSpace, a: State, b: State, d: nat) {
    var h, u := Slot(d, 0), Slot(a.next, 0);
    && d in a.fwd && d in F.shape && F.shape[d].Pair? && h in F.words
    && var t := Slot(a.fwd[d], 0);
       b == a.(from := a.from[h := Mark(t)], to := a.to[u := F.words[h]][t := LTuple(a.next)], next := a.next + 1,
               stack := a.stack + [PtrLTuple(d)], owner := a.owner[a.next := Second(d)], twice := a.twice[d := a.next])
  }

  lemma SecondCopyStep(F: FromSpace, a: State, b: State, d: nat, work: set<Slot>)
    requires F.Valid() && Inv(F, a, {d}, work) && CopiesAgain(F, a, b, d) && Slot(a.fwd[d], 0) in work
    requires F.SelfHeaded(d) && Unsafe(F)
    ensures Inv(F, b, {}, work - {Slot(a.fwd[d], 0)}) && Grows(a, b.(stack := a.stack))
  {
    Parts(F, a, {d}, work);
    var t := Slot(a.fwd[d], 0);
    NewCell(F, a);
    assert F.Data(Slot(d, 0)) && F.Good(Slot(d, 0)) && CellAt(F, a.fwd, a.owner, a.next, d);
    assert CopyAt(a.fwd, a.src, Slot(d, 0));
    SecondCopyKeeps(F, a, b, d);
    SecondCopyCells(F, a, b, d);
    SecondCopyWords(F, a, b, d);
    SecondCopyStack(F, a, b, d, work);
    SecondCopyTwice(F, a, b, d, work);
  }

  lemma SecondCopyKeeps(F: FromSpace, a: State, b: State, d: nat)
    requires F.Valid() && CopiesAgain(F, a, b, d) && DoneOK(F, a) && CanonOK(F, a.canon, a.src, a.to, a.done)
    requires DeferralsOK(F, a.src, a.to, a.done, a.vf) && Slot(a.fwd[d], 0) !in a.done && Slot(a.next, 0) !in a.done
    ensures Grows(a, b.(stack := a.stack)) && DoneOK(F, b) && DeferralsOK(F, b.src, b.to, b.done, b.vf)
    ensures CanonOK(F, b.canon, b.src, b.to, b.done)
  {
    var c := b.(stack := a.stack);
    assert Grows(a, c);
    SlotsStay(F, a, c);
    forall x | x in b.done ensures SlotOK(F, b, x) { assert SlotOK(F, c, x); }
    DeferralsStay(F, a, c);
    CanonsStay(F, a, c);
  }

  lemma SecondCopyCells(F: FromSpace, a: State, b: State, d: nat)
    requires CopiesAgain(F, a, b, d) && CellsOK(F, a.fwd, a.src, a.canon, a.owner, a.next)
    requires forall t :: t in a.src ==> t.cell < a.next
    ensures CellsOK(F, b.fwd, b.src, b.canon, b.owner, b.next)
  {
    forall c | c in b.fwd ensures CellAt(F, b.fwd, b.owner, b.next, c) {
      assert CellAt(F, a.fwd, a.owner, a.next, c);
    }
    forall s | F.Data(s) && s.cell in b.fwd ensures CopyAt(b.fwd, b.src, s) { assert CopyAt(a.fwd, a.src, s); }
    forall x | x in b.src ensures SrcAt(F, b.fwd, b.src, b.canon, b.owner, b.next, x) {
      assert SrcAt(F, a.fwd, a.src, a.canon, a.owner, a.next, x);
    }
    forall c' | F.base <= c' < b.next ensures OwnerAt(F, b.fwd, b.canon, b.owner, c') {
      if c' != a.next { assert OwnerAt(F, a.fwd, a.canon, a.owner, c'); }
    }
  }

  lemma SecondCopyWords(F: FromSpace, a: State, b: State, d: nat)
    requires F.Valid() && CopiesAgain(F, a, b, d) && CellsOK(F, a.fwd, a.src, a.canon, a.owner, a.next)
    requires ToOK(F, a.fwd, a.to, a.next) && FromOK(F, a.from, a.fwd, a.canon, {d})
    ensures ToOK(F, b.fwd, b.to, b.next) && FromOK(F, b.from, b.fwd, b.canon, {})
  {
    assert F.Data(Slot(d, 0)) && F.Good(Slot(d, 0));
    assert CellAt(F, a.fwd, a.owner, a.next, d);
    forall c | c in b.fwd ensures HeaderAt(F, b.fwd, b.to, c) {
      assert CellAt(F, a.fwd, a.owner, a.next, c) && HeaderAt(F, a.fwd, a.to, c);
    }
    forall s | s in F.words ensures FromAt(F, b.from, b.fwd, b.canon, {}, s) {
      assert FromAt(F, a.from, a.fwd, a.canon, {d}, s);
    }
  }

  lemma SecondCopyStack(F: FromSpace, a: State, b: State, d: nat, work: set<Slot>)
    requires CopiesAgain(F, a, b, d) && CellsOK(F, a.fwd, a.src, a.canon, a.owner, a.next)
    requires CoverOK(a.src, a.done, a.stack, work) && StackOK(F, a.fwd, a.to, a.done, a.stack, a.twice, {d}, work)
    requires Slot(a.fwd[d], 0) in a.src && a.src[Slot(a.fwd[d], 0)] == Slot(d, 0)
    ensures var work' := work - {Slot(a.fwd[d], 0)};
      StackOK(F, b.fwd, b.to, b.done, b.stack, b.twice, {}, work') && CoverOK(b.src, b.done, b.stack, work')
    ensures PtrLTuple(d) !in a.stack && PtrLTuple(d) in b.stack
  {
    var t := Slot(a.fwd[d], 0);
    var work' := work - {t};
    assert CellAt(F, a.fwd, a.owner, a.next, d);
    assert b.stack[|a.stack|] == PtrLTuple(d);
    forall e | e in a.stack ensures e != PtrLTuple(d) && Pending(F, b.fwd, b.to, b.done, b.twice, {}, work', e) {
      assert Pending(F, a.fwd, a.to, a.done, a.twice, {d}, work, e);
      if e.cell in a.fwd { assert CellAt(F, a.fwd, a.owner, a.next, e.cell); }
    }
    DistinctAppend(a.stack, PtrLTuple(d));
    forall x | x in b.src ensures CoveredAt(b.src, b.done, b.stack, work', x) {
      assert CoveredAt(a.src, a.done, a.stack, work, x);
    }
  }

  lemma SecondCopyTwice(F: FromSpace, a: State, b: State, d: nat, work: set<Slot>)
    requires F.Valid() && CopiesAgain(F, a, b, d) && CellsOK(F, a.fwd, a.src, a.canon, a.owner, a.next)
    requires TwiceOK(F, a, {d}, work) && F.SelfHeaded(d) && Unsafe(F)
    requires Slot(a.fwd[d], 0) in work && Slot(a.fwd[d], 0) !in a.done
    requires forall i: nat :: Slot(a.next, i) !in a.to
    requires PtrLTuple(d) !in a.stack && PtrLTuple(d) in b.stack
    ensures TwiceOK(F, b, {}, work - {Slot(a.fwd[d], 0)})
  {
    NewTwice(F, a, b, d, work);
    forall c | c in b.twice ensures TwiceAt(F, b, {}, work - {Slot(a.fwd[d], 0)}, c) {
      if c != d {
        assert TwiceAt(F, a, {d}, work, c);
        OthersStay(F, a, b, d, c, work);
      }
    }
  }

  lemma NewTwice(F: FromSpace, a: State, b: State, d: nat, work: set<Slot>)
    requires F.Valid() && CopiesAgain(F, a, b, d) && CellsOK(F, a.fwd, a.src, a.canon, a.owner, a.next)
    requires F.SelfHeaded(d) && Slot(a.fwd[d], 0) !in a.done && PtrLTuple(d) in b.stack
    requires forall i: nat :: Slot(a.next, i) !in a.to
    ensures TwiceAt(F, b, {}, work - {Slot(a.fwd[d], 0)}, d)
  {
    assert CellAt(F, a.fwd, a.owner, a.next, d);
  }

  lemma OthersStay(F: FromSpace, a: State, b: State, d: nat, c: nat, work: set<Slot>)
    requires F.Valid() && CopiesAgain(F, a, b, d) && CellsOK(F, a.fwd, a.src, a.canon, a.owner, a.next)
    requires c != d && c in a.twice && TwiceAt(F, a, {d}, work, c)
    ensures TwiceAt(F, b, {}, work - {Slot(a.fwd[d], 0)}, c)
  {
    assert CellAt(F, a.fwd, a.owner, a.next, c) && CellAt(F, a.fwd, a.owner, a.next, d);
    assert PtrLTuple(c) in b.stack;
  }

  lemma StackOpen(F: FromSpace, a: State, open: set<nat>, open': set<nat>, work: set<Slot>)
    requires StackOK(F, a.fwd, a.to, a.done, a.stack, a.twice, open, work)
    requires forall e :: e in a.stack ==> e.cell !in open'
    ensures StackOK(F, a.fwd, a.to, a.done, a.stack, a.twice, open', work)
  {
    forall e | e in a.stack ensures Pending(F, a.fwd, a.to, a.done, a.twice, open', work, e) {
      assert Pending(F, a.fwd, a.to, a.done, a.twice, open, work, e);
    }
  }

  // Popping an entry makes its slots the work of the routine that continues it.
  lemma PopStep(F: FromSpace, a: State, b: State, e: Entry)
    requires F.Valid() && Inv(F, a, {}, {}) && |a.stack| > 0
    requires b == a.(stack := a.stack[..|a.stack| - 1]) && e == a.stack[|a.stack| - 1]
    requires e.PtrLTuple? ==> e.cell !in a.twice
    ensures EntryOK(F, a.fwd, a.to, a.done, {}, {}, e)
    ensures Inv(F, b, {}, NewSlots(F.shape[e.cell], a.fwd[e.cell]))
  {
    Parts(F, a, {}, {});
    assert Pending(F, a.fwd, a.to, a.done, a.twice, {}, {}, e);
    forall t | t in b.done ensures SlotOK(F, b, t) { assert SlotOK(F, a, t); }
    PopStack(F, a, e);
    PopTwice(F, a, b, e);
  }

  lemma PopStack(F: FromSpace, a: State, e: Entry)
    requires |a.stack| > 0 && e == a.stack[|a.stack| - 1]
    requires CellsOK(F, a.fwd, a.src, a.canon, a.owner, a.next)
    requires CanonOK(F, a.canon, a.src, a.to, a.done) && VarsOK(F, a.canon, a.fwd, a.bodies)
    requires CoverOK(a.src, a.done, a.stack, {}) && StackOK(F, a.fwd, a.to, a.done, a.stack, a.twice, {}, {})
    requires EntryOK(F, a.fwd, a.to, a.done, {}, {}, e)
    ensures var stack := a.stack[..|a.stack| - 1]; var work := NewSlots(F.shape[e.cell], a.fwd[e.cell]);
      StackOK(F, a.fwd, a.to, a.done, stack, a.twice, {}, work) && CoverOK(a.src, a.done, stack, work)
  {
    var stack := a.stack[..|a.stack| - 1];
    var c := e.cell;
    var work := NewSlots(F.shape[c], a.fwd[c]);
    DistinctInit(a.stack);
    assert CellAt(F, a.fwd, a.owner, a.next, c);
    forall t | t in work ensures t in a.src && t !in a.done {
      assert IsData(F.shape[c], t.idx);
      assert CopyAt(a.fwd, a.src, Slot(c, t.idx));
    }
    forall e' | e' in stack ensures Pending(F, a.fwd, a.to, a.done, a.twice, {}, work, e') {
      assert e' in a.stack;
      assert Pending(F, a.fwd, a.to, a.done, a.twice, {}, {}, e');
      assert CellAt(F, a.fwd, a.owner, a.next, e'.cell);
    }
    forall x | x in a.src ensures CoveredAt(a.src, a.done, stack, work, x) {
      assert CoveredAt(a.src, a.done, a.stack, {}, x);
      if x !in a.done { UnfinishedSlot(F, a, x); }
    }
  }

  lemma PopTwice(F: FromSpace, a: State, b: State, e: Entry)
    requires F.Valid() && |a.stack| > 0 && e == a.stack[|a.stack| - 1] && (e.PtrLTuple? ==> e.cell !in a.twice)
    requires b == a.(stack := a.stack[..|a.stack| - 1])
    requires CellsOK(F, a.fwd, a.src, a.canon, a.owner, a.next) && TwiceOK(F, a, {}, {}) && Distinct(a.stack)
    requires EntryOK(F, a.fwd, a.to, a.done, {}, {}, e)
    ensures TwiceOK(F, b, {}, NewSlots(F.shape[e.cell], a.fwd[e.cell]))
  {
    var work := NewSlots(F.shape[e.cell], a.fwd[e.cell]);
    DistinctInit(a.stack);
    assert CellAt(F, a.fwd, a.owner, a.next, e.cell);
    forall d | d in b.twice ensures TwiceAt(F, b, {}, work, d) {
      assert TwiceAt(F, a, {}, {}, d);
      assert CellAt(F, a.fwd, a.owner, a.next, d);
      assert PtrLTuple(d) in b.stack;
    }
  }
}

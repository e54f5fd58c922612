// The collector as a machine on raw memory.  Nothing is assumed of what the memory holds: a step is possible
// whenever every slot that the code reads has been written and the references that it follows end.  The machine
// says what the code does where the invariant of `CollectorHeap` no longer holds.
module CollectorMachine {
  import opened CollectorHeap
  import opened Runs

  // From-space and to-space, the next free cell, the work stack, the deferred variable references, and the
  // ordinary variables copied so far.
  datatype Memory = Memory(from: map<Slot, Word>, to: map<Slot, Word>, next: nat, stack: seq<Entry>, vf: seq<Slot>,
    bodies: map<nat, Slot>)
  {
    ghost predicate Written(s: Slot) { s in from || s in to }

    ghost function Read(s: Slot): Word
      requires Written(s)
    {
      if s in from then from[s] else to[s]
    }

    // Overwrite a slot of the cell being copied, which lies in from-space unless the collection has gone wrong.
    ghost function Overwrite(s: Slot, w: Word): Memory {
      if s in from then this.(from := from[s := w]) else this.(to := to[s := w])
    }

    // Fill a slot of a copy.
    ghost function Fill(t: Slot, w: Word): Memory {
      this.(to := to[t := w])
    }
  }

  // Following n references from s ends in z.
  ghost predicate Ends(m: Memory, s: Slot, n: nat, z: Slot)
    decreases n
  {
    m.Written(s) &&
    if n == 0 then z == s && !m.Read(s).Ref?
    else m.Read(s).Ref? && Ends(m, m.Read(s).slot, n - 1, z)
  }

  // The chain of references from s passes through r after n references.
  ghost predicate Follows(m: Memory, s: Slot, n: nat, r: Slot) {
    forall k: nat, z :: Ends(m, r, k, z) ==> Ends(m, s, k + n, z)
  }

  lemma FollowsOn(m: Memory, s: Slot, n: nat, r: Slot) returns (n': nat)
    requires Follows(m, s, n, r) && m.Written(r)
    ensures if m.Read(r).Ref? then Follows(m, s, n', m.Read(r).slot) else Ends(m, s, n', r)
  {
    if m.Read(r).Ref? {
      n' := n + 1;
      forall k: nat, z | Ends(m, m.Read(r).slot, k, z) ensures Ends(m, s, k + n', z) { assert Ends(m, r, k + 1, z); }
    } else {
      n' := n;
      assert Ends(m, r, 0, r);
    }
  }

  // The memory of a collector in a state of the proof.
  ghost function Raw(st: State): Memory { Memory(st.from, st.to, st.next, st.stack, st.vf, st.bodies) }

  datatype Outcome = Stuck | Now(m: Memory)

  // The copy of the pair d: the one its mark names, or else a new cell with the head in it, while the
  // pair is marked and left on the stack.
  ghost function PairTarget(m: Memory, d: nat): nat
    requires m.Written(Slot(d, 0))
  {
    if m.Read(Slot(d, 0)).Mark? then m.Read(Slot(d, 0)).slot.cell else m.next
  }

  ghost function PairMarked(m: Memory, d: nat): Memory
    requires m.Written(Slot(d, 0))
  {
    if m.Read(Slot(d, 0)).Mark? then m else Allocated(m, Slot(d, 0), Mark(Slot(m.next, 0)), PtrLTuple(d))
  }

  ghost function Allocated(m: Memory, h: Slot, mark: Word, e: Entry): Memory
    requires m.Written(h)
  {
    m.Fill(Slot(m.next, 0), m.Read(h)).Overwrite(h, mark).(next := m.next + 1, stack := m.stack + [e])
  }

  // The same for a record, which is marked in its header.
  ghost predicate Header(m: Memory, d: nat) {
    m.Written(Slot(d, 0)) && (m.Read(Slot(d, 0)).Moved? || m.Read(Slot(d, 0)).Arity?)
  }

  ghost function RecordTarget(m: Memory, d: nat): nat
    requires Header(m, d)
  {
    if m.Read(Slot(d, 0)).Moved? then m.Read(Slot(d, 0)).cell else m.next
  }

  ghost function RecordMarked(m: Memory, d: nat): Memory
    requires Header(m, d)
  {
    if m.Read(Slot(d, 0)).Moved? then m else Allocated(m, Slot(d, 0), Moved(m.next), PtrSRecord(d))
  }

  // A variable that is copied from slot f itself, or was reached through references in slot z.
  ghost function OptVarCopied(m: Memory, f: Slot, t: Slot, z: Slot, board: nat, copied: bool): Memory {
    if z == f then m.Fill(t, OptVar(board, true)).Overwrite(f, Forward(t))
    else if !Aligned(z) && copied then m.Fill(t, Ref(z))
    else m.Fill(t, Ref(z)).(vf := m.vf + [t])
  }

  ghost function VarCopied(m: Memory, f: Slot, t: Slot, z: Slot, body: nat): Memory {
    var p := Slot(m.next, 0);
    if body in m.bodies then m.Fill(t, Ref(m.bodies[body]))
    else if z == f then m.Fill(t, Var(body, true)).(bodies := m.bodies[body := t])
    else m.Fill(p, Var(body, true)).Fill(t, Ref(p)).(next := m.next + 1, bodies := m.bodies[body := p])
  }

  // Copying into t the word of f, whose references end in z.
  ghost function WordCopied(m: Memory, f: Slot, t: Slot, z: Slot): Outcome
    requires m.Written(z)
  {
    match m.Read(z)
    case Null => Now(m.Fill(t, Null))
    case SmallInt(i) => Now(m.Fill(t, SmallInt(i)))
    case Atom(a) => Now(m.Fill(t, Atom(a)))
    case LTuple(d) =>
      if m.Written(Slot(d, 0)) then Now(PairMarked(m, d).Fill(t, LTuple(PairTarget(m, d)))) else Stuck
    case SRecord(d) =>
      if Header(m, d) then Now(RecordMarked(m, d).Fill(t, SRecord(RecordTarget(m, d)))) else Stuck
    case OptVar(board, copied) => Now(OptVarCopied(m, f, t, z, board, copied))
    case Var(body, _) => Now(VarCopied(m, f, t, z, body))
    case Mark(r) => Now(m.Fill(t, Ref(r)))
    case _ => Stuck
  }

  ghost predicate Copies(m: Memory, f: Slot, t: Slot, m': Memory) {
    exists n: nat, z :: Ends(m, f, n, z) && m.Written(z) && WordCopied(m, f, t, z) == Now(m')
  }

  // What the collector is at: between two entries of the stack, at a word of a record or of the roots, or at the
  // tail of a pair.
  datatype Control = Idle | Words(frm: nat, to: nat, i: nat, hi: nat) | Tail(frm: nat, to: nat)

  datatype Config = Config(m: Memory, at: Control)

  // The head of a pair is copied from f to t, and then the pair is marked with its copy.
  ghost predicate MarksAfter(m: Memory, f: Slot, t: Slot, m': Memory) {
    exists m1 :: Copies(m, f, t, m1) && m' == m1.Overwrite(f, Mark(t))
  }

  // The saved head of the pair c, whose copy is c'.
  ghost predicate HeadCopied(m: Memory, c: nat, c': nat, m': Memory) {
    var f, t := Slot(c, 0), Slot(c', 0);
    exists n: nat, z ::
      && Ends(m, t, n, z) && m.Written(z) && m.Written(t)
      && (if m.Read(z) == LTuple(c) then m' == m.Fill(t, LTuple(c'))
          else MarksAfter(m.Overwrite(f, m.Read(t)), f, t, m'))
  }

  // The visit to the cell of an entry that has been taken from the stack.
  ghost predicate Visits(m: Memory, e: Entry, y: Config) {
    match e
    case PtrLTuple(c) => VisitsPair(m, c, y)
    case PtrSRecord(c) => VisitsRecord(m, c, y)
  }

  ghost predicate VisitsPair(m: Memory, c: nat, y: Config) {
    var h := Slot(c, 0);
    m.Written(h) && m.Read(h).Mark? && HeadCopied(m, c, m.Read(h).slot.cell, y.m)
      && y.at == Tail(c, m.Read(h).slot.cell)
  }

  ghost predicate VisitsRecord(m: Memory, c: nat, y: Config) {
    var h := Slot(c, 0);
    m.Written(h) && m.Read(h).Moved? &&
    var h' := Slot(m.Read(h).cell, 0);
    m.Written(h') && m.Read(h').Arity? && y == Config(m, Words(c, h'.cell, 1, m.Read(h').width + 2))
  }

  // The pair d, not marked yet, is copied into the next free cell in place of the tail of c'.
  ghost predicate PairReached(m: Memory, c': nat, d: nat, y: Config) {
    var f, t := Slot(d, 0), Slot(m.next, 0);
    && MarksAfter(m.Fill(Slot(c', 1), LTuple(m.next)).(next := m.next + 1), f, t, y.m)
    && y.at == Tail(d, m.next)
  }

  // The tail of c refers to slot z.
  ghost predicate TailCopied(m: Memory, c: nat, c': nat, z: Slot, y: Config)
    requires m.Written(z)
  {
    match m.Read(z)
    case LTuple(d) => m.Written(Slot(d, 0)) &&
      if m.Read(Slot(d, 0)).Mark? then y == Config(m.Fill(Slot(c', 1), LTuple(m.Read(Slot(d, 0)).slot.cell)), Idle)
      else PairReached(m, c', d, y)
    case _ => Copies(m, Slot(c, 1), Slot(c', 1), y.m) && y.at == Idle
  }

  ghost function Rest(m: Memory): Memory
    requires |m.stack| > 0
  {
    m.(stack := m.stack[..|m.stack| - 1])
  }

  ghost predicate Steps(x: Config, y: Config) {
    match x.at
    case Idle => |x.m.stack| > 0 && Visits(Rest(x.m), x.m.stack[|x.m.stack| - 1], y)
    case Words(c, c', i, hi) =>
      if i < hi then Copies(x.m, Slot(c, i), Slot(c', i), y.m) && y.at == Words(c, c', i + 1, hi)
      else y == Config(x.m, Idle)
    case Tail(c, c') =>
      exists n: nat, z :: Ends(x.m, Slot(c, 1), n, z) && x.m.Written(z) && TailCopied(x.m, c, c', z, y)
  }

  // The stack is drained.
  ghost predicate Finished(x: Config) { x.at.Idle? && x.m.stack == [] }

  // The machine reaches y from x in k steps.
  ghost predicate Reaches(x: Config, k: nat, y: Config) { Run(STEP, x, k, y) }

  ghost const STEP: (Config, Config) -> bool := (v, w) => Steps(v, w)

  // ---------------------------------------------------------------- the machine has one run

  lemma {:induction false} EndsUnique(m: Memory, s: Slot, n: nat, z: Slot, n': nat, z': Slot)
    requires Ends(m, s, n, z) && Ends(m, s, n', z')
    ensures n == n' && z == z'
    decreases n
  {
    if n > 0 && n' > 0 { EndsUnique(m, m.Read(s).slot, n - 1, z, n' - 1, z'); }
  }

  lemma CopiesUnique(m: Memory, f: Slot, t: Slot, m1: Memory, m2: Memory)
    requires Copies(m, f, t, m1) && Copies(m, f, t, m2)
    ensures m1 == m2
  {
    var n1: nat, z1 :| Ends(m, f, n1, z1) && m.Written(z1) && WordCopied(m, f, t, z1) == Now(m1);
    var n2: nat, z2 :| Ends(m, f, n2, z2) && m.Written(z2) && WordCopied(m, f, t, z2) == Now(m2);
    EndsUnique(m, f, n1, z1, n2, z2);
  }

  lemma MarksUnique(m: Memory, f: Slot, t: Slot, m1: Memory, m2: Memory)
    requires MarksAfter(m, f, t, m1) && MarksAfter(m, f, t, m2)
    ensures m1 == m2
  {
    var a :| Copies(m, f, t, a) && m1 == a.Overwrite(f, Mark(t));
    var b :| Copies(m, f, t, b) && m2 == b.Overwrite(f, Mark(t));
    CopiesUnique(m, f, t, a, b);
  }

  lemma HeadUnique(m: Memory, c: nat, c': nat, m1: Memory, m2: Memory)
    requires HeadCopied(m, c, c', m1) && HeadCopied(m, c, c', m2)
    ensures m1 == m2
  {
    var f, t := Slot(c, 0), Slot(c', 0);
    forall n: nat, z, n': nat, z' | Ends(m, t, n, z) && Ends(m, t, n', z') ensures z == z' {
      EndsUnique(m, t, n, z, n', z');
    }
    var m0 := m.Overwrite(f, m.Read(t));
    if MarksAfter(m0, f, t, m1) && MarksAfter(m0, f, t, m2) { MarksUnique(m0, f, t, m1, m2); }
  }

  lemma TailUnique(m: Memory, c: nat, c': nat, z: Slot, y1: Config, y2: Config)
    requires m.Written(z) && TailCopied(m, c, c', z, y1) && TailCopied(m, c, c', z, y2)
    ensures y1 == y2
  {
    match m.Read(z)
    case LTuple(d) =>
      if !m.Read(Slot(d, 0)).Mark? {
        var m0 := m.Fill(Slot(c', 1), LTuple(m.next)).(next := m.next + 1);
        MarksUnique(m0, Slot(d, 0), Slot(m.next, 0), y1.m, y2.m);
      }
    case _ => CopiesUnique(m, Slot(c, 1), Slot(c', 1), y1.m, y2.m);
  }

  lemma StepUnique(x: Config, y1: Config, y2: Config)
    requires Steps(x, y1) && Steps(x, y2)
    ensures y1 == y2
  {
    match x.at
    case Idle =>
      var e := x.m.stack[|x.m.stack| - 1];
      if e.PtrLTuple? {
        HeadUnique(Rest(x.m), e.cell, Rest(x.m).Read(Slot(e.cell, 0)).slot.cell, y1.m, y2.m);
      }
    case Words(c, c', i, hi) =>
      if i < hi { CopiesUnique(x.m, Slot(c, i), Slot(c', i), y1.m, y2.m); }
    case Tail(c, c') =>
      var n1: nat, z1 :| Ends(x.m, Slot(c, 1), n1, z1) && x.m.Written(z1) && TailCopied(x.m, c, c', z1, y1);
      var n2: nat, z2 :| Ends(x.m, Slot(c, 1), n2, z2) && x.m.Written(z2) && TailCopied(x.m, c, c', z2, y2);
      EndsUnique(x.m, Slot(c, 1), n1, z1, n2, z2);
      TailUnique(x.m, c, c', z1, y1, y2);
  }

  ghost predicate Closed(C: iset<Config>) {
    forall v, w {:trigger Steps(v, w)} :: v in C && Steps(v, w) ==> w in C
  }

  // The machine gets from x to y: y lies in every set that contains x and, with a configuration, what follows it.
  ghost predicate Gets(x: Config, y: Config) {
    forall C: iset<Config> {:trigger Closed(C)} :: x in C && Closed(C) ==> y in C
  }

  ghost predicate Reached(x: Config, y: Config) { exists k: nat :: Reaches(x, k, y) }

  // That is so if and only if some number of steps lead from x to y.
  lemma GetsReaches(x: Config, y: Config)
    ensures Gets(x, y) <==> Reached(x, y)
  {
    if Gets(x, y) {
      var C := iset z | Reached(x, z);
      forall v, w | v in C && Steps(v, w) ensures w in C {
        var k: nat :| Reaches(x, k, v);
        RunStep(STEP, x, k, v, w);
        assert Reaches(x, k + 1, w);
      }
      assert Closed(C) && Reaches(x, 0, x);
    }
    if k: nat :| Reaches(x, k, y) {
      forall C: iset<Config> | x in C && Closed(C) ensures y in C { RunKeeps(STEP, v => v in C, x, k, y); }
    }
  }

  // The visit to the cell of an entry ends with the memory m'.
  ghost predicate Comes(m: Memory, e: Entry, m': Memory) {
    exists y :: Visits(m, e, y) && Gets(y, Config(m', Idle))
  }

  lemma GetsOne(x: Config, y: Config)
    requires Steps(x, y)
    ensures Gets(x, y)
  {
  }

  lemma GetsStep(x: Config, y: Config, z: Config)
    requires Gets(x, y) && Steps(y, z)
    ensures Gets(x, z)
  {
  }

  lemma GetsJoin(x: Config, y: Config, z: Config)
    requires Gets(x, y) && Gets(y, z)
    ensures Gets(x, z)
  {
  }

  lemma WordsDone(x: Config, m: Memory, c: nat, c': nat, i: nat, hi: nat)
    requires Gets(x, Config(m, Words(c, c', i, hi))) && i >= hi
    ensures Gets(x, Config(m, Idle))
  {
    GetsOne(Config(m, Words(c, c', i, hi)), Config(m, Idle));
  }
}

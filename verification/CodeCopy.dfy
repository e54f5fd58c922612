// Copying the code of a definition: the words are copied, and each operand that has to be renamed is
// replaced by its image under one substitution, remembered for the whole copy.
module CodeCopy {
  import opened Opcodes

  type Term = int

  datatype RecordArity = TupleArity(width: nat) | Features(features: seq<Term>)

  datatype TableEntry = Free | Record(value: Term, arity: RecordArity, lbl: int) | Scalar(value: Term, lbl: int)

  class AbstractionEntry {
    constructor () {}
  }

  // What is known about a procedure.
  class PrTabEntry {
    const name: Term
    const arity: RecordArity
    const source: (int, int, int)   // file, line and column
    const maxX: int
    const gSize: int
    var pc: int                     // where its code begins

    constructor (name: Term, arity: RecordArity, source: (int, int, int), maxX: int, gSize: int)
      ensures this.name == name && this.arity == arity && this.source == source && this.maxX == maxX
        && this.gSize == gSize && pc == -1
    {
      this.name, this.arity, this.source, this.maxX, this.gSize, pc := name, arity, source, maxX, gSize, -1;
    }
  }

  class CallMethodInfo {
    const regIndex: int
    const name: Term
    const isTailCall: bool
    const arity: RecordArity

    constructor (regIndex: int, name: Term, isTailCall: bool, arity: RecordArity)
      ensures this.regIndex == regIndex && this.name == name && this.isTailCall == isTailCall && this.arity == arity
    {
      this.regIndex, this.name, this.isTailCall, this.arity := regIndex, name, isTailCall, arity;
    }
  }

  datatype Word =
    | Instr(op: Opcode)
    | Plain(value: int)          // a register, a relative label, a number
    | Constant(term: Term)
    | ArityRef(arity: RecordArity)
    | PredRef(pred: PrTabEntry)
    | ProcRef(entry: AbstractionEntry)
    | MethodRef(info: CallMethodInfo)
    | TableRef(entries: seq<TableEntry>)

  // ---------------------------------------------------------------- code

  // How many words an instruction takes, and what each of them is.
  datatype Layout = Layout(len: Opcode -> nat, kind: (Opcode, nat) -> Kind) {
    ghost predicate Valid() {
      forall op: Opcode, off: nat {:trigger kind(op, off)} ::
        !kind(op, off).Fixed? ==> 0 < off < len(op) && (kind(op, off).Pred? ==> off == 3 && len(op) == 6)
    }
  }

  lemma CopierLayout()
    ensures Layout(CopyLength, Operand).Valid()
  {
    var l := Layout(CopyLength, Operand);
    forall op: Opcode, off: nat | !l.kind(op, off).Fixed?
      ensures 0 < off < l.len(op) && (l.kind(op, off).Pred? ==> off == 3 && l.len(op) == 6) {
      OperandsInside(op, off);
    }
  }

  // The word is what the kind of operand asks for.
  predicate Suits(w: Word, k: Kind) {
    match k
    case Tagged => w.Constant?
    case Arity => w.ArityRef?
    case Pred => w.PredRef?
    case Proc => w.ProcRef?
    case Method => w.MethodRef?
    case Table => w.TableRef?
    case _ => true
  }

  ghost predicate InstrAt(l: Layout, code: seq<Word>, pc: nat) {
    && pc < |code| && code[pc].Instr? && 0 < l.len(code[pc].op) && pc + l.len(code[pc].op) <= |code|
    && forall off: nat {:trigger l.kind(code[pc].op, off)} ::
      off < l.len(code[pc].op) ==> Suits(code[pc + off], l.kind(code[pc].op, off))
  }

  // From pc on the code is a sequence of instructions, the last of which ends where the code ends.
  ghost predicate Parses(l: Layout, code: seq<Word>, pc: nat)
    decreases |code| - pc
  {
    pc == |code| || (InstrAt(l, code, pc) && Parses(l, code, pc + l.len(code[pc].op)))
  }

  // What the word at index i is.
  ghost function KindOf(l: Layout, code: seq<Word>, pc: nat, i: nat): Kind
    requires Parses(l, code, pc) && pc <= i < |code|
    decreases |code| - pc
  {
    var n := l.len(code[pc].op);
    if i < pc + n then l.kind(code[pc].op, i - pc) else KindOf(l, code, pc + n, i)
  }

  // ---------------------------------------------------------------- the substitution

  // The names and the abstraction entries that are renamed.
  datatype Names = Names(terms: map<Term, Term>, entries: map<AbstractionEntry, AbstractionEntry>)

  function TermImage(n: Names, t: Term): Term { if t in n.terms then n.terms[t] else t }

  function EntryImage(n: Names, e: AbstractionEntry): AbstractionEntry { if e in n.entries then n.entries[e] else e }

  function TermImages(n: Names, ts: seq<Term>): seq<Term> {
    if ts == [] then [] else TermImages(n, ts[..|ts| - 1]) + [TermImage(n, ts[|ts| - 1])]
  }

  function ArityImage(n: Names, a: RecordArity): RecordArity {
    if a.TupleArity? then a else Features(TermImages(n, a.features))
  }

  function TableEntryImage(n: Names, e: TableEntry): TableEntry {
    match e
    case Record(v, a, l) => Record(TermImage(n, v), ArityImage(n, a), l)
    case _ => e
  }

  function TableImage(n: Names, es: seq<TableEntry>): seq<TableEntry> {
    if es == [] then [] else TableImage(n, es[..|es| - 1]) + [TableEntryImage(n, es[|es| - 1])]
  }

  // New names are at least base, and different for different names.
  ghost predicate NewNames(n: Names, base: Term) {
    && (forall t {:trigger n.terms[t]} :: t in n.terms ==> n.terms[t] >= base)
    && (forall t, u {:trigger n.terms[t], n.terms[u]} ::
      t in n.terms && u in n.terms && n.terms[t] == n.terms[u] ==> t == u)
  }

  // No two terms are identified by the renaming.
  lemma RenamingKeepsApart(n: Names, base: Term, t: Term, u: Term)
    requires NewNames(n, base) && t < base && u < base
    ensures TermImage(n, t) == TermImage(n, u) <==> t == u
  {
  }

  lemma {:induction false} AritiesKeptApart(n: Names, base: Term, s: seq<Term>, t: seq<Term>)
    requires NewNames(n, base) && (forall i :: 0 <= i < |s| ==> s[i] < base)
      && (forall i :: 0 <= i < |t| ==> t[i] < base)
    ensures |TermImages(n, s)| == |s|
    ensures TermImages(n, s) == TermImages(n, t) <==> s == t
    decreases |s| + |t|
  {
    if s != [] { AritiesKeptApart(n, base, s[..|s| - 1], []); }
    if t != [] { AritiesKeptApart(n, base, [], t[..|t| - 1]); }
    if s != [] && t != [] {
      var i, j := |s| - 1, |t| - 1;
      AritiesKeptApart(n, base, s[..i], t[..j]);
      AritiesKeptApart(n, base, s[..i], []);
      RenamingKeepsApart(n, base, s[i], t[j]);
      if TermImages(n, s) == TermImages(n, t) {
        var a, b := TermImages(n, s), TermImages(n, t);
        assert a[..|a| - 1] == TermImages(n, s[..i]) && b[..|b| - 1] == TermImages(n, t[..j]);
        assert s == s[..i] + [s[i]] && t == t[..j] + [t[j]];
      }
    }
  }

  // ---------------------------------------------------------------- what has been copied so far

  type Preds = map<PrTabEntry, PrTabEntry>

  type Methods = map<CallMethodInfo, CallMethodInfo>

  // q is the renamed copy of p.
  ghost predicate PredCopy(n: Names, p: PrTabEntry, q: PrTabEntry) {
    q.name == p.name && q.arity == ArityImage(n, p.arity) && q.source == p.source && q.maxX == p.maxX
      && q.gSize == p.gSize
  }

  ghost predicate MethodCopy(n: Names, m: CallMethodInfo, c: CallMethodInfo) {
    c.regIndex == m.regIndex && c.name == TermImage(n, m.name) && c.isTailCall == m.isTailCall && c.arity == m.arity
  }

  // What a word becomes.
  ghost predicate Copied(n: Names, ps: Preds, ms: Methods, w: Word, w': Word, k: Kind) {
    match k
    case Fixed => w' == w
    case Tagged => w.Constant? && w' == Constant(TermImage(n, w.term))
    case Arity => w.ArityRef? && w' == ArityRef(ArityImage(n, w.arity))
    case Pred => w.PredRef? && w.pred in ps && w' == PredRef(ps[w.pred])
    case Proc => w.ProcRef? && w' == ProcRef(EntryImage(n, w.entry))
    case Method => w.MethodRef? && w.info in ms && w' == MethodRef(ms[w.info])
    case Cache => w' == Plain(0)
    case Table => w.TableRef? && w' == TableRef(TableImage(n, w.entries))
  }

  ghost predicate PredsGrow(m: Preds, m': Preds) {
    forall x {:trigger m[x]} :: x in m ==> x in m' && m'[x] == m[x]
  }

  ghost predicate MethodsGrow(m: Methods, m': Methods) {
    forall x {:trigger m[x]} :: x in m ==> x in m' && m'[x] == m[x]
  }

  // The table that remembers what has been copied.
  class Memo {
    const names: Names
    ghost const ope: PrTabEntry               // known from the start
    var arities: map<RecordArity, RecordArity>
    var preds: Preds
    var methods: Methods

    constructor (names: Names, ope: PrTabEntry, pe: PrTabEntry)
      ensures this.names == names && this.ope == ope && preds == map[ope := pe] && methods == map[] && Valid()
    {
      this.names, this.ope, arities, preds, methods := names, ope, map[], map[ope := pe], map[];
    }

    ghost predicate PredOk(p: PrTabEntry)
      reads `preds
    {
      p in preds && (p != ope ==> PredCopy(names, p, preds[p])) && forall r {:trigger preds[r]} ::
        r in preds && preds[r] == preds[p] ==> r == p
    }

    ghost predicate MethodOk(m: CallMethodInfo)
      reads `methods
    {
      m in methods && MethodCopy(names, m, methods[m]) && forall x {:trigger methods[x]} ::
        x in methods && methods[x] == methods[m] ==> x == m
    }

    ghost predicate Valid()
      reads this
    {
      && (forall a :: a in arities ==> arities[a] == ArityImage(names, a))
      && (forall p {:trigger PredOk(p)} :: p in preds ==> PredOk(p))
      && (forall m {:trigger MethodOk(m)} :: m in methods ==> MethodOk(m))
    }

    method CheckArity(a: RecordArity) returns (r: RecordArity)
      requires Valid()
      modifies `arities
      ensures Valid() && r == ArityImage(names, a)
    {
      if a.TupleArity? { return a; }
      if a in arities { return arities[a]; }
      var renamed := [];
      var i := 0;
      while i < |a.features|
        invariant 0 <= i <= |a.features| && renamed == TermImages(names, a.features[..i])
      {
        assert a.features[..i + 1][..i] == a.features[..i];
        renamed := renamed + [TermImage(names, a.features[i])];
        i := i + 1;
      }
      assert a.features[..i] == a.features;
      r := Features(renamed);
      arities := arities[a := r];
      forall p | p in preds ensures PredOk(p) { assert old(PredOk(p)); }
      forall m | m in methods ensures MethodOk(m) { assert old(MethodOk(m)); }
    }

    // The copy of p, a new one if there is none yet.
    method CheckPred(p: PrTabEntry) returns (q: PrTabEntry)
      requires Valid()
      modifies `arities, `preds
      ensures Valid() && PredsGrow(old(preds), preds) && p in preds && q == preds[p]
      ensures preds == if p in old(preds) then old(preds) else old(preds)[p := q]
      ensures p !in old(preds) ==> fresh(q)
    {
      if p in preds { return preds[p]; }
      var arity := CheckArity(p.arity);
      q := new PrTabEntry(p.name, arity, p.source, p.maxX, p.gSize);
      label L:
      preds := preds[p := q];
      forall r | r in preds ensures PredOk(r) {
        assert r != p ==> old@L(PredOk(r));
        assert forall t :: t in old(preds) ==> preds[t] != q;
      }
      forall m | m in methods ensures MethodOk(m) { assert old@L(MethodOk(m)); }
    }

    method CheckMethod(m: CallMethodInfo) returns (c: CallMethodInfo)
      requires Valid()
      modifies `methods
      ensures Valid() && m in methods && c == methods[m] && preds == old(preds)
      ensures MethodsGrow(old(methods), methods) && forall x {:trigger methods[x]} ::
        x in methods ==> x in old(methods) || fresh(methods[x])
    {
      var newname := TermImage(names, m.name);
      if m in methods { return methods[m]; }
      c := new CallMethodInfo(m.regIndex, newname, m.isTailCall, m.arity);
      methods := methods[m := c];
      forall p | p in preds ensures PredOk(p) { assert old(PredOk(p)); }
      forall x | x in methods ensures MethodOk(x) {
        assert x != m ==> old(MethodOk(x));
        assert forall y :: y in old(methods) ==> methods[y] != c;
      }
    }

    method CheckTable(es: seq<TableEntry>) returns (r: seq<TableEntry>)
      requires Valid()
      modifies `arities
      ensures Valid() && r == TableImage(names, es)
    {
      r := [];
      var i := 0;
      while i < |es|
        invariant 0 <= i <= |es| && Valid() && r == TableImage(names, es[..i])
      {
        assert es[..i + 1][..i] == es[..i];
        var e := es[i];
        if e.Record? {
          var arity := CheckArity(e.arity);
          r := r + [Record(TermImage(names, e.value), arity, e.lbl)];
        } else {
          r := r + [e];
        }
        i := i + 1;
      }
      assert es[..i] == es;
    }
  }

  // ---------------------------------------------------------------- the copy

  // Word i of the copy is done; a definition has told its procedure where its code begins.
  ghost predicate WordDone(memo: Memo, src: seq<Word>, kinds: seq<Kind>, code: array<Word>, i: nat)
    reads memo, code
  {
    i < |src| && i < |kinds| && i < code.Length && Copied(memo.names, memo.preds, memo.methods, src[i], code[i],
      kinds[i])
  }

  // The first `done` words have been copied, the others are still those of the source.
  ghost predicate Progress(memo: Memo, src: seq<Word>, kinds: seq<Kind>, code: array<Word>, done: nat)
    reads memo, code
  {
    && memo.Valid() && |kinds| == |src| <= code.Length && done <= |src|
    && (forall i: nat {:trigger WordDone(memo, src, kinds, code, i)} ::
      i < done ==> WordDone(memo, src, kinds, code, i))
    && (forall i {:trigger code[i]} :: done <= i < |src| ==> code[i] == src[i])
  }

  // One word is replaced by what it becomes.
  method CopyWord(memo: Memo, code: array<Word>, pos: nat, k: Kind, ghost src: seq<Word>, ghost kinds: seq<Kind>)
    returns (pred: PrTabEntry?)
    requires Progress(memo, src, kinds, code, pos) && pos < |src| && kinds[pos] == k && Suits(src[pos], k)
    modifies memo`arities, memo`preds, memo`methods, code
    ensures Progress(memo, src, kinds, code, pos + 1) && PredsGrow(old(memo.preds), memo.preds)
    ensures forall i :: |src| <= i < code.Length ==> code[i] == old(code[i])
    ensures k.Pred? <==> pred != null
    ensures k.Pred? ==> src[pos].pred in memo.preds && pred == memo.preds[src[pos].pred]
    ensures k.Pred? ==> memo.preds == if src[pos].pred in old(memo.preds) then old(memo.preds)
      else old(memo.preds)[src[pos].pred := pred]
    ensures k.Pred? && src[pos].pred !in old(memo.preds) ==> fresh(pred)
    ensures !k.Pred? ==> memo.preds == old(memo.preds)
    ensures MethodsGrow(old(memo.methods), memo.methods)
    ensures forall m {:trigger memo.methods[m]} ::
      m in memo.methods ==> m in old(memo.methods) || fresh(memo.methods[m])
  {
    var w := code[pos];
    pred := null;
    match k {
      case Fixed =>
      case Tagged => code[pos] := Constant(TermImage(memo.names, w.term));
      case Arity =>
        var a := memo.CheckArity(w.arity);
        code[pos] := ArityRef(a);
      case Pred =>
        var q := memo.CheckPred(w.pred);
        code[pos] := PredRef(q);
        pred := q;
      case Proc => code[pos] := ProcRef(EntryImage(memo.names, w.entry));
      case Method =>
        var c := memo.CheckMethod(w.info);
        code[pos] := MethodRef(c);
      case Cache => code[pos] := Plain(0);
      case Table =>
        var t := memo.CheckTable(w.entries);
        code[pos] := TableRef(t);
    }
    forall i: nat | i < pos + 1 ensures WordDone(memo, src, kinds, code, i) {
      if i < pos { assert old(WordDone(memo, src, kinds, code, i)); }
    }
  }

  // The procedure that word i defines begins behind the last of its definitions so far.
  ghost predicate PcOk(memo: Memo, src: seq<Word>, kinds: seq<Kind>, lastAt: map<PrTabEntry, nat>, i: nat)
    reads memo`preds, set p | p in memo.preds :: memo.preds[p]`pc
  {
    i < |src| && i < |kinds| && (kinds[i].Pred? && src[i].PredRef? ==>
      var p := src[i].pred;
      && p in memo.preds && p in lastAt && i <= lastAt[p] < |src| && lastAt[p] < |kinds| && src[lastAt[p]] == src[i]
      && kinds[lastAt[p]].Pred?
      && memo.preds[p].pc == lastAt[p] + 3)
  }

  ghost predicate PcsOk(memo: Memo, src: seq<Word>, kinds: seq<Kind>, lastAt: map<PrTabEntry, nat>, done: nat)
    reads memo`preds, set p | p in memo.preds :: memo.preds[p]`pc
  {
    forall i: nat {:trigger PcOk(memo, src, kinds, lastAt, i)} :: i < done ==> PcOk(memo, src, kinds, lastAt, i)
  }

  // The copies are procedures of which the copier may set the code.
  ghost predicate Owned(memo: Memo, mine: set<PrTabEntry>)
    reads memo`preds
  {
    forall p {:trigger memo.preds[p]} :: p in memo.preds ==> memo.preds[p] in mine
  }

  // One word, and the beginning of the code of the procedure if the word is one.
  method CopyOperand(memo: Memo, code: array<Word>, pos: nat, k: Kind, ghost src: seq<Word>, ghost kinds: seq<Kind>,
                     ghost lastAt: map<PrTabEntry, nat>, ghost mine: set<PrTabEntry>)
    returns (ghost lastAt': map<PrTabEntry, nat>, ghost mine': set<PrTabEntry>)
    requires Progress(memo, src, kinds, code, pos) && pos < |src| && kinds[pos] == k && Suits(src[pos], k)
    requires PcsOk(memo, src, kinds, lastAt, pos) && Owned(memo, mine)
    modifies memo`arities, memo`preds, memo`methods, code, mine`pc
    ensures Progress(memo, src, kinds, code, pos + 1) && PredsGrow(old(memo.preds), memo.preds)
    ensures PcsOk(memo, src, kinds, lastAt', pos + 1) && Owned(memo, mine') && mine <= mine' && fresh(mine' - mine)
    ensures MethodsGrow(old(memo.methods), memo.methods)
    ensures forall m {:trigger memo.methods[m]} ::
      m in memo.methods ==> m in old(memo.methods) || fresh(memo.methods[m])
    ensures forall i :: |src| <= i < code.Length ==> code[i] == old(code[i])
  {
    lastAt', mine' := lastAt, mine;
    var q := CopyWord(memo, code, pos, k, src, kinds);
    if q != null {
      ghost var p := src[pos].pred;
      SetPC(memo, q, pos + 3, src, kinds, code, pos + 1);
      lastAt', mine' := lastAt[p := pos], mine + {q};
      assert memo.PredOk(p);
    }
    forall i: nat | i < pos + 1 ensures PcOk(memo, src, kinds, lastAt', i) {
      if i < pos {
        assert old(PcOk(memo, src, kinds, lastAt, i));
        assert kinds[i].Pred? && src[i].PredRef? ==> src[i].pred in old(memo.preds) && memo.PredOk(src[i].pred);
      }
    }
  }

  method SetPC(memo: Memo, q: PrTabEntry, pc: int, ghost src: seq<Word>, ghost kinds: seq<Kind>, code: array<Word>,
               ghost done: nat)
    requires Progress(memo, src, kinds, code, done)
    modifies q`pc
    ensures q.pc == pc && Progress(memo, src, kinds, code, done)
  {
    q.pc := pc;
    forall i: nat | i < done ensures WordDone(memo, src, kinds, code,
      i) { assert old(WordDone(memo, src, kinds, code, i)); }
  }

  // Where the instruction at pc is reached, kinds says what each word from there on is.
  ghost predicate KindsFrom(l: Layout, src: seq<Word>, kinds: seq<Kind>, pc: nat) {
    |kinds| == |src| && pc <= |src| && Parses(l, src, pc) && forall i: nat {:trigger kinds[i]} ::
      pc <= i < |src| ==> kinds[i] == KindOf(l, src, pc, i)
  }

  lemma KindsNext(l: Layout, src: seq<Word>, kinds: seq<Kind>, pc: nat)
    requires KindsFrom(l, src, kinds, pc) && pc < |src|
    ensures InstrAt(l, src, pc) && KindsFrom(l, src, kinds, pc + l.len(src[pc].op))
    ensures forall off: nat {:trigger l.kind(src[pc].op, off)} ::
      off < l.len(src[pc].op) ==> kinds[pc + off] == l.kind(src[pc].op, off)
  {
  }

  // The words of one instruction.
  method CopyInstr(l: Layout, memo: Memo, code: array<Word>, pc: nat, ghost src: seq<Word>, ghost kinds: seq<Kind>,
                   ghost lastAt: map<PrTabEntry, nat>, ghost mine: set<PrTabEntry>)
    returns (next: nat, ghost lastAt': map<PrTabEntry, nat>, ghost mine': set<PrTabEntry>)
    requires l.Valid() && KindsFrom(l, src, kinds, pc) && pc < |src|
    requires Progress(memo, src, kinds, code, pc) && PcsOk(memo, src, kinds, lastAt, pc) && Owned(memo, mine)
    modifies memo`arities, memo`preds, memo`methods, code, mine`pc
    ensures next > pc && KindsFrom(l, src, kinds, next)
    ensures Progress(memo, src, kinds, code, next) && PredsGrow(old(memo.preds), memo.preds)
    ensures PcsOk(memo, src, kinds, lastAt', next) && Owned(memo, mine') && mine <= mine' && fresh(mine' - mine)
    ensures MethodsGrow(old(memo.methods), memo.methods)
    ensures forall m {:trigger memo.methods[m]} ::
      m in memo.methods ==> m in old(memo.methods) || fresh(memo.methods[m])
    ensures forall i :: |src| <= i < code.Length ==> code[i] == old(code[i])
  {
    KindsNext(l, src, kinds, pc);
    var op := code[pc].op;
    next := pc + l.len(op);
    lastAt', mine' := CopyOperands(l, memo, code, pc, op, next, src, kinds, lastAt, mine);
  }

  // The words of the instruction op that starts at pc.
  method CopyOperands(l: Layout, memo: Memo, code: array<Word>, pc: nat, op: Opcode, next: nat, ghost src: seq<Word>,
                      ghost kinds: seq<Kind>, ghost lastAt: map<PrTabEntry, nat>, ghost mine: set<PrTabEntry>)
    returns (ghost lastAt': map<PrTabEntry, nat>, ghost mine': set<PrTabEntry>)
    requires pc <= next <= |src| && |kinds| == |src|
    requires forall i :: pc <= i < next ==> kinds[i] == l.kind(op, i - pc) && Suits(src[i], kinds[i])
    requires Progress(memo, src, kinds, code, pc) && PcsOk(memo, src, kinds, lastAt, pc) && Owned(memo, mine)
    modifies memo`arities, memo`preds, memo`methods, code, mine`pc
    ensures Progress(memo, src, kinds, code, next) && PredsGrow(old(memo.preds), memo.preds)
    ensures PcsOk(memo, src, kinds, lastAt', next) && Owned(memo, mine') && mine <= mine' && fresh(mine' - mine)
    ensures MethodsGrow(old(memo.methods), memo.methods)
    ensures forall m {:trigger memo.methods[m]} ::
      m in memo.methods ==> m in old(memo.methods) || fresh(memo.methods[m])
    ensures forall i :: |src| <= i < code.Length ==> code[i] == old(code[i])
  {
    lastAt', mine' := lastAt, mine;
    var pos := pc;
    while pos < next
      invariant pc <= pos <= next
      invariant Progress(memo, src, kinds, code, pos) && PredsGrow(old(memo.preds), memo.preds)
      invariant PcsOk(memo, src, kinds, lastAt', pos) && Owned(memo, mine') && mine <= mine' && fresh(mine' - mine)
      invariant MethodsGrow(old(memo.methods), memo.methods)
      invariant forall m {:trigger memo.methods[m]} ::
        m in memo.methods ==> m in old(memo.methods) || fresh(memo.methods[m])
      invariant forall i :: |src| <= i < code.Length ==> code[i] == old(code[i])
    {
      lastAt', mine' := CopyOperand(memo, code, pos, l.kind(op, pos - pc), src, kinds, lastAt', mine');
      pos := pos + 1;
    }
  }

  // All instructions; the copy ends exactly at the end of the code.
  method CopyInstrs(l: Layout, memo: Memo, code: array<Word>, size: nat, ghost src: seq<Word>, ghost kinds: seq<Kind>,
                    ghost mine: set<PrTabEntry>) returns (pc: nat, ghost lastAt: map<PrTabEntry, nat>)
    requires l.Valid() && KindsFrom(l, src, kinds, 0) && size == |src|
    requires Progress(memo, src, kinds, code, 0) && Owned(memo, mine)
    modifies memo`arities, memo`preds, memo`methods, code, mine`pc
    ensures pc == size && Progress(memo, src, kinds, code, size) && PredsGrow(old(memo.preds), memo.preds)
      && PcsOk(memo, src, kinds, lastAt, size)
    ensures forall p {:trigger memo.preds[p]} :: p in memo.preds ==> memo.preds[p] in mine || fresh(memo.preds[p])
    ensures MethodsGrow(old(memo.methods), memo.methods)
    ensures forall m {:trigger memo.methods[m]} ::
      m in memo.methods ==> m in old(memo.methods) || fresh(memo.methods[m])
    ensures forall i :: |src| <= i < code.Length ==> code[i] == old(code[i])
  {
    pc, lastAt := 0, map[];
    ghost var mine' := mine;
    while pc < size
      invariant KindsFrom(l, src, kinds, pc) && Progress(memo, src, kinds, code, pc)
        && PredsGrow(old(memo.preds), memo.preds)
      invariant PcsOk(memo, src, kinds, lastAt, pc) && Owned(memo, mine') && mine <= mine' && fresh(mine' - mine)
      invariant MethodsGrow(old(memo.methods), memo.methods)
      invariant forall m {:trigger memo.methods[m]} ::
        m in memo.methods ==> m in old(memo.methods) || fresh(memo.methods[m])
      invariant forall i :: |src| <= i < code.Length ==> code[i] == old(code[i])
      decreases size - pc
    {
      pc, lastAt, mine' := CopyInstr(l, memo, code, pc, src, kinds, lastAt, mine');
    }
  }

  ghost function KindSeq(l: Layout, src: seq<Word>): (r: seq<Kind>)
    requires Parses(l, src, 0)
    ensures KindsFrom(l, src, r, 0)
  {
    seq(|src|, i requires 0 <= i < |src| => KindOf(l, src, 0, i))
  }

  // ---------------------------------------------------------------- renaming

  datatype Renaming = RenameEntry(entry: AbstractionEntry) | RenameName(name: Term)

  // Exactly the names and the entries of the list are renamed, no two entries alike.
  ghost predicate Renames(n: Names, list: seq<Renaming>) {
    && (forall t {:trigger t in n.terms} :: t in n.terms <==> RenameName(t) in list)
    && (forall e {:trigger e in n.entries} :: e in n.entries ==> RenameEntry(e) in list)
    && (forall i {:trigger list[i]} :: 0 <= i < |list| && list[i].RenameEntry? ==> list[i].entry in n.entries)
    && (forall e, f {:trigger n.entries[e], n.entries[f]} ::
      e in n.entries && f in n.entries && n.entries[e] == n.entries[f] ==> e == f)
  }

  // What the copy has in place of the term t: the new name if t is on the list, t itself otherwise.
  ghost predicate TermRenamed(n: Names, list: seq<Renaming>, t: Term, t': Term) {
    if RenameName(t) in list then t in n.terms && t' == n.terms[t] else t' == t
  }

  ghost predicate EntryRenamed(n: Names, list: seq<Renaming>, e: AbstractionEntry, e': AbstractionEntry) {
    if RenameEntry(e) in list then e in n.entries && e' == n.entries[e] else e' == e
  }

  ghost predicate ArityRenamed(n: Names, list: seq<Renaming>, a: RecordArity, a': RecordArity) {
    if a.TupleArity? then a' == a
    else a'.Features? && |a'.features| == |a.features| && forall i {:trigger a.features[i]} ::
      0 <= i < |a.features| ==> TermRenamed(n, list, a.features[i], a'.features[i])
  }

  ghost predicate TableEntryRenamed(n: Names, list: seq<Renaming>, e: TableEntry, e': TableEntry) {
    if e.Record? then
      e'.Record? && TermRenamed(n, list, e.value, e'.value) && ArityRenamed(n, list, e.arity, e'.arity)
        && e'.lbl == e.lbl
    else e' == e
  }

  ghost predicate TableRenamed(n: Names, list: seq<Renaming>, es: seq<TableEntry>, es': seq<TableEntry>) {
    |es'| == |es| && forall i {:trigger es[i]} :: 0 <= i < |es| ==> TableEntryRenamed(n, list, es[i], es'[i])
  }

  ghost predicate PredRenamed(n: Names, list: seq<Renaming>, p: PrTabEntry, q: PrTabEntry) {
    q.name == p.name && ArityRenamed(n, list, p.arity, q.arity) && q.source == p.source && q.maxX == p.maxX
      && q.gSize == p.gSize
  }

  ghost predicate MethodRenamed(n: Names, list: seq<Renaming>, m: CallMethodInfo, c: CallMethodInfo) {
    c.regIndex == m.regIndex && TermRenamed(n, list, m.name, c.name) && c.isTailCall == m.isTailCall
      && c.arity == m.arity
  }

  // What the copy has in place of the word w.  The definition of ope has become that of pe.
  ghost predicate WordRenamed(n: Names, list: seq<Renaming>, ope: PrTabEntry, pe: PrTabEntry, w: Word, w': Word,
                              k: Kind) {
    match k
    case Fixed => w' == w
    case Tagged => w.Constant? && w'.Constant? && TermRenamed(n, list, w.term, w'.term)
    case Arity => w.ArityRef? && w'.ArityRef? && ArityRenamed(n, list, w.arity, w'.arity)
    case Pred => w.PredRef? && w'.PredRef? && (if w.pred == ope then w'.pred == pe
                                               else PredRenamed(n, list, w.pred, w'.pred))
    case Proc => w.ProcRef? && w'.ProcRef? && EntryRenamed(n, list, w.entry, w'.entry)
    case Method => w.MethodRef? && w'.MethodRef? && MethodRenamed(n, list, w.info, w'.info)
    case Cache => w' == Plain(0)
    case Table => w.TableRef? && w'.TableRef? && TableRenamed(n, list, w.entries, w'.entries)
  }

  lemma TermIs(n: Names, list: seq<Renaming>, t: Term)
    requires Renames(n, list)
    ensures TermRenamed(n, list, t, TermImage(n, t))
  {
  }

  lemma EntryIs(n: Names, list: seq<Renaming>, e: AbstractionEntry)
    requires Renames(n, list)
    ensures EntryRenamed(n, list, e, EntryImage(n, e))
  {
    if RenameEntry(e) in list {
      var i :| 0 <= i < |list| && list[i] == RenameEntry(e);
      assert list[i].entry in n.entries;
    }
  }

  lemma {:induction false} TermsAre(n: Names, list: seq<Renaming>, ts: seq<Term>)
    requires Renames(n, list)
    ensures |TermImages(n, ts)| == |ts|
    ensures forall i {:trigger ts[i]} :: 0 <= i < |ts| ==> TermRenamed(n, list, ts[i], TermImages(n, ts)[i])
  {
    if ts != [] {
      TermsAre(n, list, ts[..|ts| - 1]);
      TermIs(n, list, ts[|ts| - 1]);
      forall i | 0 <= i < |ts| ensures TermRenamed(n, list, ts[i], TermImages(n, ts)[i]) {
        if i < |ts| - 1 { assert ts[..|ts| - 1][i] == ts[i]; }
      }
    }
  }

  lemma ArityIs(n: Names, list: seq<Renaming>, a: RecordArity)
    requires Renames(n, list)
    ensures ArityRenamed(n, list, a, ArityImage(n, a))
  {
    if a.Features? { TermsAre(n, list, a.features); }
  }

  lemma {:induction false} TableIs(n: Names, list: seq<Renaming>, es: seq<TableEntry>)
    requires Renames(n, list)
    ensures TableRenamed(n, list, es, TableImage(n, es))
  {
    if es != [] {
      var less, e := es[..|es| - 1], es[|es| - 1];
      TableIs(n, list, less);
      if e.Record? {
        TermIs(n, list, e.value);
        ArityIs(n, list, e.arity);
      }
      forall i | 0 <= i < |es| ensures TableEntryRenamed(n, list, es[i], TableImage(n, es)[i]) {
        if i < |es| - 1 { assert less[i] == es[i]; }
      }
    }
  }

  // Copying a word renames exactly what the list says.
  lemma CopiedRenamed(memo: Memo, list: seq<Renaming>, w: Word, w': Word, k: Kind)
    requires memo.Valid() && Renames(memo.names, list) && memo.ope in memo.preds
    requires Copied(memo.names, memo.preds, memo.methods, w, w', k)
    ensures WordRenamed(memo.names, list, memo.ope, memo.preds[memo.ope], w, w', k)
  {
    var n := memo.names;
    match k
    case Tagged => TermIs(n, list, w.term);
    case Arity => ArityIs(n, list, w.arity);
    case Pred =>
      assert memo.PredOk(w.pred);
      ArityIs(n, list, w.pred.arity);
    case Proc => EntryIs(n, list, w.entry);
    case Method =>
      assert memo.MethodOk(w.info);
      TermIs(n, list, w.info.name);
    case Table => TableIs(n, list, w.entries);
    case _ =>
  }

  // No name of the list is left, as the new names are different from all of these.
  lemma NoneLeft(n: Names, list: seq<Renaming>, base: Term, t: Term, t': Term)
    requires Renames(n, list) && NewNames(n, base) && TermRenamed(n, list, t, t')
    requires forall u {:trigger RenameName(u)} :: RenameName(u) in list ==> u < base
    ensures RenameName(t') !in list
  {
    if RenameName(t) in list { assert n.terms[t] >= base; }
  }

  // No name and no entry of the list occurs in the word.
  ghost predicate Clean(list: seq<Renaming>, w: Word) {
    match w
    case Constant(t) => RenameName(t) !in list
    case ArityRef(a) => CleanArity(list, a)
    case ProcRef(e) => RenameEntry(e) !in list
    case MethodRef(m) => RenameName(m.name) !in list
    case TableRef(es) => forall i {:trigger es[i]} ::
      0 <= i < |es| && es[i].Record? ==> RenameName(es[i].value) !in list && CleanArity(list, es[i].arity)
    case _ => true
  }

  ghost predicate CleanArity(list: seq<Renaming>, a: RecordArity) {
    a.Features? ==> forall i {:trigger a.features[i]} :: 0 <= i < |a.features| ==> RenameName(a.features[i]) !in list
  }

  lemma ArityClean(n: Names, list: seq<Renaming>, base: Term, a: RecordArity, a': RecordArity)
    requires Renames(n, list) && NewNames(n, base) && ArityRenamed(n, list, a, a')
    requires forall u {:trigger RenameName(u)} :: RenameName(u) in list ==> u < base
    ensures CleanArity(list, a')
  {
    if a'.Features? {
      forall i | 0 <= i < |a'.features| ensures RenameName(a'.features[i]) !in list {
        NoneLeft(n, list, base, a.features[i], a'.features[i]);
      }
    }
  }

  lemma WordClean(n: Names, list: seq<Renaming>, base: Term, ope: PrTabEntry, pe: PrTabEntry, w: Word, w': Word,
                  k: Kind)
    requires Renames(n, list) && NewNames(n, base) && WordRenamed(n, list, ope, pe, w, w', k) && !k.Fixed?
    requires forall e {:trigger n.entries[e]} :: e in n.entries ==> RenameEntry(n.entries[e]) !in list
    requires forall u {:trigger RenameName(u)} :: RenameName(u) in list ==> u < base
    ensures Clean(list, w')
  {
    match k
    case Tagged => NoneLeft(n, list, base, w.term, w'.term);
    case Arity => ArityClean(n, list, base, w.arity, w'.arity);
    case Method => NoneLeft(n, list, base, w.info.name, w'.info.name);
    case Table =>
      var es, es' := w.entries, w'.entries;
      forall i | 0 <= i < |es'| && es'[i].Record?
        ensures RenameName(es'[i].value) !in list && CleanArity(list, es'[i].arity)
      {
        assert TableEntryRenamed(n, list, es[i], es'[i]);
        NoneLeft(n, list, base, es[i].value, es'[i].value);
        ArityClean(n, list, base, es[i].arity, es'[i].arity);
      }
    case _ =>
  }

  // New entries and new names for those of the list.
  method MakeNames(list: seq<Renaming>, base: Term) returns (n: Names)
    ensures NewNames(n, base) && Renames(n, list)
    ensures forall e {:trigger n.entries[e]} ::
      e in n.entries ==> fresh(n.entries[e]) && RenameEntry(n.entries[e]) !in list
  {
    n := Names(map[], map[]);
    var i, next := 0, base;
    while i < |list|
      invariant 0 <= i <= |list| && next >= base && NewNames(n, base) && forall t {:trigger n.terms[t]} ::
        t in n.terms ==> n.terms[t] < next
      invariant Renames(n, list[..i])
      invariant forall e {:trigger n.entries[e]} :: e in n.entries ==> fresh(n.entries[e])
    {
      assert list[..i + 1] == list[..i] + [list[i]];
      match list[i] {
        case RenameEntry(e) =>
          var newentry := new AbstractionEntry();
          n := n.(entries := n.entries[e := newentry]);
        case RenameName(t) =>
          n := n.(terms := n.terms[t := next]);
          next := next + 1;
      }
      i := i + 1;
    }
    assert list[..i] == list;
    forall e | e in n.entries ensures RenameEntry(n.entries[e]) !in list {
      assert forall k :: 0 <= k < |list| && list[k].RenameEntry? ==> list[k].entry != n.entries[e];
    }
  }

  // ---------------------------------------------------------------- a definition

  const SIZE_OF_DEF := 6

  // The definition whose code begins at `start` takes `size` words, its own instruction included.
  ghost predicate Definition(l: Layout, block: seq<Word>, start: nat, size: nat) {
    && SIZE_OF_DEF <= start && SIZE_OF_DEF <= size && start - SIZE_OF_DEF + size <= |block|
    && block[start - SIZE_OF_DEF + 2] == Plain(size)
    && Parses(l, block[start - SIZE_OF_DEF..start - SIZE_OF_DEF + size], 0)
  }

  // All words of the copy are those of the source, renamed.
  ghost predicate AllRenamed(n: Names, list: seq<Renaming>, ope: PrTabEntry, pe: PrTabEntry, src: seq<Word>,
                             dst: seq<Word>, kinds: seq<Kind>) {
    |dst| == |src| == |kinds| && forall i {:trigger kinds[i]} ::
      0 <= i < |src| ==> WordRenamed(n, list, ope, pe, src[i], dst[i], kinds[i])
  }

  lemma AllAreRenamed(memo: Memo, list: seq<Renaming>, src: seq<Word>, code: array<Word>, kinds: seq<Kind>)
    requires Progress(memo, src, kinds, code, |src|) && Renames(memo.names, list) && memo.ope in memo.preds
    ensures AllRenamed(memo.names, list, memo.ope, memo.preds[memo.ope], src, code[..|src|], kinds)
  {
    forall i | 0 <= i < |src|
      ensures WordRenamed(memo.names, list, memo.ope, memo.preds[memo.ope], src[i], code[i], kinds[i])
    {
      assert WordDone(memo, src, kinds, code, i);
      CopiedRenamed(memo, list, src[i], code[i], kinds[i]);
    }
  }

  // No operand that is renamed has a name or an entry of the list left in it.
  ghost predicate NothingLeft(list: seq<Renaming>, dst: seq<Word>, kinds: seq<Kind>) {
    |kinds| == |dst| && forall i {:trigger kinds[i]} :: 0 <= i < |dst| && !kinds[i].Fixed? ==> Clean(list, dst[i])
  }

  lemma NoneIsLeft(n: Names, list: seq<Renaming>, base: Term, ope: PrTabEntry, pe: PrTabEntry, src: seq<Word>,
                   dst: seq<Word>, kinds: seq<Kind>)
    requires Renames(n, list) && NewNames(n, base) && AllRenamed(n, list, ope, pe, src, dst, kinds)
    requires forall e {:trigger n.entries[e]} :: e in n.entries ==> RenameEntry(n.entries[e]) !in list
    ensures (forall t {:trigger RenameName(t)} :: RenameName(t) in list ==> t < base) ==> NothingLeft(list, dst, kinds)
  {
    if forall t {:trigger RenameName(t)} :: RenameName(t) in list ==> t < base {
      forall i | 0 <= i < |dst| && !kinds[i].Fixed? ensures Clean(list, dst[i]) {
        WordClean(n, list, base, ope, pe, src[i], dst[i], kinds[i]);
      }
    }
  }

  // Copy the definition of ope for pe.
  method CopyCode(l: Layout, ope: PrTabEntry, pe: PrTabEntry, block: array<Word>, start: nat, list: seq<Renaming>,
                  base: Term, ghost size: nat)
    returns (code: array<Word>, ret: nat, memo: Memo, ghost lastAt: map<PrTabEntry, nat>)
    requires l.Valid() && Definition(l, block[..], start, size)
    modifies pe`pc
    ensures fresh(code) && code.Length == size + 1 && ret == SIZE_OF_DEF && code[size] == Instr(ENDOFFILE)
    ensures memo.Valid() && NewNames(memo.names, base) && ope in memo.preds && memo.preds[ope] == pe
    ensures Renames(memo.names, list) && forall e {:trigger memo.names.entries[e]} ::
      e in memo.names.entries ==> fresh(memo.names.entries[e])
    ensures forall p {:trigger memo.preds[p]} :: p in memo.preds && p != ope ==> fresh(memo.preds[p])
    ensures forall m {:trigger memo.methods[m]} :: m in memo.methods ==> fresh(memo.methods[m])
    ensures var src := block[start - SIZE_OF_DEF..start - SIZE_OF_DEF + size];
      Progress(memo, src, KindSeq(l, src), code, size) && PcsOk(memo, src, KindSeq(l, src), lastAt, size)
    ensures var src := block[start - SIZE_OF_DEF..start - SIZE_OF_DEF + size];
      AllRenamed(memo.names, list, ope, pe, src, code[..size], KindSeq(l, src))
    ensures var kinds := KindSeq(l, block[start - SIZE_OF_DEF..start - SIZE_OF_DEF + size]);
      (forall t {:trigger RenameName(t)} :: RenameName(t) in list ==> t < base) ==>
      NothingLeft(list, code[..size], kinds)
  {
    var names := MakeNames(list, base);
    memo := new Memo(names, ope, pe);
    var begin := start - SIZE_OF_DEF;
    var n := block[begin + 2].value;
    ghost var src := block[begin..begin + n];
    ghost var kinds := KindSeq(l, src);
    code := Duplicate(block, begin, n);
    ghost var known := memo.preds;
    assert known[ope] == pe;
    var pc;
    pc, lastAt := CopyInstrs(l, memo, code, n, src, kinds, {pe});
    forall p | p in memo.preds && p != ope ensures fresh(memo.preds[p]) { assert memo.PredOk(p) && memo.PredOk(ope); }
    AllAreRenamed(memo, list, src, code, kinds);
    NoneIsLeft(memo.names, list, base, ope, pe, src, code[..n], kinds);
    ret := SIZE_OF_DEF;
  }

  // The n words from `begin` on, and behind them the mark of the end.
  method Duplicate(block: array<Word>, begin: nat, n: nat) returns (code: array<Word>)
    requires begin + n <= block.Length
    ensures fresh(code) && code.Length == n + 1 && code[n] == Instr(ENDOFFILE) && forall i ::
      0 <= i < n ==> code[i] == block[begin..begin + n][i]
  {
    code := new Word[n + 1](_ => Instr(ENDOFFILE));
    var i := 0;
    while i < n
      invariant 0 <= i <= n && code[n] == Instr(ENDOFFILE) && forall k :: 0 <= k < i ==> code[k] == block[begin + k]
    {
      code[i] := block[begin + i];
      i := i + 1;
    }
  }

  // ---------------------------------------------------------------- walking the copy

  // No instruction from pc on marks the end.
  ghost predicate Unended(l: Layout, code: seq<Word>, pc: nat)
    requires Parses(l, code, pc)
    decreases |code| - pc
  {
    pc == |code| || (code[pc].op != ENDOFFILE && Unended(l, code, pc + l.len(code[pc].op)))
  }

  ghost predicate AllCopied(n: Names, ps: Preds, ms: Methods, src: seq<Word>, dst: seq<Word>, kinds: seq<Kind>) {
    |dst| == |src| == |kinds| && forall i {:trigger kinds[i]} ::
      0 <= i < |src| ==> Copied(n, ps, ms, src[i], dst[i], kinds[i])
  }

  // The copy consists of the same instructions.
  lemma {:induction false} CopyParses(l: Layout, n: Names, ps: Preds, ms: Methods, src: seq<Word>, dst: seq<Word>,
                                      kinds: seq<Kind>, pc: nat)
    requires l.Valid() && KindsFrom(l, src, kinds, pc) && AllCopied(n, ps, ms, src, dst, kinds)
    ensures Parses(l, dst, pc) && KindsFrom(l, dst, kinds, pc) && (Unended(l, src, pc) ==> Unended(l, dst, pc))
    decreases |src| - pc
  {
    if pc < |src| {
      KindsNext(l, src, kinds, pc);
      var op := src[pc].op;
      assert l.kind(op, 0).Fixed?;
      assert kinds[pc + 0] == l.kind(op, 0);
      assert dst[pc] == src[pc];
      forall off: nat | off < l.len(op) ensures Suits(dst[pc + off], l.kind(op, off)) {
        assert Copied(n, ps, ms, src[pc + off], dst[pc + off], kinds[pc + off]);
      }
      CopyParses(l, n, ps, ms, src, dst, kinds, pc + l.len(op));
    }
  }

  lemma NextInstr(len: Opcode -> nat, l: Layout, words: seq<Word>, pc: nat)
    requires pc < |words| && Parses(l, words, pc) && Unended(l, words, pc)
    requires forall op {:trigger l.len(op)} :: l.len(op) > 0 ==> len(op) == l.len(op)
    ensures words[pc].Instr? && words[pc].op != ENDOFFILE && len(words[pc].op) > 0
    ensures var next := pc + len(words[pc].op); next <= |words| && Parses(l, words, next) && Unended(l, words, next)
  {
  }

  // The destructor's walk, with its own lengths, ends at the mark behind the code.
  method Walk(len: Opcode -> nat, code: array<Word>, ghost l: Layout, ghost size: nat) returns (pc: nat)
    requires size < code.Length && code[size] == Instr(ENDOFFILE)
    requires Parses(l, code[..size], 0) && Unended(l, code[..size], 0)
    requires forall op {:trigger l.len(op)} :: l.len(op) > 0 ==> len(op) == l.len(op)
    ensures pc == size
  {
    pc := 0;
    ghost var words := code[..size];
    while code[pc].op != ENDOFFILE
      invariant pc <= size && Parses(l, words, pc) && Unended(l, words, pc) && code[pc].Instr?
      decreases size - pc
    {
      assert code[pc] == words[pc];
      NextInstr(len, l, words, pc);
      pc := pc + len(code[pc].op);
    }
  }

  // Copy with the lengths of the copier, and walk over the copy with those of the garbage collector and of the
  // destructor.
  method CopyAndWalk(ope: PrTabEntry, pe: PrTabEntry, block: array<Word>, start: nat, list: seq<Renaming>, base: Term,
                     ghost size: nat) returns (code: array<Word>, collected: nat, finish: nat)
    requires Definition(Layout(CopyLength, Operand), block[..], start, size)
    requires Unended(Layout(CopyLength, Operand), block[start - SIZE_OF_DEF..start - SIZE_OF_DEF + size], 0)
    modifies pe`pc
    ensures collected == finish == size == code.Length - 1
  {
    var l := Layout(CopyLength, Operand);
    CopierLayout();
    var ret, memo;
    ghost var lastAt;
    code, ret, memo, lastAt := CopyCode(l, ope, pe, block, start, list, base, size);
    ghost var src := old(block[start - SIZE_OF_DEF..start - SIZE_OF_DEF + size]);
    ghost var kinds := KindSeq(l, src);
    forall i | 0 <= i < |src| ensures Copied(memo.names, memo.preds, memo.methods, src[i], code[..size][i], kinds[i]) {
      assert WordDone(memo, src, kinds, code, i);
    }
    CopyParses(l, memo.names, memo.preds, memo.methods, src, code[..size], kinds, 0);
    forall op | l.len(op) > 0 ensures WalkLength(op) == CollectLength(op) == l.len(op) {
      LengthsAgree(op);
      CollectorAgrees(op);
    }
    collected := Walk(CollectLength, code, l, size);
    finish := Walk(WalkLength, code, l, size);
  }
}

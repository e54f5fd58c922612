// Reflection of a constraint graph: starting from a term, a worklist collects the variables and the
// propagators that can be reached, gives each an identifier and emits one record for each.
module Reflection {

  newtype Var = int
  newtype Prop = int

  datatype Term = Literal | Number | Unknown(v: Var) | Cons(head: Term, tail: Term) | Tuple(args: seq<Term>)

  datatype Kind = Free | Domain | Boolean | Sets | Constraint | Unhandled

  datatype Suspendable = Thread | Suspended(p: Prop)

  // The suspension lists are in the order in which they are visited.
  datatype Variable = Variable(kind: Kind, lists: seq<seq<Suspendable>>)

  datatype Propagator = Propagator(dead: bool, params: Term)

  datatype Graph = Graph(vars: map<Var, Variable>, props: map<Prop, Propagator>)

  datatype Entry = PropEntry(p: Prop) | VarEntry(v: Var)

  datatype VarRecord = VarRecord(id: nat, kind: Kind, lists: seq<seq<nat>>)

  datatype PropRecord = PropRecord(id: nat, params: seq<nat>)

  // ---------------------------------------------------------------- what a term and a list mention

  // The variables of a term from left to right; the end of a list is not looked at.
  function Occurs(t: Term): seq<Var> {
    match t
    case Unknown(v) => [v]
    case Cons(h, tl) => Occurs(h) + ListOccurs(tl)
    case Tuple(args) => ArgsOccur(args)
    case _ => []
  }

  function ListOccurs(t: Term): seq<Var> {
    if t.Cons? then Occurs(t.head) + ListOccurs(t.tail) else []
  }

  function ArgsOccur(args: seq<Term>): seq<Var> {
    if args == [] then [] else Occurs(args[0]) + ArgsOccur(args[1..])
  }

  // The variables found in a term, whatever their order.
  ghost function Mentioned(t: Term): set<Var> {
    match t
    case Unknown(v) => {v}
    case Cons(h, tl) => Mentioned(h) + (if tl.Cons? then Mentioned(tl) else {})
    case Tuple(args) => set i, v | 0 <= i < |args| && v in Mentioned(args[i]) :: v
    case _ => {}
  }

  // The variable v is found in t when one goes down by the argument numbers in path; for a pair these are 0 and 1.
  ghost predicate Leads(t: Term, path: seq<nat>, v: Var) {
    match t
    case Unknown(w) => path == [] && w == v
    case Cons(h, tl) =>
      path != [] && (if path[0] == 0 then Leads(h, path[1..], v)
                     else path[0] == 1 && tl.Cons? && Leads(tl, path[1..], v))
    case Tuple(args) => path != [] && path[0] < |args| && Leads(args[path[0]], path[1..], v)
    case _ => false
  }

  // One path goes left of the other.
  ghost predicate LeftOf(p: seq<nat>, q: seq<nat>) {
    p != [] && q != [] && (p[0] < q[0] || (p[0] == q[0] && LeftOf(p[1..], q[1..])))
  }

  // The paths lead to the variables of vs, from left to right, and there are no others.
  ghost predicate InOrder(t: Term, paths: seq<seq<nat>>, vs: seq<Var>) {
    && |paths| == |vs| && (forall i {:trigger paths[i]} :: 0 <= i < |paths| ==> Leads(t, paths[i], vs[i]))
    && (forall i, j {:trigger paths[i], paths[j]} :: 0 <= i < j < |paths| ==> LeftOf(paths[i], paths[j]))
    && (forall path, v {:trigger Leads(t, path, v)} :: Leads(t, path, v) ==> path in paths)
  }

  // A live propagator is suspended here.
  ghost predicate Alive(props: map<Prop, Propagator>, s: Suspendable) {
    s.Suspended? && s.p in props && !props[s.p].dead
  }

  // ps are the live propagators at the positions ks of the list, from the front; there are no others.
  ghost predicate Picks(props: map<Prop, Propagator>, l: seq<Suspendable>, ks: seq<nat>, ps: seq<Prop>) {
    && |ks| == |ps| && (forall i, j :: 0 <= i < j < |ks| ==> ks[i] < ks[j])
    && (forall i :: 0 <= i < |ks| ==> ks[i] < |l| && l[ks[i]] == Suspended(ps[i]))
    && (forall k: nat {:trigger l[k]} :: k < |l| ==> (Alive(props, l[k]) <==> k in ks))
  }

  // The live propagators of a suspension list.
  function Live(props: map<Prop, Propagator>, l: seq<Suspendable>): seq<Prop> {
    if l == [] then []
    else if l[0].Suspended? && l[0].p in props && !props[l[0].p].dead then [l[0].p] + Live(props, l[1..])
    else Live(props, l[1..])
  }

  function Id<T>(m: map<T, nat>, x: T): nat { if x in m then m[x] else 0 }

  // The identifiers of s, last one first.
  function Ids<T>(s: seq<T>, m: map<T, nat>): seq<nat> {
    if s == [] then [] else [Id(m, s[|s| - 1])] + Ids(s[..|s| - 1], m)
  }

  // The paths, one argument further down.
  ghost function Below(k: nat, paths: seq<seq<nat>>): seq<seq<nat>> {
    seq(|paths|, i requires 0 <= i < |paths| => [k] + paths[i])
  }

  lemma BelowLeftOf(k: nat, p: seq<nat>, q: seq<nat>)
    ensures LeftOf([k] + p, [k] + q) <==> LeftOf(p, q)
  {
    assert ([k] + p)[1..] == p && ([k] + q)[1..] == q;
  }

  // Occurs lists every place of a variable, from left to right.
  lemma {:induction false} OccursInOrder(t: Term) returns (paths: seq<seq<nat>>)
    ensures InOrder(t, paths, Occurs(t))
    decreases t, 1
  {
    match t
    case Unknown(v) => paths := [[]];
    case Cons(h, tl) =>
      var ps := OccursInOrder(h);
      var qs := [];
      if tl.Cons? { qs := OccursInOrder(tl); }
      paths := Below(0, ps) + Below(1, qs);
      PairInOrder(t, ps, qs);
    case Tuple(args) => paths := ArgsInOrder(t, 0);
    case _ => paths := [];
  }

  lemma PairInOrder(t: Term, ps: seq<seq<nat>>, qs: seq<seq<nat>>)
    requires t.Cons? && InOrder(t.head, ps, Occurs(t.head))
    requires if t.tail.Cons? then InOrder(t.tail, qs, Occurs(t.tail)) else qs == []
    ensures InOrder(t, Below(0, ps) + Below(1, qs), Occurs(t))
  {
    var paths, vs, n := Below(0, ps) + Below(1, qs), Occurs(t), |ps|;
    OccursPair(t);
    forall i | 0 <= i < |paths| ensures Leads(t, paths[i], vs[i]) {
      assert paths[i][1..] == if i < n then ps[i] else qs[i - n];
      assert vs[i] == if i < n then Occurs(t.head)[i] else Occurs(t.tail)[i - n];
    }
    PathsJoined(ps, qs);
    forall path, v | Leads(t, path, v) ensures path in paths { PairPath(t, ps, qs, path, v); }
  }

  lemma OccursPair(t: Term)
    requires t.Cons?
    ensures Occurs(t) == Occurs(t.head) + (if t.tail.Cons? then Occurs(t.tail) else [])
  {
    match t
    case Cons(h, tl) =>
      match tl
      case Cons(h', tl') => assert Occurs(tl) == Occurs(h') + ListOccurs(tl') == ListOccurs(tl);
      case _ => assert ListOccurs(tl) == [];
  }

  lemma PathsJoined(ps: seq<seq<nat>>, qs: seq<seq<nat>>)
    requires forall i, j {:trigger ps[i], ps[j]} :: 0 <= i < j < |ps| ==> LeftOf(ps[i], ps[j])
    requires forall i, j {:trigger qs[i], qs[j]} :: 0 <= i < j < |qs| ==> LeftOf(qs[i], qs[j])
    ensures var paths := Below(0, ps) + Below(1, qs);
      forall i, j {:trigger paths[i], paths[j]} :: 0 <= i < j < |paths| ==> LeftOf(paths[i], paths[j])
  {
    var paths, n := Below(0, ps) + Below(1, qs), |ps|;
    forall i, j | 0 <= i < j < |paths| ensures LeftOf(paths[i], paths[j]) {
      if j < n { BelowLeftOf(0, ps[i], ps[j]); } else if i >= n { BelowLeftOf(1, qs[i - n], qs[j - n]); }
    }
  }

  lemma PairPath(t: Term, ps: seq<seq<nat>>, qs: seq<seq<nat>>, path: seq<nat>, v: Var)
    requires t.Cons? && InOrder(t.head, ps, Occurs(t.head)) && Leads(t, path, v)
    requires if t.tail.Cons? then InOrder(t.tail, qs, Occurs(t.tail)) else qs == []
    ensures path in Below(0, ps) + Below(1, qs)
  {
    var paths, rest := Below(0, ps) + Below(1, qs), path[1..];
    assert path == [path[0]] + rest;
    if path[0] == 0 {
      assert Leads(t.head, rest, v);
      var i :| 0 <= i < |ps| && ps[i] == rest;
      assert paths[i] == path;
    } else {
      assert Leads(t.tail, rest, v);
      var i :| 0 <= i < |qs| && qs[i] == rest;
      assert paths[|ps| + i] == path;
    }
  }

  // The same for the arguments from k on.
  ghost predicate RestInOrder(t: Term, k: nat, paths: seq<seq<nat>>, vs: seq<Var>) {
    && |paths| == |vs|
    && (forall i {:trigger paths[i]} ::
         0 <= i < |paths| ==> Leads(t, paths[i], vs[i]) && paths[i] != [] && k <= paths[i][0])
    && (forall i, j {:trigger paths[i], paths[j]} :: 0 <= i < j < |paths| ==> LeftOf(paths[i], paths[j]))
    && (forall path, v {:trigger Leads(t, path, v)} ::
         Leads(t, path, v) && path != [] && k <= path[0] ==> path in paths)
  }

  lemma {:induction false} ArgsInOrder(t: Term, k: nat) returns (paths: seq<seq<nat>>)
    requires t.Tuple? && k <= |t.args|
    ensures RestInOrder(t, k, paths, ArgsOccur(t.args[k..]))
    decreases t, 0, |t.args| - k
  {
    if k == |t.args| {
      paths := [];
    } else {
      var ps := OccursInOrder(t.args[k]);
      var qs := ArgsInOrder(t, k + 1);
      paths := Below(k, ps) + qs;
      assert t.args[k..][1..] == t.args[k + 1..];
      ArgInOrder(t, k, ps, qs);
    }
  }

  lemma ArgInOrder(t: Term, k: nat, ps: seq<seq<nat>>, qs: seq<seq<nat>>)
    requires t.Tuple? && k < |t.args| && InOrder(t.args[k], ps, Occurs(t.args[k]))
    requires RestInOrder(t, k + 1, qs, ArgsOccur(t.args[k + 1..]))
    ensures RestInOrder(t, k, Below(k, ps) + qs, Occurs(t.args[k]) + ArgsOccur(t.args[k + 1..]))
  {
    var paths, vs, n := Below(k, ps) + qs, Occurs(t.args[k]) + ArgsOccur(t.args[k + 1..]), |ps|;
    forall i | 0 <= i < |paths| ensures Leads(t, paths[i], vs[i]) && paths[i] != [] && k <= paths[i][0] {
      if i < n { assert paths[i][1..] == ps[i]; } else { assert paths[i] == qs[i - n]; }
    }
    forall i, j | 0 <= i < j < |paths| ensures LeftOf(paths[i], paths[j]) {
      if j < n {
        BelowLeftOf(k, ps[i], ps[j]);
      } else {
        assert paths[j] == qs[j - n];
        if i >= n { assert paths[i] == qs[i - n]; }
      }
    }
    forall path, v | Leads(t, path, v) && path != [] && k <= path[0] ensures path in paths {
      var rest := path[1..];
      assert path == [path[0]] + rest;
      if path[0] == k {
        assert Leads(t.args[k], rest, v);
        var i :| 0 <= i < n && ps[i] == rest;
        assert paths[i] == path;
      } else {
        var i :| 0 <= i < |qs| && qs[i] == path;
        assert paths[n + i] == path;
      }
    }
  }

  // The variables listed are those found in the term.
  lemma {:induction false} OccursMentioned(t: Term)
    ensures Members(Occurs(t)) == Mentioned(t)
    decreases t, 1
  {
    match t
    case Cons(h, tl) =>
      OccursMentioned(h);
      if tl.Cons? { OccursMentioned(tl); }
      MembersJoin(Occurs(h), ListOccurs(tl));
    case Tuple(args) =>
      assert args[0..] == args;
      forall v ensures v in Members(Occurs(t)) <==> v in Mentioned(t) { ArgsMentioned(t, 0, v); }
    case _ =>
  }

  lemma {:induction false} ArgsMentioned(t: Term, k: nat, v: Var)
    requires t.Tuple? && k <= |t.args|
    ensures v in ArgsOccur(t.args[k..]) <==> exists i :: k <= i < |t.args| && v in Mentioned(t.args[i])
    decreases t, 0, |t.args| - k
  {
    if k < |t.args| {
      assert t.args[k..][1..] == t.args[k + 1..];
      OccursMentioned(t.args[k]);
      assert v in Occurs(t.args[k]) <==> v in Members(Occurs(t.args[k]));
      ArgsMentioned(t, k + 1, v);
    }
  }

  lemma MembersJoin<T>(s: seq<T>, r: seq<T>)
    ensures Members(s + r) == Members(s) + Members(r)
  {
  }

  // Live picks the live propagators and nothing else, in the order of the list and as often as they are on it.
  lemma {:induction false} LiveInOrder(props: map<Prop, Propagator>, l: seq<Suspendable>) returns (ks: seq<nat>)
    ensures Picks(props, l, ks, Live(props, l))
  {
    if l == [] {
      ks := [];
    } else {
      var rest := LiveInOrder(props, l[1..]);
      ks := (if Alive(props, l[0]) then [0] else []) + Later(rest);
      PicksMore(props, l, rest);
    }
  }

  ghost function Later(ks: seq<nat>): seq<nat> { seq(|ks|, i requires 0 <= i < |ks| => ks[i] + 1) }

  lemma PicksMore(props: map<Prop, Propagator>, l: seq<Suspendable>, rest: seq<nat>)
    requires l != [] && Picks(props, l[1..], rest, Live(props, l[1..]))
    ensures Picks(props, l, (if Alive(props, l[0]) then [0] else []) + Later(rest), Live(props, l))
  {
    var first: seq<nat> := if Alive(props, l[0]) then [0] else [];
    var firsts: seq<Prop> := if Alive(props, l[0]) then [l[0].p] else [];
    var ks := first + Later(rest);
    PositionsMore(l, first, firsts, rest, Live(props, l[1..]));
    forall k: nat | k < |l| ensures Alive(props, l[k]) <==> k in ks {
      InLater(rest, k);
      if k > 0 { assert l[1..][k - 1] == l[k]; }
    }
    assert Live(props, l) == firsts + Live(props, l[1..]);
  }

  // One more propagator, or none, in front of a list.
  lemma PositionsMore(l: seq<Suspendable>, first: seq<nat>, firsts: seq<Prop>, rest: seq<nat>, ps: seq<Prop>)
    requires l != []
    requires (first == [] && firsts == []) || (first == [0] && |firsts| == 1 && l[0] == Suspended(firsts[0]))
    requires |rest| == |ps| && forall i, j :: 0 <= i < j < |rest| ==> rest[i] < rest[j]
    requires forall i :: 0 <= i < |rest| ==> rest[i] < |l| - 1 && l[1..][rest[i]] == Suspended(ps[i])
    ensures var ks := first + Later(rest);
      && |ks| == |firsts + ps|
      && (forall i, j :: 0 <= i < j < |ks| ==> ks[i] < ks[j])
      && (forall i :: 0 <= i < |ks| ==> ks[i] < |l| && l[ks[i]] == Suspended((firsts + ps)[i]))
  {
    var ks, n := first + Later(rest), |first|;
    forall i | 0 <= i < |ks| ensures ks[i] < |l| && l[ks[i]] == Suspended((firsts + ps)[i]) {
      if i >= n { assert l[1..][rest[i - n]] == l[ks[i]]; }
    }
    forall i, j | 0 <= i < j < |ks| ensures ks[i] < ks[j] {
      assert ks[j] == rest[j - n] + 1;
      if i >= n { assert ks[i] == rest[i - n] + 1; }
    }
  }

  lemma InLater(ks: seq<nat>, k: nat)
    ensures k in Later(ks) <==> k > 0 && k - 1 in ks
  {
    if k > 0 && k - 1 in ks {
      var i :| 0 <= i < |ks| && ks[i] == k - 1;
      assert Later(ks)[i] == k;
    }
  }

  lemma {:induction false} LiveMember(props: map<Prop, Propagator>, l: seq<Suspendable>, p: Prop)
    ensures p in Live(props, l) <==> exists k :: 0 <= k < |l| && l[k] == Suspended(p) && Alive(props, l[k])
  {
    var ks := LiveInOrder(props, l);
    if p in Live(props, l) {
      var i :| 0 <= i < |ks| && Live(props, l)[i] == p;
      assert Alive(props, l[ks[i]]);
    }
    if k :| 0 <= k < |l| && l[k] == Suspended(p) && Alive(props, l[k]) {
      assert k in ks;
      var i :| 0 <= i < |ks| && ks[i] == k;
      assert Live(props, l)[i] == p;
    }
  }

  // The identifiers come last one first.
  lemma {:induction false} IdsBackwards<T>(s: seq<T>, m: map<T, nat>, i: nat)
    requires Members(s) <= m.Keys && i < |s|
    ensures |Ids(s, m)| == |s| && s[|s| - 1 - i] in m && Ids(s, m)[i] == m[s[|s| - 1 - i]]
  {
    assert s[|s| - 1 - i] in Members(s);
    IdsLength(s, m);
    if i > 0 {
      assert forall x :: x in Members(s[..|s| - 1]) ==> x in Members(s);
      IdsBackwards(s[..|s| - 1], m, i - 1);
    }
  }

  lemma {:induction false} IdsLength<T>(s: seq<T>, m: map<T, nat>)
    ensures |Ids(s, m)| == |s|
  {
    if s != [] { IdsLength(s[..|s| - 1], m); }
  }

  // ---------------------------------------------------------------- identifiers

  // The identifier of k is one of 1, ..., counter - 1 and nobody else's.
  ghost predicate OwnId<T>(m: map<T, nat>, counter: nat, k: T) {
    k in m && 0 < m[k] < counter && forall l {:trigger m[l]} :: l in m && m[l] == m[k] ==> l == k
  }

  // The identifiers are 1, 2, ..., counter - 1, each given once.
  ghost predicate Numbered<T>(m: map<T, nat>, counter: nat) {
    |m| + 1 == counter && forall k {:trigger OwnId(m, counter, k)} :: k in m ==> OwnId(m, counter, k)
  }

  ghost predicate Grows<T>(m: map<T, nat>, m': map<T, nat>) {
    forall k :: k in m ==> k in m' && m'[k] == m[k]
  }

  // m' has the keys of m and those of s.
  ghost predicate Adds<T>(m: map<T, nat>, m': map<T, nat>, s: set<T>) {
    && (forall k {:trigger k in m} :: k in m ==> k in m') && (forall k {:trigger k in s} :: k in s ==> k in m')
    && (forall k {:trigger k in m'} :: k in m' ==> k in m || k in s)
  }

  // The table and the counter after k has been given an identifier, and that identifier.
  function Numbered1<T>(pre: map<T, nat>, next: nat, ref: map<T, nat>, k: T): (map<T, nat>, nat, nat) {
    if k in ref then (pre, next, ref[k]) else if k in pre then (pre, next, pre[k]) else (pre[k := next], next + 1, next)
  }

  lemma NumberedKept<T>(pre: map<T, nat>, next: nat, ref: map<T, nat>, k: T)
    requires Numbered(pre, next) && Grows(ref, pre)
    ensures var (pre', next', id) := Numbered1(pre, next, ref, k);
      Numbered(pre', next') && Grows(pre, pre') && Adds(pre, pre', {k}) && id == pre'[k]
  {
    var (pre', next', id) := Numbered1(pre, next, ref, k);
    forall l | l in pre' ensures OwnId(pre', next', l) {
      assert l in pre ==> OwnId(pre, next, l);
      if l == k && k !in pre {
        forall j | j in pre' && pre'[j] == pre'[l] ensures j == l { assert j in pre ==> OwnId(pre, next, j); }
      }
    }
  }

  class Table<T(==)> {
    var pretable: map<T, nat>
    var reftable: map<T, nat>
    var idCounter: nat

    constructor ()
      ensures Valid() && pretable == map[] && reftable == map[]
    {
      pretable, reftable, idCounter := map[], map[], 1;
    }

    ghost predicate Valid()
      reads this
    {
      Numbered(pretable, idCounter) && Grows(reftable, pretable)
    }

    // The identifier of k, a new one if it has none.
    method Add(k: T) returns (id: nat, isReflected: bool)
      modifies `pretable, `idCounter
      ensures (pretable, idCounter, id) == Numbered1(old(pretable), old(idCounter), reftable, k)
        && isReflected == (k in reftable)
    {
      if k in reftable { return reftable[k], true; }
      if k in pretable { return pretable[k], false; }
      id, isReflected := idCounter, false;
      idCounter := idCounter + 1;
      pretable := pretable[k := id];
    }

    method Reflected(k: T)
      requires Valid() && k in pretable
      modifies `reftable
      ensures Valid() && reftable == old(reftable)[k := pretable[k]]
    {
      reftable := reftable[k := pretable[k]];
    }
  }

  // ---------------------------------------------------------------- mentioning items

  ghost function Members<T>(s: seq<T>): set<T> { set x | x in s }

  // A table, the stack, and a list of identifiers under construction.
  datatype Numbering<T> = Numbering(table: map<T, nat>, next: nat, stack: seq<Entry>, ids: seq<nat>)

  // The effect of mentioning x: an identifier in front of the list, an entry on the stack unless x is reflected.
  function AddOne<T>(n: Numbering<T>, ref: map<T, nat>, entry: T -> Entry, x: T): Numbering<T> {
    var (pre, next, id) := Numbered1(n.table, n.next, ref, x);
    Numbering(pre, next, n.stack + if x in ref then [] else [entry(x)], [id] + n.ids)
  }

  function AddAll<T>(n: Numbering<T>, ref: map<T, nat>, entry: T -> Entry, s: seq<T>): Numbering<T> {
    if s == [] then n else AddOne(AddAll(n, ref, entry, s[..|s| - 1]), ref, entry, s[|s| - 1])
  }

  lemma {:induction false} AddAllJoin<T>(n: Numbering<T>, ref: map<T, nat>, entry: T -> Entry, s: seq<T>, t: seq<T>)
    ensures AddAll(n, ref, entry, s + t) == AddAll(AddAll(n, ref, entry, s), ref, entry, t)
  {
    if t == [] {
      assert s + t == s;
    } else {
      var m := |t| - 1;
      assert (s + t)[..|s + t| - 1] == s + t[..m];
      AddAllJoin(n, ref, entry, s, t[..m]);
    }
  }

  lemma {:induction false} IdsGrow<T>(s: seq<T>, m: map<T, nat>, m': map<T, nat>)
    requires Grows(m, m') && Members(s) <= m.Keys
    ensures Ids(s, m') == Ids(s, m)
  {
    if s != [] {
      var n := |s| - 1;
      assert forall x :: x in s[..n] ==> x in s;
      assert s[n] in s;
      IdsGrow(s[..n], m, m');
    }
  }

  // What the members of s add to the stack.
  ghost predicate Pushed<T>(st: seq<Entry>, st': seq<Entry>, ref: map<T, nat>, entry: T -> Entry, s: set<T>) {
    && st <= st'
    && (forall x {:trigger entry(x)} :: x in s && x !in ref ==> entry(x) in st')
    && (forall e {:trigger e in st'} :: e in st' ==> e in st || exists x :: x in s && e == entry(x))
  }

  // The members of s are numbered, and their identifiers are in front of the list, last one first.
  ghost predicate Listed<T>(n: Numbering<T>, r: Numbering<T>, s: seq<T>) {
    && Grows(n.table, r.table) && Adds(n.table, r.table, Members(s))
    && r.ids == Ids(s, r.table) + n.ids
  }

  lemma ListedNone<T>(n: Numbering<T>, s: seq<T>)
    requires s == []
    ensures Listed(n, n, s)
  {
    assert Members(s) == {};
  }

  lemma ListedOne<T>(n: Numbering<T>, q: Numbering<T>, r: Numbering<T>, s: seq<T>, x: T, sx: seq<T>)
    requires Listed(n, q, s) && sx == s + [x] && Grows(q.table, r.table) && Adds(q.table, r.table, {x})
      && r.ids == [r.table[x]] + q.ids
    requires Ids(s, r.table) == Ids(s, q.table)
    ensures Listed(n, r, sx)
  {
    AddsMore(n.table, q.table, r.table, s, x);
    assert sx[..|sx| - 1] == s;
    assert [r.table[x]] + (Ids(s, r.table) + n.ids) == [r.table[x]] + Ids(s, r.table) + n.ids;
  }

  lemma AddsMore<T>(m: map<T, nat>, m': map<T, nat>, m'': map<T, nat>, s: seq<T>, x: T)
    requires Grows(m, m') && Grows(m', m'') && Adds(m, m', Members(s)) && Adds(m', m'', {x})
    ensures Grows(m, m'') && Adds(m, m'', Members(s + [x]))
  {
    assert forall k :: k in Members(s + [x]) <==> k in Members(s) || k in {x};
  }

  lemma AddOneNumbers<T>(n: Numbering<T>, q: Numbering<T>, ref: map<T, nat>, entry: T -> Entry, s: seq<T>, x: T,
                         sx: seq<T>)
    requires Numbered(q.table, q.next) && Grows(ref, q.table) && Listed(n, q, s) && sx == s + [x]
    ensures var r := AddOne(q, ref, entry, x); Numbered(r.table, r.next) && Grows(ref, r.table) && Listed(n, r, sx)
  {
    NumberedKept(q.table, q.next, ref, x);
    var r := AddOne(q, ref, entry, x);
    IdsGrow(s, q.table, r.table);
    ListedOne(n, q, r, s, x, sx);
  }

  lemma {:induction false} AddAllNumbers<T>(n: Numbering<T>, ref: map<T, nat>, entry: T -> Entry, s: seq<T>)
    requires Numbered(n.table, n.next) && Grows(ref, n.table)
    ensures var r := AddAll(n, ref, entry, s); Numbered(r.table, r.next) && Grows(ref, r.table) && Listed(n, r, s)
  {
    if s == [] {
      ListedNone(n, s);
    } else {
      var m := |s| - 1;
      var s' := s[..m];
      var q := AddAll(n, ref, entry, s');
      assert AddAll(n, ref, entry, s) == AddOne(q, ref, entry, s[m]);
      AddAllNumbers(n, ref, entry, s');
      AddOneNumbers(n, q, ref, entry, s', s[m], s);
    }
  }

  lemma {:induction false} AddAllPushes<T>(n: Numbering<T>, ref: map<T, nat>, entry: T -> Entry, s: seq<T>)
    ensures Pushed(n.stack, AddAll(n, ref, entry, s).stack, ref, entry, Members(s))
  {
    if s != [] {
      var m := |s| - 1;
      AddAllPushes(n, ref, entry, s[..m]);
      assert Members(s) == Members(s[..m]) + {s[m]} by { assert s == s[..m] + [s[m]]; }
    }
  }

  // ---------------------------------------------------------------- what can be reached

  ghost predicate Handled(g: Graph, v: Var) { v in g.vars && !g.vars[v].kind.Unhandled? }

  ghost predicate ListsKnown(g: Graph, v: Var)
    requires v in g.vars
  {
    forall i, j ::
      0 <= i < |g.vars[v].lists| && 0 <= j < |g.vars[v].lists[i]| && g.vars[v].lists[i][j].Suspended? ==>
      g.vars[v].lists[i][j].p in g.props
  }

  ghost predicate ParamsKnown(g: Graph, p: Prop)
    requires p in g.props
  {
    Mentioned(g.props[p].params) <= g.vars.Keys
  }

  // All references lead to items of the graph.
  ghost predicate Valid(g: Graph) {
    (forall v {:trigger ListsKnown(g, v)} :: v in g.vars ==> ListsKnown(g, v))
      && (forall p {:trigger ParamsKnown(g, p)} :: p in g.props ==> ParamsKnown(g, p))
  }

  ghost function Params(g: Graph, p: Prop): set<Var>
    requires p in g.props
  {
    Mentioned(g.props[p].params)
  }

  ghost function LiveLists(g: Graph, lists: seq<seq<Suspendable>>): set<Prop> {
    set i, j | 0 <= i < |lists| && 0 <= j < |lists[i]| && Alive(g.props, lists[i][j]) :: lists[i][j].p
  }

  ghost function LiveProps(g: Graph, v: Var): set<Prop>
    requires v in g.vars
  {
    LiveLists(g, g.vars[v].lists)
  }

  ghost predicate VarClosed(g: Graph, P: set<Prop>, v: Var) { Handled(g, v) ==> LiveProps(g, v) <= P }

  ghost predicate PropClosed(g: Graph, V: set<Var>, p: Prop) { p in g.props ==> Params(g, p) <= V }

  // V and P contain the variables of the root term and are closed: with a variable of a handled kind
  // the live propagators on its lists, with a propagator the variables of its parameters.
  ghost predicate Closed(g: Graph, root: Term, V: set<Var>, P: set<Prop>) {
    && Mentioned(root) <= V
    && (forall v {:trigger VarClosed(g, P, v)} :: v in V ==> VarClosed(g, P, v))
    && (forall p {:trigger PropClosed(g, V, p)} :: p in P ==> PropClosed(g, V, p))
  }

  ghost predicate Least(g: Graph, root: Term, V: set<Var>, P: set<Prop>) {
    forall V', P' {:trigger Closed(g, root, V', P')} :: Closed(g, root, V', P') ==> V <= V' && P <= P'
  }

  // V and P are exactly what can be reached from the root term.
  ghost predicate Reached(g: Graph, root: Term, V: set<Var>, P: set<Prop>) {
    Closed(g, root, V, P) && Least(g, root, V, P)
  }

  lemma ReachedUnique(g: Graph, root: Term, V: set<Var>, P: set<Prop>, V': set<Var>, P': set<Prop>)
    requires Reached(g, root, V, P) && Reached(g, root, V', P')
    ensures V == V' && P == P'
  {
  }

  // ---------------------------------------------------------------- the exploration

  // The contents of the two tables.
  datatype Tables = Tables(vpre: map<Var, nat>, vref: map<Var, nat>, ppre: map<Prop, nat>, pref: map<Prop, nat>)

  // A variable with an identifier has been reflected, is of no handled kind, or waits on the stack.
  ghost predicate VarOk(g: Graph, T: Tables, todo: set<Entry>, v: Var) {
    && v in g.vars
    && (v in T.vref ==> Handled(g, v) && VarClosed(g, T.ppre.Keys, v))
    && (v !in T.vref && Handled(g, v) ==> VarEntry(v) in todo)
  }

  ghost predicate PropOk(g: Graph, T: Tables, todo: set<Entry>, p: Prop) {
    && p in g.props && !g.props[p].dead
    && (p in T.pref ==> PropClosed(g, T.vpre.Keys, p))
    && (p !in T.pref ==> PropEntry(p) in todo)
  }

  ghost predicate EntryOk(T: Tables, e: Entry) {
    if e.PropEntry? then e.p in T.ppre else e.v in T.vpre
  }

  ghost predicate Explored(g: Graph, root: Term, T: Tables, todo: set<Entry>) {
    && Mentioned(root) <= T.vpre.Keys && T.vref.Keys <= T.vpre.Keys && T.pref.Keys <= T.ppre.Keys
    && Least(g, root, T.vpre.Keys, T.ppre.Keys)
    && (forall v {:trigger VarOk(g, T, todo, v)} :: v in T.vpre ==> VarOk(g, T, todo, v))
    && (forall p {:trigger PropOk(g, T, todo, p)} :: p in T.ppre ==> PropOk(g, T, todo, p))
    && (forall e {:trigger EntryOk(T, e)} :: e in todo ==> EntryOk(T, e))
  }

  // At the beginning.
  lemma Started(g: Graph, root: Term, T: Tables, todo: set<Entry>)
    requires Valid(g) && Mentioned(root) <= g.vars.Keys
    requires T.vref == map[] && T.pref == map[] && T.ppre == map[] && T.vpre.Keys == Mentioned(root)
    requires forall e :: e in todo <==> e.VarEntry? && e.v in Mentioned(root)
    ensures Explored(g, root, T, todo)
  {
    forall v | v in T.vpre ensures VarOk(g, T, todo, v) {}
    forall e | e in todo ensures EntryOk(T, e) {}
  }

  // An entry that needs no work is dropped.
  lemma Dropped(g: Graph, root: Term, T: Tables, todo: set<Entry>, e: Entry, todo': set<Entry>)
    requires Explored(g, root, T, todo) && todo - {e} <= todo' <= todo
    requires if e.PropEntry? then e.p in T.pref else e.v in T.vref || !Handled(g, e.v)
    ensures Explored(g, root, T, todo')
  {
    forall v | v in T.vpre ensures VarOk(g, T, todo', v) { assert VarOk(g, T, todo, v); }
    forall p | p in T.ppre ensures PropOk(g, T, todo', p) { assert PropOk(g, T, todo, p); }
  }

  // A propagator is reflected: the variables of its parameters are numbered.
  lemma PropReflected(g: Graph, root: Term, T: Tables, todo: set<Entry>, p: Prop, T': Tables, todo': set<Entry>)
    requires Valid(g) && Explored(g, root, T, todo) && p in T.ppre && p !in T.pref && p in g.props
    requires T'.vref == T.vref && T'.ppre == T.ppre && Adds(T.pref, T'.pref, {p}) && Adds(T.vpre, T'.vpre, Params(g, p))
    requires todo - {PropEntry(p)} <= todo' && forall v {:trigger VarEntry(v)} ::
      v in Params(g, p) && v !in T.vref ==> VarEntry(v) in todo'
    requires forall e {:trigger e in todo'} :: e in todo' ==> e in todo || (e.VarEntry? && e.v in Params(g, p))
    ensures Explored(g, root, T', todo')
  {
    assert ParamsKnown(g, p) && PropOk(g, T, todo, p);
    forall V, P | Closed(g, root, V, P) ensures T'.vpre.Keys <= V && T'.ppre.Keys <= P { assert PropClosed(g, V, p); }
    forall v | v in T'.vpre ensures VarOk(g, T', todo', v) {
      if v in T.vpre { assert VarOk(g, T, todo, v); }
    }
    forall q | q in T'.ppre ensures PropOk(g, T', todo', q) {
      assert PropOk(g, T, todo, q);
      assert q in T.pref ==> PropClosed(g, T.vpre.Keys, q);
    }
    forall e | e in todo' ensures EntryOk(T', e) {
      if e in todo { assert EntryOk(T, e); }
    }
  }

  // A variable is reflected: the live propagators on its lists are numbered.
  lemma VarReflected(g: Graph, root: Term, T: Tables, todo: set<Entry>, v: Var, T': Tables, todo': set<Entry>)
    requires Valid(g) && Explored(g, root, T, todo) && v in T.vpre && v !in T.vref && Handled(g, v)
    requires T'.pref == T.pref && T'.vpre == T.vpre && Adds(T.vref, T'.vref, {v})
      && Adds(T.ppre, T'.ppre, LiveProps(g, v))
    requires todo - {VarEntry(v)} <= todo' && forall p {:trigger PropEntry(p)} ::
      p in LiveProps(g, v) && p !in T.pref ==> PropEntry(p) in todo'
    requires forall e {:trigger e in todo'} :: e in todo' ==> e in todo || (e.PropEntry? && e.p in LiveProps(g, v))
    ensures Explored(g, root, T', todo')
  {
    assert ListsKnown(g, v) && VarOk(g, T, todo, v);
    forall V, P | Closed(g, root, V, P) ensures T'.vpre.Keys <= V && T'.ppre.Keys <= P { assert VarClosed(g, P, v); }
    forall w | w in T'.vpre ensures VarOk(g, T', todo', w) { assert VarOk(g, T, todo, w); }
    forall p | p in T'.ppre ensures PropOk(g, T', todo', p) {
      if p in T.ppre { assert PropOk(g, T, todo, p); } else { LiveKnown(g, v, p); }
    }
    forall e | e in todo' ensures EntryOk(T', e) {
      if e in todo { assert EntryOk(T, e); }
    }
  }

  lemma LiveKnown(g: Graph, v: Var, p: Prop)
    requires v in g.vars && p in LiveProps(g, v)
    ensures p in g.props && !g.props[p].dead
  {
  }

  // With nothing left to do, everything that can be reached is in the tables.
  lemma Finished(g: Graph, root: Term, T: Tables)
    requires Explored(g, root, T, {})
    ensures Reached(g, root, T.vpre.Keys, T.ppre.Keys)
    ensures T.pref.Keys == T.ppre.Keys && T.vref.Keys == set v | v in T.vpre.Keys && Handled(g, v)
  {
    forall v | v in T.vpre ensures VarClosed(g, T.ppre.Keys, v) { assert VarOk(g, T, {}, v); }
    forall p | p in T.ppre ensures PropClosed(g, T.vpre.Keys, p) { assert PropOk(g, T, {}, p); }
    forall v | v in T.vpre.Keys ensures v in T.vref.Keys <==> Handled(g, v) { assert VarOk(g, T, {}, v); }
    forall p | p in T.ppre.Keys ensures p in T.pref.Keys { assert PropOk(g, T, {}, p); }
    assert T.pref.Keys == T.ppre.Keys;
    assert T.vref.Keys == set v | v in T.vpre.Keys && Handled(g, v);
  }

  // ---------------------------------------------------------------- records

  // The first n suspension lists have been visited, with live propagators `seen`; recs are the lists of identifiers.
  ghost predicate ListsSeen(g: Graph, lists: seq<seq<Suspendable>>, n: nat, seen: set<Prop>, pre0: map<Prop, nat>,
    pre: map<Prop, nat>, ref: map<Prop, nat>,
                            st0: seq<Entry>, st: seq<Entry>) {
    n <= |lists| && Grows(pre0, pre) && Adds(pre0, pre, seen) && Pushed(st0, st, ref, PropAt, seen)
  }

  ghost predicate ListOuts(g: Graph, lists: seq<seq<Suspendable>>, n: nat, pre: map<Prop, nat>, recs: seq<seq<nat>>) {
    |recs| == n && forall j {:trigger ListOut(g, lists, pre, recs, j)} :: 0 <= j < n ==> ListOut(g, lists, pre, recs, j)
  }

  ghost predicate ListOut(g: Graph, lists: seq<seq<Suspendable>>, pre: map<Prop, nat>, recs: seq<seq<nat>>, j: int) {
    0 <= j < |lists| && j < |recs| && Members(Live(g.props, lists[j])) <= pre.Keys
      && recs[j] == Ids(Live(g.props, lists[j]), pre)
  }

  lemma LiveListsNext(g: Graph, lists: seq<seq<Suspendable>>, n: nat)
    requires n < |lists|
    ensures LiveLists(g, lists[..n + 1]) == LiveLists(g, lists[..n]) + Members(Live(g.props, lists[n]))
  {
    forall p
      ensures p in LiveLists(g, lists[..n + 1]) <==> p in LiveLists(g, lists[..n]) || p in Live(g.props, lists[n])
    {
      LiveMember(g.props, lists[n], p);
      if p in LiveLists(g, lists[..n]) {
        var i, j :| 0 <= i < n && 0 <= j < |lists[..n][i]| && Alive(g.props, lists[..n][i][j])
          && lists[..n][i][j].p == p;
        assert lists[..n + 1][i] == lists[i];
      }
      if p in Live(g.props, lists[n]) {
        var j :| 0 <= j < |lists[n]| && lists[n][j] == Suspended(p) && Alive(g.props, lists[n][j]);
        assert lists[..n + 1][n] == lists[n];
      }
      if p in LiveLists(g, lists[..n + 1]) {
        var i, j :| 0 <= i < n + 1 && 0 <= j < |lists[..n + 1][i]| && Alive(g.props, lists[..n + 1][i][j])
          && lists[..n + 1][i][j].p == p;
        if i < n { assert lists[..n][i] == lists[i]; } else { assert lists[n][j] == Suspended(p); }
      }
    }
  }

  lemma PushedMore<T>(a: seq<Entry>, b: seq<Entry>, c: seq<Entry>, ref: map<T, nat>, entry: T -> Entry, s: set<T>,
                      t: set<T>)
    requires Pushed(a, b, ref, entry, s) && Pushed(b, c, ref, entry, t)
    ensures Pushed(a, c, ref, entry, s + t)
  {
    forall x | x in s + t && x !in ref ensures entry(x) in c {
      if x in s {
        assert entry(x) in b;
        assert b == c[..|b|];
      }
    }
  }

  lemma ListOutsNext(g: Graph, lists: seq<seq<Suspendable>>, n: nat, pre: map<Prop, nat>, pre': map<Prop, nat>,
                     recs: seq<seq<nat>>, ids: seq<nat>)
    requires n < |lists| && Grows(pre, pre') && ListOuts(g, lists, n, pre, recs)
    requires Members(Live(g.props, lists[n])) <= pre'.Keys && ids == Ids(Live(g.props, lists[n]), pre')
    ensures ListOuts(g, lists, n + 1, pre', recs + [ids])
  {
    forall j | 0 <= j < n + 1 ensures ListOut(g, lists, pre', recs + [ids], j) {
      if j < n {
        assert ListOut(g, lists, pre, recs, j);
        IdsGrow(Live(g.props, lists[j]), pre, pre');
      }
    }
  }

  lemma ListsNext(g: Graph, lists: seq<seq<Suspendable>>, n: nat, seen: set<Prop>, pre0: map<Prop, nat>,
                  pre: map<Prop, nat>, pre': map<Prop, nat>, ref: map<Prop, nat>, st0: seq<Entry>, st: seq<Entry>,
                  st': seq<Entry>, l: set<Prop>)
    requires n < |lists| && ListsSeen(g, lists, n, seen, pre0, pre, ref, st0, st)
    requires Grows(pre, pre') && Adds(pre, pre', l) && Pushed(st, st', ref, PropAt, l)
    ensures ListsSeen(g, lists, n + 1, seen + l, pre0, pre', ref, st0, st')
  {
    PushedMore(st0, st, st', ref, PropAt, seen, l);
  }

  // The record of propagator p.
  ghost predicate PropOut(g: Graph, T: Tables, rec: PropRecord, p: Prop) {
    && p in g.props && p in T.ppre && Params(g, p) <= T.vpre.Keys
    && rec == PropRecord(T.ppre[p], Ids(Occurs(g.props[p].params), T.vpre))
  }

  ghost predicate VarOut(g: Graph, T: Tables, rec: VarRecord, v: Var) {
    && Handled(g, v) && v in T.vpre && rec.id == T.vpre[v] && rec.kind == g.vars[v].kind
    && |rec.lists| == |g.vars[v].lists|
    && ListOuts(g, g.vars[v].lists, |rec.lists|, T.ppre, rec.lists)
  }

  ghost predicate PropOutAt(g: Graph, T: Tables, recs: seq<PropRecord>, ps: seq<Prop>, i: int) {
    0 <= i < |recs| && i < |ps| && PropOut(g, T, recs[i], ps[i])
  }

  ghost predicate VarOutAt(g: Graph, T: Tables, recs: seq<VarRecord>, vs: seq<Var>, i: int) {
    0 <= i < |recs| && i < |vs| && VarOut(g, T, recs[i], vs[i])
  }

  // s lists the keys, each once.
  ghost predicate Once<T>(s: seq<T>, keys: set<T>) { Members(s) == keys && |keys| == |s| }

  lemma OnceMore<T>(s: seq<T>, keys: set<T>, x: T)
    requires Once(s, keys) && x !in keys
    ensures Once([x] + s, keys + {x})
  {
    assert Members([x] + s) == Members(s) + {x};
  }

  // recs are the records of the members of ps, which are the reflected propagators, each once.
  ghost predicate PropsOut(g: Graph, T: Tables, recs: seq<PropRecord>, ps: seq<Prop>) {
    && |recs| == |ps| && Once(ps, T.pref.Keys)
    && forall i {:trigger PropOutAt(g, T, recs, ps, i)} :: 0 <= i < |ps| ==> PropOutAt(g, T, recs, ps, i)
  }

  ghost predicate VarsOut(g: Graph, T: Tables, recs: seq<VarRecord>, vs: seq<Var>) {
    && |recs| == |vs| && Once(vs, T.vref.Keys)
    && forall i {:trigger VarOutAt(g, T, recs, vs, i)} :: 0 <= i < |vs| ==> VarOutAt(g, T, recs, vs, i)
  }

  ghost predicate TablesGrow(T: Tables, T': Tables) { Grows(T.vpre, T'.vpre) && Grows(T.ppre, T'.ppre) }

  lemma PropOutKept(g: Graph, T: Tables, rec: PropRecord, p: Prop, T': Tables)
    requires PropOut(g, T, rec, p) && TablesGrow(T, T')
    ensures PropOut(g, T', rec, p)
  {
    OccursMentioned(g.props[p].params);
    IdsGrow(Occurs(g.props[p].params), T.vpre, T'.vpre);
  }

  lemma VarOutKept(g: Graph, T: Tables, rec: VarRecord, v: Var, T': Tables)
    requires VarOut(g, T, rec, v) && TablesGrow(T, T')
    ensures VarOut(g, T', rec, v)
  {
    var lists := g.vars[v].lists;
    forall j | 0 <= j < |rec.lists| ensures ListOut(g, lists, T'.ppre, rec.lists, j) {
      assert ListOut(g, lists, T.ppre, rec.lists, j);
      IdsGrow(Live(g.props, lists[j]), T.ppre, T'.ppre);
    }
  }

  lemma PropsOutKept(g: Graph, T: Tables, recs: seq<PropRecord>, ps: seq<Prop>, T': Tables)
    requires PropsOut(g, T, recs, ps) && TablesGrow(T, T') && T'.pref == T.pref
    ensures PropsOut(g, T', recs, ps)
  {
    forall i | 0 <= i < |ps| ensures PropOutAt(g, T', recs, ps, i) {
      assert PropOutAt(g, T, recs, ps, i);
      PropOutKept(g, T, recs[i], ps[i], T');
    }
  }

  lemma VarsOutKept(g: Graph, T: Tables, recs: seq<VarRecord>, vs: seq<Var>, T': Tables)
    requires VarsOut(g, T, recs, vs) && TablesGrow(T, T') && T'.vref == T.vref
    ensures VarsOut(g, T', recs, vs)
  {
    forall i | 0 <= i < |vs| ensures VarOutAt(g, T', recs, vs, i) {
      assert VarOutAt(g, T, recs, vs, i);
      VarOutKept(g, T, recs[i], vs[i], T');
    }
  }

  lemma PropsOutMore(g: Graph, T: Tables, recs: seq<PropRecord>, ps: seq<Prop>, T': Tables, rec: PropRecord, p: Prop)
    requires PropsOut(g, T, recs, ps) && TablesGrow(T, T') && p !in T.pref && Adds(T.pref, T'.pref, {p})
      && PropOut(g, T', rec, p)
    ensures PropsOut(g, T', [rec] + recs, [p] + ps)
  {
    OnceMore(ps, T.pref.Keys, p);
    assert T'.pref.Keys == T.pref.Keys + {p};
    forall i | 0 <= i < |ps| ensures PropOutAt(g, T', recs, ps, i) {
      assert PropOutAt(g, T, recs, ps, i);
      PropOutKept(g, T, recs[i], ps[i], T');
    }
    forall i | 0 <= i < |[p] + ps| ensures PropOutAt(g, T', [rec] + recs, [p] + ps, i) {
      if i > 0 { assert PropOutAt(g, T', recs, ps, i - 1); }
    }
  }

  lemma VarsOutMore(g: Graph, T: Tables, recs: seq<VarRecord>, vs: seq<Var>, T': Tables, rec: VarRecord, v: Var)
    requires VarsOut(g, T, recs, vs) && TablesGrow(T, T') && v !in T.vref && Adds(T.vref, T'.vref, {v})
      && VarOut(g, T', rec, v)
    ensures VarsOut(g, T', [rec] + recs, [v] + vs)
  {
    OnceMore(vs, T.vref.Keys, v);
    assert T'.vref.Keys == T.vref.Keys + {v};
    forall i | 0 <= i < |vs| ensures VarOutAt(g, T', recs, vs, i) {
      assert VarOutAt(g, T, recs, vs, i);
      VarOutKept(g, T, recs[i], vs[i], T');
    }
    forall i | 0 <= i < |[v] + vs| ensures VarOutAt(g, T', [rec] + recs, [v] + vs, i) {
      if i > 0 { assert VarOutAt(g, T', recs, vs, i - 1); }
    }
  }

  // An identifier mentioned in a propagator's record has a record of its own exactly when it belongs
  // to a variable of a handled kind.
  lemma MentionHasRecord(g: Graph, T: Tables, next: nat, props: seq<PropRecord>, ps: seq<Prop>, vars: seq<VarRecord>,
                         vs: seq<Var>, i: nat, v: Var)
    requires PropsOut(g, T, props, ps) && VarsOut(g, T, vars, vs) && Numbered(T.vpre, next)
    requires i < |ps| && T.vref.Keys == set w | w in T.vpre.Keys && Handled(g, w)
    requires ps[i] in g.props && v in Params(g, ps[i])
    ensures v in T.vpre && ((exists j :: 0 <= j < |vars| && vars[j].id == T.vpre[v]) <==> Handled(g, v))
  {
    assert PropOutAt(g, T, props, ps, i);
    if Handled(g, v) {
      assert v in Members(vs);
      var j :| 0 <= j < |vs| && vs[j] == v;
      assert VarOutAt(g, T, vars, vs, j);
    }
    forall j | 0 <= j < |vars| && vars[j].id == T.vpre[v] ensures Handled(g, v) {
      assert VarOutAt(g, T, vars, vs, j);
      assert OwnId(T.vpre, next, v);
    }
  }

  // An identifier mentioned in a variable's record has a record of its own.
  lemma SuspensionHasRecord(g: Graph, T: Tables, props: seq<PropRecord>, ps: seq<Prop>, vars: seq<VarRecord>,
                            vs: seq<Var>, i: nat, p: Prop)
    requires PropsOut(g, T, props, ps) && VarsOut(g, T, vars, vs) && T.pref.Keys == T.ppre.Keys
    requires i < |vs| && vs[i] in g.vars && p in LiveProps(g, vs[i])
    ensures p in T.ppre && exists j :: 0 <= j < |props| && props[j].id == T.ppre[p]
  {
    assert VarOutAt(g, T, vars, vs, i);
    var lists := g.vars[vs[i]].lists;
    var l, k :| 0 <= l < |lists| && 0 <= k < |lists[l]| && Alive(g.props, lists[l][k]) && lists[l][k].p == p;
    assert lists[l][k] == Suspended(p);
    LiveMember(g.props, lists[l], p);
    assert ListOut(g, lists, T.ppre, vars[i].lists, l);
    assert p in Members(Live(g.props, lists[l]));
    assert p in Members(ps);
    var j :| 0 <= j < |ps| && ps[j] == p;
    assert PropOutAt(g, T, props, ps, j);
  }

  lemma PoppedMembers(st: seq<Entry>)
    requires st != []
    ensures Members(st) - {st[|st| - 1]} <= Members(st[..|st| - 1]) <= Members(st)
  {
    assert st == st[..|st| - 1] + [st[|st| - 1]];
  }

  lemma PushedVars(st: seq<Entry>, st': seq<Entry>, ref: map<Var, nat>, s: set<Var>, todo: set<Entry>, e: Entry)
    requires Pushed(st, st', ref, VarAt, s) && todo - {e} <= Members(st) <= todo
    ensures todo - {e} <= Members(st') && forall v {:trigger VarEntry(v)} ::
      v in s && v !in ref ==> VarEntry(v) in Members(st')
    ensures forall f {:trigger f in Members(st')} :: f in Members(st') ==> f in todo || (f.VarEntry? && f.v in s)
  {
    forall f | f in Members(st) ensures f in Members(st') {
      var i :| 0 <= i < |st| && st[i] == f;
      assert st'[i] == f;
    }
    forall v | v in s && v !in ref ensures VarEntry(v) in Members(st') { assert VarAt(v) in st'; }
    forall f | f in Members(st') ensures f in todo || (f.VarEntry? && f.v in s) { assert f in st'; }
  }

  lemma PushedProps(st: seq<Entry>, st': seq<Entry>, ref: map<Prop, nat>, s: set<Prop>, todo: set<Entry>, e: Entry)
    requires Pushed(st, st', ref, PropAt, s) && todo - {e} <= Members(st) <= todo
    ensures todo - {e} <= Members(st') && forall p {:trigger PropEntry(p)} ::
      p in s && p !in ref ==> PropEntry(p) in Members(st')
    ensures forall f {:trigger f in Members(st')} :: f in Members(st') ==> f in todo || (f.PropEntry? && f.p in s)
  {
    forall f | f in Members(st) ensures f in Members(st') {
      var i :| 0 <= i < |st| && st[i] == f;
      assert st'[i] == f;
    }
    forall p | p in s && p !in ref ensures PropEntry(p) in Members(st') { assert PropAt(p) in st'; }
    forall f | f in Members(st') ensures f in todo || (f.PropEntry? && f.p in s) { assert f in st'; }
  }

  lemma Fewer<T>(all: set<T>, done: set<T>, x: T)
    requires x in all && x !in done
    ensures |all - (done + {x})| < |all - done|
  {
    assert all - done == all - (done + {x}) + {x};
  }

  // How many items are still to be reflected.
  ghost function Left(g: Graph, T: Tables): nat { |g.vars.Keys - T.vref.Keys| + |g.props.Keys - T.pref.Keys| }

  lemma VarKnown(g: Graph, root: Term, T: Tables, todo: set<Entry>, v: Var)
    requires Explored(g, root, T, todo) && VarEntry(v) in todo
    ensures v in T.vpre && v in g.vars
  {
    assert EntryOk(T, VarEntry(v)) && VarOk(g, T, todo, v);
  }

  lemma PropKnown(g: Graph, root: Term, T: Tables, todo: set<Entry>, p: Prop)
    requires Explored(g, root, T, todo) && PropEntry(p) in todo
    ensures p in T.ppre && p in g.props && !g.props[p].dead
  {
    assert EntryOk(T, PropEntry(p)) && PropOk(g, T, todo, p);
  }

  lemma FewerVars(g: Graph, T: Tables, T': Tables, v: Var)
    requires v in g.vars && v !in T.vref && Adds(T.vref, T'.vref, {v}) && T'.pref == T.pref
    ensures Left(g, T') < Left(g, T)
  {
    assert T'.vref.Keys == T.vref.Keys + {v};
    Fewer(g.vars.Keys, T.vref.Keys, v);
  }

  lemma FewerProps(g: Graph, T: Tables, T': Tables, p: Prop)
    requires p in g.props && p !in T.pref && Adds(T.pref, T'.pref, {p}) && T'.vref == T.vref
    ensures Left(g, T') < Left(g, T)
  {
    assert T'.pref.Keys == T.pref.Keys + {p};
    Fewer(g.props.Keys, T.pref.Keys, p);
  }

  lemma VarStepped(g: Graph, root: Term, T: Tables, todo: set<Entry>, v: Var, T': Tables, st: seq<Entry>,
                   st': seq<Entry>)
    requires Valid(g) && Explored(g, root, T, todo) && v in T.vpre && v in g.vars
      && todo - {VarEntry(v)} <= Members(st) <= todo
    requires T'.vpre == T.vpre && T'.pref == T.pref
    requires v in T.vref || !Handled(g, v) ==> T' == T && st' == st
    requires v !in T.vref && Handled(g, v) ==>
      && Adds(T.vref, T'.vref, {v}) && Adds(T.ppre, T'.ppre, LiveProps(g, v))
      && Pushed(st, st', T'.pref, PropAt, LiveProps(g, v))
    ensures Explored(g, root, T', Members(st')) && (Left(g, T') < Left(g, T) || (T' == T && st' == st))
  {
    if v in T.vref || !Handled(g, v) {
      Dropped(g, root, T, todo, VarEntry(v), Members(st'));
    } else {
      PushedProps(st, st', T.pref, LiveProps(g, v), todo, VarEntry(v));
      VarReflected(g, root, T, todo, v, T', Members(st'));
      FewerVars(g, T, T', v);
    }
  }

  lemma PropStepped(g: Graph, root: Term, T: Tables, todo: set<Entry>, p: Prop, T': Tables, st: seq<Entry>,
                    st': seq<Entry>)
    requires Valid(g) && Explored(g, root, T, todo) && p in T.ppre && p in g.props
      && todo - {PropEntry(p)} <= Members(st) <= todo
    requires T'.ppre == T.ppre && T'.vref == T.vref
    requires p in T.pref ==> T' == T && st' == st
    requires p !in T.pref ==>
      && Adds(T.pref, T'.pref, {p}) && Adds(T.vpre, T'.vpre, Params(g, p))
      && Pushed(st, st', T'.vref, VarAt, Params(g, p))
    ensures Explored(g, root, T', Members(st')) && (Left(g, T') < Left(g, T) || (T' == T && st' == st))
  {
    if p in T.pref {
      Dropped(g, root, T, todo, PropEntry(p), Members(st'));
    } else {
      PushedVars(st, st', T.vref, Params(g, p), todo, PropEntry(p));
      PropReflected(g, root, T, todo, p, T', Members(st'));
      FewerProps(g, T, T', p);
    }
  }

  // ---------------------------------------------------------------- the worklist

  class Reflector {
    const graph: Graph
    const vtable: Table<Var>
    const ptable: Table<Prop>
    var stack: seq<Entry>
    var varList: seq<VarRecord>
    var propList: seq<PropRecord>
    ghost var ps: seq<Prop>   // whose records are in propList
    ghost var vs: seq<Var>    // whose records are in varList

    constructor (graph: Graph)
      ensures this.graph == graph && fresh(vtable) && fresh(ptable) && vtable.Valid() && ptable.Valid()
      ensures stack == [] && varList == [] && propList == [] && ps == [] && vs == []
      ensures vtable.pretable == map[] && vtable.reftable == map[] && ptable.pretable == map[]
        && ptable.reftable == map[]
    {
      this.graph := graph;
      vtable := new Table<Var>();
      ptable := new Table<Prop>();
      stack, varList, propList, ps, vs := [], [], [], [], [];
    }

    function VarState(ids: seq<nat>): Numbering<Var>
      reads this`stack, vtable
    {
      Numbering(vtable.pretable, vtable.idCounter, stack, ids)
    }

    method ReflectUnknown(v: Var, ids: seq<nat>) returns (ids': seq<nat>)
      modifies this`stack, vtable`pretable, vtable`idCounter
      ensures VarState(ids') == AddAll(old(VarState(ids)), vtable.reftable, VarAt, [v])
    {
      var id, isReflected := vtable.Add(v);
      if !isReflected { stack := stack + [VarAt(v)]; }
      ids' := [id] + ids;
    }

    // Number and push the variables of t.
    method ReflectParams(t: Term, ids: seq<nat>) returns (ids': seq<nat>)
      modifies this`stack, vtable`pretable, vtable`idCounter
      ensures VarState(ids') == AddAll(old(VarState(ids)), vtable.reftable, VarAt, Occurs(t))
      decreases t, 1
    {
      match t
      case Unknown(v) => ids' := ReflectUnknown(v, ids);
      case Cons(_, _) => ids' := ReflectList(t, ids);
      case Tuple(args) => ids' := ReflectArgs(t, args, ids);
      case _ => ids' := ids;
    }

    method ReflectList(t: Term, ids: seq<nat>) returns (ids': seq<nat>)
      requires t.Cons?
      modifies this`stack, vtable`pretable, vtable`idCounter
      ensures VarState(ids') == AddAll(old(VarState(ids)), vtable.reftable, VarAt, Occurs(t))
      decreases t, 0
    {
      ghost var goal := AddAll(VarState(ids), vtable.reftable, VarAt, ListOccurs(t));
      var params := t;
      ids' := ids;
      while params.Cons?
        invariant params == t || (t decreases to params)
        invariant AddAll(VarState(ids'), vtable.reftable, VarAt, ListOccurs(params)) == goal
        decreases params
      {
        AddAllJoin(VarState(ids'), vtable.reftable, VarAt, Occurs(params.head), ListOccurs(params.tail));
        ids' := ReflectParams(params.head, ids');
        params := params.tail;
      }
    }

    method ReflectArgs(t: Term, args: seq<Term>, ids: seq<nat>) returns (ids': seq<nat>)
      requires t == Tuple(args)
      modifies this`stack, vtable`pretable, vtable`idCounter
      ensures VarState(ids') == AddAll(old(VarState(ids)), vtable.reftable, VarAt, Occurs(t))
      decreases t, 0
    {
      ghost var goal := AddAll(VarState(ids), vtable.reftable, VarAt, ArgsOccur(args));
      var i := 0;
      ids' := ids;
      while i < |args|
        invariant 0 <= i <= |args| && AddAll(VarState(ids'), vtable.reftable, VarAt, ArgsOccur(args[i..])) == goal
      {
        assert args[i..][1..] == args[i + 1..];
        AddAllJoin(VarState(ids'), vtable.reftable, VarAt, Occurs(args[i]), ArgsOccur(args[i + 1..]));
        ids' := ReflectParams(args[i], ids');
        i := i + 1;
      }
    }

    function PropState(ids: seq<nat>): Numbering<Prop>
      reads this`stack, ptable
    {
      Numbering(ptable.pretable, ptable.idCounter, stack, ids)
    }

    // Number and push the live propagators of a suspension list.
    method ReflectSuspList(l: seq<Suspendable>) returns (ids: seq<nat>)
      requires forall i :: 0 <= i < |l| && l[i].Suspended? ==> l[i].p in graph.props
      modifies this`stack, ptable`pretable, ptable`idCounter
      ensures PropState(ids) == AddAll(old(PropState([])), ptable.reftable, PropAt, Live(graph.props, l))
    {
      ghost var goal := AddAll(PropState([]), ptable.reftable, PropAt, Live(graph.props, l));
      ids := [];
      var i := 0;
      while i < |l|
        invariant 0 <= i <= |l| && AddAll(PropState(ids), ptable.reftable, PropAt, Live(graph.props, l[i..])) == goal
      {
        assert l[i..][1..] == l[i + 1..];
        var susp := l[i];
        if susp.Suspended? && !graph.props[susp.p].dead {
          AddAllJoin(PropState(ids), ptable.reftable, PropAt, [susp.p], Live(graph.props, l[i + 1..]));
          ids := ReflectSuspended(susp.p, ids);
        }
        i := i + 1;
      }
    }

    method ReflectSuspended(p: Prop, ids: seq<nat>) returns (ids': seq<nat>)
      modifies this`stack, ptable`pretable, ptable`idCounter
      ensures PropState(ids') == AddAll(old(PropState(ids)), ptable.reftable, PropAt, [p])
    {
      var id, isReflected := ptable.Add(p);
      ids' := [id] + ids;
      if !isReflected { stack := stack + [PropAt(p)]; }
    }

    // The table and the stack after a suspension list.
    method NumberLive(l: seq<Suspendable>) returns (ids: seq<nat>)
      requires ptable.Valid()
      requires forall i :: 0 <= i < |l| && l[i].Suspended? ==> l[i].p in graph.props
      modifies this`stack, ptable`pretable, ptable`idCounter
      ensures ptable.Valid() && Grows(old(ptable.pretable), ptable.pretable)
      ensures Adds(old(ptable.pretable), ptable.pretable, Members(Live(graph.props, l)))
        && ids == Ids(Live(graph.props, l), ptable.pretable)
      ensures Pushed(old(stack), stack, ptable.reftable, PropAt, Members(Live(graph.props, l)))
    {
      ghost var n := PropState([]);
      ids := ReflectSuspList(l);
      AddAllNumbers(n, ptable.reftable, PropAt, Live(graph.props, l));
      AddAllPushes(n, ptable.reftable, PropAt, Live(graph.props, l));
    }

    method ReflectLists(lists: seq<seq<Suspendable>>) returns (recs: seq<seq<nat>>)
      requires ptable.Valid()
      requires forall i, j ::
        0 <= i < |lists| && 0 <= j < |lists[i]| && lists[i][j].Suspended? ==> lists[i][j].p in graph.props
      modifies this`stack, ptable`pretable, ptable`idCounter
      ensures ptable.Valid() && ListOuts(graph, lists, |lists|, ptable.pretable, recs)
      ensures ListsSeen(graph, lists, |lists|, LiveLists(graph, lists), old(ptable.pretable), ptable.pretable,
        ptable.reftable, old(stack), stack)
    {
      recs := [];
      var i := 0;
      while i < |lists|
        invariant 0 <= i <= |lists| && ptable.Valid() && ListOuts(graph, lists, i, ptable.pretable, recs)
        invariant ListsSeen(graph, lists, i, LiveLists(graph, lists[..i]), old(ptable.pretable), ptable.pretable,
          ptable.reftable, old(stack), stack)
      {
        ghost var before, st := ptable.pretable, stack;
        var ids := NumberLive(lists[i]);
        ListsNext(graph, lists, i, LiveLists(graph, lists[..i]), old(ptable.pretable), before, ptable.pretable,
          ptable.reftable, old(stack), st, stack,
                  Members(Live(graph.props, lists[i])));
        LiveListsNext(graph, lists, i);
        ListOutsNext(graph, lists, i, before, ptable.pretable, recs, ids);
        recs := recs + [ids];
        i := i + 1;
      }
      assert lists[..i] == lists;
    }

    ghost function Contents(): Tables
      reads vtable, ptable
    {
      Tables(vtable.pretable, vtable.reftable, ptable.pretable, ptable.reftable)
    }

    // Both tables are in order, and there is a record for each reflected item.
    ghost predicate Recorded()
      reads this`varList, this`propList, this`ps, this`vs, vtable, ptable
    {
      && vtable.Valid() && ptable.Valid()
      && PropsOut(graph, Contents(), propList, ps) && VarsOut(graph, Contents(), varList, vs)
    }

    // Number and push the variables of a propagator's parameters.
    method NumberParams(p: Prop) returns (ids: seq<nat>)
      requires vtable.Valid() && p in graph.props
      modifies this`stack, vtable`pretable, vtable`idCounter
      ensures vtable.Valid() && Grows(old(vtable.pretable), vtable.pretable)
      ensures Adds(old(vtable.pretable), vtable.pretable, Params(graph, p))
        && ids == Ids(Occurs(graph.props[p].params), vtable.pretable)
      ensures Pushed(old(stack), stack, vtable.reftable, VarAt, Params(graph, p))
    {
      ghost var n := VarState([]);
      ids := ReflectParams(graph.props[p].params, []);
      OccursMentioned(graph.props[p].params);
      AddAllNumbers(n, vtable.reftable, VarAt, Occurs(graph.props[p].params));
      AddAllPushes(n, vtable.reftable, VarAt, Occurs(graph.props[p].params));
    }

    // Number propagator p and mark it as reflected, unless it is already.
    method BeginProp(p: Prop) returns (id: nat, isReflected: bool)
      requires ptable.Valid() && p in ptable.pretable
      modifies ptable
      ensures ptable.Valid() && ptable.pretable == old(ptable.pretable) && id == ptable.pretable[p]
        && isReflected == (p in old(ptable.reftable))
      ensures if isReflected then ptable.reftable == old(ptable.reftable)
        else ptable.reftable == old(ptable.reftable)[p := id]
    {
      NumberedKept(ptable.pretable, ptable.idCounter, ptable.reftable, p);
      id, isReflected := ptable.Add(p);
      if !isReflected { ptable.Reflected(p); }
    }

    // What reflecting a propagator does to the tables and the stack; its record.
    method WorkProp(p: Prop, ghost T: Tables, ghost st: seq<Entry>) returns (isReflected: bool, rec: PropRecord)
      requires vtable.Valid() && ptable.Valid() && Contents() == T && stack == st && p in T.ppre && p in graph.props
      modifies this`stack, vtable`pretable, vtable`idCounter, ptable
      ensures vtable.Valid() && ptable.Valid() && TablesGrow(T, Contents())
      ensures Contents().ppre == T.ppre && Contents().vref == T.vref && isReflected == (p in T.pref)
      ensures isReflected ==> Contents() == T && stack == st
      ensures !isReflected ==>
        && Adds(T.pref, Contents().pref, {p}) && Adds(T.vpre, Contents().vpre, Params(graph, p))
        && Pushed(st, stack, T.vref, VarAt, Params(graph, p))
        && PropOut(graph, Contents(), rec, p)
    {
      var id;
      id, isReflected := BeginProp(p);
      rec := PropRecord(id, []);
      if isReflected { return; }
      var ids := NumberParams(p);
      rec := PropRecord(id, ids);
    }

    method EmitProp(rec: PropRecord, ghost p: Prop, ghost T: Tables)
      requires PropsOut(graph, T, propList, ps) && VarsOut(graph, T, varList, vs) && TablesGrow(T, Contents())
        && Contents().vref == T.vref && vtable.Valid() && ptable.Valid()
      requires p !in T.pref && Adds(T.pref, Contents().pref, {p}) && PropOut(graph, Contents(), rec, p)
      modifies this`propList, this`ps
      ensures Recorded()
    {
      PropsOutMore(graph, T, propList, ps, Contents(), rec, p);
      VarsOutKept(graph, T, varList, vs, Contents());
      propList, ps := [rec] + propList, [p] + ps;
    }

    method ReflectProp(p: Prop, ghost T: Tables, ghost st: seq<Entry>)
      requires Recorded() && Contents() == T && stack == st && p in T.ppre && p in graph.props
      modifies this`stack, this`propList, this`ps, vtable`pretable, vtable`idCounter, ptable
      ensures Recorded() && Contents().ppre == T.ppre && Contents().vref == T.vref
      ensures p in T.pref ==> Contents() == T && stack == st
      ensures p !in T.pref ==>
        && Adds(T.pref, Contents().pref, {p}) && Adds(T.vpre, Contents().vpre, Params(graph, p))
        && Pushed(st, stack, T.vref, VarAt, Params(graph, p))
    {
      var isReflected, rec := WorkProp(p, T, st);
      if !isReflected { EmitProp(rec, p, T); }
    }

    method PropStep(ghost root: Term, p: Prop, ghost T: Tables, ghost todo: set<Entry>)
      requires Recorded() && Contents() == T && Valid(graph) && Explored(graph, root, T, todo)
      requires p in T.ppre && p in graph.props && todo - {PropEntry(p)} <= Members(stack) <= todo
      modifies this`stack, this`propList, this`ps, vtable`pretable, vtable`idCounter, ptable
      ensures Recorded() && Explored(graph, root, Contents(), Members(stack))
      ensures Left(graph, Contents()) < Left(graph, T) || (Contents() == T && stack == old(stack))
    {
      ghost var st := stack;
      ReflectProp(p, T, st);
      PropStepped(graph, root, T, todo, p, Contents(), st, stack);
    }

    method BeginVar(v: Var) returns (id: nat, isReflected: bool)
      requires vtable.Valid() && v in vtable.pretable
      modifies vtable
      ensures vtable.Valid() && vtable.pretable == old(vtable.pretable) && id == vtable.pretable[v]
        && isReflected == (v in old(vtable.reftable))
      ensures if isReflected then vtable.reftable == old(vtable.reftable)
        else vtable.reftable == old(vtable.reftable)[v := id]
    {
      NumberedKept(vtable.pretable, vtable.idCounter, vtable.reftable, v);
      id, isReflected := vtable.Add(v);
      if !isReflected { vtable.Reflected(v); }
    }

    // What reflecting a variable of a handled kind does to the tables and the stack; its record.
    method WorkVar(v: Var, ghost T: Tables, ghost st: seq<Entry>) returns (isReflected: bool, rec: VarRecord)
      requires vtable.Valid() && ptable.Valid() && Contents() == T && stack == st && v in T.vpre && Handled(graph, v)
        && ListsKnown(graph, v)
      modifies this`stack, ptable`pretable, ptable`idCounter, vtable
      ensures vtable.Valid() && ptable.Valid() && TablesGrow(T, Contents())
      ensures Contents().vpre == T.vpre && Contents().pref == T.pref && isReflected == (v in T.vref)
      ensures isReflected ==> Contents() == T && stack == st
      ensures !isReflected ==>
        && Adds(T.vref, Contents().vref, {v}) && Adds(T.ppre, Contents().ppre, LiveProps(graph, v))
        && Pushed(st, stack, T.pref, PropAt, LiveProps(graph, v))
        && VarOut(graph, Contents(), rec, v)
    {
      var id;
      id, isReflected := BeginVar(v);
      rec := VarRecord(id, graph.vars[v].kind, []);
      if isReflected { return; }
      var lists := ReflectLists(graph.vars[v].lists);
      rec := VarRecord(id, graph.vars[v].kind, lists);
    }

    method EmitVar(rec: VarRecord, ghost v: Var, ghost T: Tables)
      requires PropsOut(graph, T, propList, ps) && VarsOut(graph, T, varList, vs) && TablesGrow(T, Contents())
        && Contents().pref == T.pref && vtable.Valid() && ptable.Valid()
      requires v !in T.vref && Adds(T.vref, Contents().vref, {v}) && VarOut(graph, Contents(), rec, v)
      modifies this`varList, this`vs
      ensures Recorded()
    {
      VarsOutMore(graph, T, varList, vs, Contents(), rec, v);
      PropsOutKept(graph, T, propList, ps, Contents());
      varList, vs := [rec] + varList, [v] + vs;
    }

    // A variable of a kind that is not handled is passed over.
    method ReflectVariable(v: Var, ghost T: Tables, ghost st: seq<Entry>)
      requires Recorded() && Contents() == T && stack == st && v in T.vpre && v in graph.vars && Valid(graph)
      modifies this`stack, this`varList, this`vs, ptable`pretable, ptable`idCounter, vtable
      ensures Recorded() && Contents().vpre == T.vpre && Contents().pref == T.pref
      ensures v in T.vref || !Handled(graph, v) ==> Contents() == T && stack == st
      ensures v !in T.vref && Handled(graph, v) ==>
        && Adds(T.vref, Contents().vref, {v}) && Adds(T.ppre, Contents().ppre, LiveProps(graph, v))
        && Pushed(st, stack, T.pref, PropAt, LiveProps(graph, v))
    {
      if graph.vars[v].kind.Unhandled? { return; }
      assert ListsKnown(graph, v);
      var isReflected, rec := WorkVar(v, T, st);
      if !isReflected { EmitVar(rec, v, T); }
    }

    ghost predicate Exploring(root: Term)
      reads this, vtable, ptable
    {
      Valid(graph) && Recorded() && Explored(graph, root, Contents(), Members(stack))
    }

    method VarStep(ghost root: Term, v: Var, ghost T: Tables, ghost todo: set<Entry>)
      requires Recorded() && Contents() == T && Valid(graph) && Explored(graph, root, T, todo)
      requires v in T.vpre && v in graph.vars && todo - {VarEntry(v)} <= Members(stack) <= todo
      modifies this`stack, this`varList, this`vs, ptable`pretable, ptable`idCounter, vtable
      ensures Recorded() && Explored(graph, root, Contents(), Members(stack))
      ensures Left(graph, Contents()) < Left(graph, T) || (Contents() == T && stack == old(stack))
    {
      ghost var st := stack;
      ReflectVariable(v, T, st);
      VarStepped(graph, root, T, todo, v, Contents(), st, stack);
    }

    // Pop an entry and reflect its item if need be.
    method Step(ghost root: Term)
      requires Exploring(root) && stack != []
      modifies this, vtable, ptable
      ensures Exploring(root)
      ensures Left(graph, Contents()) < Left(graph, old(Contents()))
        || (Left(graph, Contents()) == Left(graph, old(Contents())) && |stack| < |old(stack)|)
    {
      ghost var T, todo := Contents(), Members(stack);
      var e := stack[|stack| - 1];
      PoppedMembers(stack);
      stack := stack[..|stack| - 1];
      if e.PropEntry? {
        PropKnown(graph, root, T, todo, e.p);
        PropStep(root, e.p, T, todo);
      } else {
        VarKnown(graph, root, T, todo, e.v);
        VarStep(root, e.v, T, todo);
      }
    }

    // Reflect everything that can be reached from the variables of the root term.
    method Explore(root: Term)
      requires Valid(graph) && Mentioned(root) <= graph.vars.Keys
      requires vtable.Valid() && ptable.Valid() && vtable.pretable == map[] && ptable.pretable == map[]
      requires stack == [] && varList == [] && propList == [] && ps == [] && vs == []
      modifies this, vtable, ptable
      ensures Recorded() && Reached(graph, root, vtable.pretable.Keys, ptable.pretable.Keys)
      ensures ptable.reftable.Keys == ptable.pretable.Keys
      ensures vtable.reftable.Keys == set v | v in vtable.pretable.Keys && Handled(graph, v)
    {
      Begin(root);
      while stack != []
        invariant Exploring(root)
        decreases Left(graph, Contents()), |stack|
      {
        Step(root);
      }
      assert Members(stack) == {};
      Finished(graph, root, Contents());
    }

    method Begin(root: Term)
      requires Valid(graph) && Mentioned(root) <= graph.vars.Keys
      requires vtable.Valid() && ptable.Valid() && vtable.pretable == map[] && ptable.pretable == map[]
      requires stack == [] && varList == [] && propList == [] && ps == [] && vs == []
      modifies this`stack, vtable`pretable, vtable`idCounter
      ensures Exploring(root)
    {
      ghost var n := VarState([]);
      var _ := ReflectParams(root, []);
      OccursMentioned(root);
      AddAllNumbers(n, vtable.reftable, VarAt, Occurs(root));
      AddAllPushes(n, vtable.reftable, VarAt, Occurs(root));
      PushedVars([], stack, vtable.reftable, Mentioned(root), {}, VarEntry(0));
      assert vtable.reftable == map[] && ptable.reftable == map[];
      Started(graph, root, Contents(), Members(stack));
    }
  }

  function VarAt(v: Var): Entry { VarEntry(v) }

  function PropAt(p: Prop): Entry { PropEntry(p) }

  // vs and ps list the variables and propagators behind the records.
  ghost predicate Explained(g: Graph, root: Term, vars: seq<VarRecord>, props: seq<PropRecord>, T: Tables, vs: seq<Var>,
                            ps: seq<Prop>, n: nat, m: nat)
  {
    && Reached(g, root, T.vpre.Keys, T.ppre.Keys) && Numbered(T.vpre, n) && Numbered(T.ppre, m)
    && PropsOut(g, T, props, ps) && VarsOut(g, T, vars, vs)
    && T.pref.Keys == T.ppre.Keys && T.vref.Keys == set v | v in T.vpre.Keys && Handled(g, v)
  }

  // For some numbering of what can be reached from the root, these are the records, each of a different item.
  ghost predicate IsReflection(g: Graph, root: Term, vars: seq<VarRecord>, props: seq<PropRecord>) {
    exists T, vs, ps, n: nat, m: nat :: Explained(g, root, vars, props, T, vs, ps, n, m)
  }

  method ReflectSpace(graph: Graph, root: Term) returns (varList: seq<VarRecord>, propList: seq<PropRecord>)
    requires Valid(graph) && Mentioned(root) <= graph.vars.Keys
    ensures IsReflection(graph, root, varList, propList)
  {
    var r := new Reflector(graph);
    r.Explore(root);
    varList, propList := r.varList, r.propList;
    assert Explained(graph, root, varList, propList, r.Contents(), r.vs, r.ps, r.vtable.idCounter, r.ptable.idCounter);
  }

  // ---------------------------------------------------------------- what a reader of the records can rely on

  ghost predicate HasVarRecord(vars: seq<VarRecord>, id: nat) { exists j :: 0 <= j < |vars| && vars[j].id == id }

  ghost predicate HasPropRecord(props: seq<PropRecord>, id: nat) { exists j :: 0 <= j < |props| && props[j].id == id }

  lemma {:induction false} FewMembers<T>(s: seq<T>)
    ensures |Members(s)| <= |s|
  {
    if s != [] {
      FewMembers(s[1..]);
      assert Members(s) == Members(s[1..]) + {s[0]};
    }
  }

  lemma RepeatedMember<T>(s: seq<T>, i: nat, j: nat)
    requires i < j < |s| && s[i] == s[j]
    ensures |Members(s)| < |s|
  {
    var rest := s[..j] + s[j + 1..];
    forall x | x in s ensures x in rest {
      var k :| 0 <= k < |s| && s[k] == x;
      assert x == rest[if k < j then k else if k == j then i else k - 1];
    }
    assert Members(rest) == Members(s);
    FewMembers(rest);
  }

  lemma OnceDistinct<T>(s: seq<T>, keys: set<T>, i: nat, j: nat)
    requires Once(s, keys) && i < j < |s|
    ensures s[i] != s[j]
  {
    if s[i] == s[j] { RepeatedMember(s, i, j); }
  }

  lemma {:induction false} IdsMember<T>(s: seq<T>, m: map<T, nat>, id: nat) returns (x: T)
    requires id in Ids(s, m) && Members(s) <= m.Keys
    ensures x in s && x in m && m[x] == id
  {
    var n := |s| - 1;
    if id == Id(m, s[n]) {
      x := s[n];
      assert x in Members(s);
    } else {
      assert id in Ids(s[..n], m);
      assert forall y :: y in Members(s[..n]) ==> y in Members(s);
      x := IdsMember(s[..n], m, id);
    }
  }

  // Identifiers are not used twice.
  lemma RecordsDistinct(g: Graph, root: Term, vars: seq<VarRecord>, props: seq<PropRecord>)
    requires IsReflection(g, root, vars, props)
    ensures forall i, j :: 0 <= i < j < |vars| ==> vars[i].id != vars[j].id
    ensures forall i, j :: 0 <= i < j < |props| ==> props[i].id != props[j].id
  {
    var T, vs, ps, n: nat, m: nat :| Explained(g, root, vars, props, T, vs, ps, n, m);
    forall i, j | 0 <= i < j < |vars| ensures vars[i].id != vars[j].id {
      assert VarOutAt(g, T, vars, vs, i) && VarOutAt(g, T, vars, vs, j) && OwnId(T.vpre, n, vs[j]);
      OnceDistinct(vs, T.vref.Keys, i, j);
    }
    forall i, j | 0 <= i < j < |props| ensures props[i].id != props[j].id {
      assert PropOutAt(g, T, props, ps, i) && PropOutAt(g, T, props, ps, j) && OwnId(T.ppre, m, ps[j]);
      OnceDistinct(ps, T.pref.Keys, i, j);
    }
  }

  // Every propagator that a variable's record mentions has a record.
  lemma SuspensionsRecorded(g: Graph, root: Term, vars: seq<VarRecord>, props: seq<PropRecord>, i: nat, k: nat, id: nat)
    requires IsReflection(g, root, vars, props) && i < |vars| && k < |vars[i].lists| && id in vars[i].lists[k]
    ensures HasPropRecord(props, id)
  {
    var T, vs, ps, n: nat, m: nat :| Explained(g, root, vars, props, T, vs, ps, n, m);
    assert VarOutAt(g, T, vars, vs, i);
    var lists := g.vars[vs[i]].lists;
    assert ListOut(g, lists, T.ppre, vars[i].lists, k);
    var p := IdsMember(Live(g.props, lists[k]), T.ppre, id);
    LiveMember(g.props, lists[k], p);
    assert p in LiveProps(g, vs[i]);
    SuspensionHasRecord(g, T, props, ps, vars, vs, i, p);
  }

  // So has every variable that a propagator's record mentions, if all variables are of the kinds handled.
  lemma ParamsRecorded(g: Graph, root: Term, vars: seq<VarRecord>, props: seq<PropRecord>, i: nat, id: nat)
    requires IsReflection(g, root, vars, props) && i < |props| && id in props[i].params
    requires Valid(g) && forall v :: v in g.vars ==> Handled(g, v)
    ensures HasVarRecord(vars, id)
  {
    var T, vs, ps, n: nat, m: nat :| Explained(g, root, vars, props, T, vs, ps, n, m);
    assert PropOutAt(g, T, props, ps, i);
    OccursMentioned(g.props[ps[i]].params);
    var v := IdsMember(Occurs(g.props[ps[i]].params), T.vpre, id);
    assert ParamsKnown(g, ps[i]) && v in Params(g, ps[i]);
    MentionHasRecord(g, T, n, props, ps, vars, vs, i, v);
  }
}

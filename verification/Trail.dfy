// The bindings of a computation space, undone and replayed: what unwinding a trail frame leaves
// behind as a script, and what replaying a script puts back.
module Trail {

  // A variable, with the depth of the space it belongs to and the rank of its type.
  datatype Variable = Variable(id: nat, depth: nat, rank: nat)

  // What a variable can be bound to: another variable or a value.
  datatype Term = Ref(x: Variable) | Value(v: int)

  // A constraint of a script: the variable x equals y.
  datatype Eq = Eq(x: Variable, y: Term)

  // The variables bound by one installed space, in binding order.
  type Frame = seq<Variable>

  // The bindings; references do not go round in circles and lead upwards.
  type Store = s: map<Variable, Term> | Acyclic(s) && Directed(s) witness NoBindings()

  function NoBindings(): (s: map<Variable, Term>)
    ensures s == map[] && Acyclic(s) && Directed(s)
  {
    assert Descends(map[], v => 0);
    map[]
  }

  ghost predicate Descends(s: map<Variable, Term>, level: Variable -> nat) {
    forall x {:trigger s[x]} :: x in s && s[x].Ref? ==> level(s[x].x) < level(x)
  }

  ghost predicate Acyclic(s: map<Variable, Term>) {
    exists level :: Descends(s, level)
  }

  // The variable x may refer to y: y does not belong to a space further down, and if they belong to spaces of the
  // same depth, the type of y does not rank higher.
  predicate Refers(x: Variable, y: Variable) {
    y.depth <= x.depth && (y.depth == x.depth ==> y.rank <= x.rank)
  }

  // No variable is bound to one of a space further down, or to one of its own level with a type of higher rank.
  ghost predicate Directed(s: map<Variable, Term>) {
    forall x {:trigger s[x]} :: x in s && s[x].Ref? ==>
      s[x].x.depth < x.depth || (s[x].x.depth == x.depth && s[x].x.rank <= x.rank)
  }

  lemma AcyclicPart(s: map<Variable, Term>, s': map<Variable, Term>)
    requires Acyclic(s) && Extends(s, s')
    ensures Acyclic(s') && (Directed(s) ==> Directed(s'))
  {
    var level :| Descends(s, level);
    assert Descends(s', level);
  }

  // All bindings of s are bindings of s'.
  ghost predicate Extends(s': map<Variable, Term>, s: map<Variable, Term>) {
    forall x {:trigger x in s'} {:trigger x in s} :: x in s ==> x in s' && s'[x] == s[x]
  }

  // Binding an unbound variable to a value or to another unbound variable closes no circle.
  lemma AcyclicMore(s: map<Variable, Term>, a: Variable, t: Term)
    requires Acyclic(s) && t != Ref(a) && (t.Ref? ==> t.x !in s)
    ensures Acyclic(s[a := t])
  {
    var level :| Descends(s, level);
    var level' := v => if t == Ref(v) then 0 else level(v) + 1;
    assert Descends(s[a := t], level');
  }

  // ---------------------------------------------------------------- following references

  // The end of the references that start in t.
  ghost function Deref(s: map<Variable, Term>, t: Term): Term
    decreases |s|
  {
    if t.Ref? && t.x in s then Deref(s - {t.x}, s[t.x]) else t
  }

  // A variable that comes before all others cannot be met again.
  lemma {:induction false} DerefWithout(s: map<Variable, Term>, x: Variable, t: Term, level: Variable -> nat)
    requires Descends(s, level) && (t.Ref? ==> level(t.x) < level(x))
    ensures Deref(s - {x}, t) == Deref(s, t)
    decreases |s|
  {
    if t.Ref? && t.x in s {
      var y := t.x;
      assert Descends(s - {y}, level);
      assert (s - {x}) - {y} == (s - {y}) - {x};
      DerefWithout(s - {y}, x, s[y], level);
      assert (s - {x})[y] == s[y];
    }
  }

  // One step.
  lemma DerefStep(s: Store, x: Variable)
    requires x in s
    ensures Deref(s, Ref(x)) == Deref(s, s[x])
  {
    var level :| Descends(s, level);
    DerefWithout(s, x, s[x], level);
  }

  lemma {:induction false} DerefEnds(s: map<Variable, Term>, t: Term)
    requires Acyclic(s)
    ensures var e := Deref(s, t); e.Ref? ==> e.x !in s
    decreases |s|
  {
    if t.Ref? && t.x in s {
      var level :| Descends(s, level);
      AcyclicPart(s, s - {t.x});
      DerefEnds(s - {t.x}, s[t.x]);
      DerefBelow(s - {t.x}, s[t.x], level);
    }
  }

  lemma {:induction false} DerefBelow(s: map<Variable, Term>, t: Term, level: Variable -> nat)
    requires Descends(s, level)
    ensures var e := Deref(s, t); e.Ref? ==> t.Ref? && level(e.x) <= level(t.x)
    decreases |s|
  {
    if t.Ref? && t.x in s {
      assert Descends(s - {t.x}, level);
      DerefBelow(s - {t.x}, s[t.x], level);
    }
  }

  // ---------------------------------------------------------------- frames

  // Of two unbound variables x and y, y is bound to x: y belongs to a space further down, or to the same one and
  // has a type of higher rank.  Otherwise x is bound to y.
  predicate Swapped(x: Variable, y: Variable) {
    x.depth < y.depth || (x.depth == y.depth && x.rank < y.rank)
  }

  // What x may be bound to.
  ghost predicate Binds(s: Store, x: Variable, t: Term) {
    t.Ref? ==> t.x != x && t.x !in s && Refers(x, t.x)
  }

  // The i-th variable of the frame is not bound again, and its binding was one that unification makes.
  ghost predicate BoundAt(f: Frame, store: Store, i: nat) {
    i < |f| && f[i] !in f[i + 1..] && f[i] in store && Binds(Unbound(f[i..], store), f[i], store[f[i]])
  }

  // The variables of a frame are bound, each by this frame.
  ghost predicate Bound(f: Frame, store: Store) {
    forall i: nat {:trigger BoundAt(f, store, i)} :: i < |f| ==> BoundAt(f, store, i)
  }

  // Every trailed variable is bound, and bound once.
  ghost predicate WellTrailed(frames: seq<Frame>, store: Store) {
    frames == [] ||
    (var f := frames[|frames| - 1];
     Bound(f, store) && WellTrailed(frames[..|frames| - 1], Unbound(f, store)))
  }

  ghost function Unbound(f: Frame, store: Store): Store {
    var s := map x | x in store && x !in f :: store[x];
    AcyclicPart(store, s);
    s
  }

  function Without(store: Store, x: Variable): Store {
    var s := map y | y in store && y != x :: store[y];
    AcyclicPart(store, s);
    s
  }

  lemma BoundIn(f: Frame, store: Store)
    requires Bound(f, store)
    ensures forall x :: x in f ==> x in store
  {
    forall x | x in f ensures x in store {
      var i: nat :| i < |f| && f[i] == x;
      assert BoundAt(f, store, i);
    }
  }

  ghost function ScriptOf(f: Frame, store: Store): seq<Eq>
    requires Bound(f, store)
  {
    BoundIn(f, store);
    seq(|f|, i requires 0 <= i < |f| => Eq(f[i], store[f[i]]))
  }

  datatype Undone = Undone(scripts: seq<seq<Eq>>, store: Store)

  // Undoing all frames, the last one first.
  ghost function Unwind(frames: seq<Frame>, store: Store): (u: Undone)
    requires WellTrailed(frames, store)
    ensures |u.scripts| == |frames|
  {
    if frames == [] then Undone([], store)
    else
      var f := frames[|frames| - 1];
      var u := Unwind(frames[..|frames| - 1], Unbound(f, store));
      Undone(u.scripts + [ScriptOf(f, store)], u.store)
  }

  // ---------------------------------------------------------------- unification

  datatype Unified = Same | Bind(x: Variable, t: Term) | Clash

  // What making two terms equal takes, references followed.
  function Unify(a: Term, b: Term): (r: Unified)
    ensures r.Bind? ==> r.t != Ref(r.x) && (a == Ref(r.x) || b == Ref(r.x)) && (r.t == a || r.t == b)
    ensures r.Bind? && r.t.Ref? ==> Refers(r.x, r.t.x)
  {
    if a == b then Same
    else if a.Ref? then (if b.Ref? && Swapped(a.x, b.x) then Bind(b.x, a) else Bind(a.x, b))
    else if b.Ref? then Bind(b.x, a)
    else Clash
  }

  // Unification and its effect.
  ghost function Tell(e: Eq, store: Store): (r: Unified)
    ensures r.Bind? ==>
      r.x !in store && Binds(store, r.x, r.t) && Acyclic(store[r.x := r.t]) && Directed(store[r.x := r.t])
  {
    var a, b := Deref(store, Ref(e.x)), Deref(store, e.y);
    DerefEnds(store, Ref(e.x));
    DerefEnds(store, e.y);
    var r := Unify(a, b);
    if r.Bind? then AcyclicMore(store, r.x, r.t); r else r
  }

  datatype Replayed = Replayed(ok: bool, store: Store, frame: Frame)

  // Telling the constraints of a script in order; a constraint that is already entailed binds nothing.
  ghost function Replay(script: seq<Eq>, store: Store, frame: Frame): Replayed {
    if script == [] then Replayed(true, store, frame)
    else
      match Tell(script[0], store)
      case Same => Replay(script[1..], store, frame)
      case Clash => Replayed(false, store, frame)
      case Bind(x, t) => Replay(script[1..], store[x := t], frame + [x])
  }

  datatype Installed = Installed(count: nat, frames: seq<Frame>, store: Store)

  // Installing spaces from the top down until a script fails; the failing one leaves nothing behind.
  ghost function Install(scripts: seq<seq<Eq>>, store: Store): (r: Installed)
    ensures |r.frames| == r.count <= |scripts|
  {
    if scripts == [] then Installed(0, [], store)
    else
      var r := Replay(scripts[0], store, []);
      if !r.ok then Installed(0, [], store)
      else
        var rest := Install(scripts[1..], r.store);
        Installed(1 + rest.count, [r.frame] + rest.frames, rest.store)
  }

  // ---------------------------------------------------------------- what telling achieves

  // Both sides of the constraint have the same end.
  ghost predicate Holds(s: map<Variable, Term>, e: Eq) {
    Deref(s, Ref(e.x)) == Deref(s, e.y)
  }

  ghost predicate Satisfies(s: map<Variable, Term>, script: seq<Eq>) {
    forall e {:trigger Holds(s, e)} :: e in script ==> Holds(s, e)
  }

  ghost predicate SatisfiesAll(s: map<Variable, Term>, scripts: seq<seq<Eq>>) {
    forall script {:trigger Satisfies(s, script)} :: script in scripts ==> Satisfies(s, script)
  }

  // What is bound in s is equal in s' to what it is bound to in s, whichever way it is bound there.
  ghost predicate Entails(s': map<Variable, Term>, s: map<Variable, Term>) {
    forall x {:trigger s[x]} :: x in s ==> Deref(s', Ref(x)) == Deref(s', s[x])
  }

  lemma ExtendsEntails(s': map<Variable, Term>, s: map<Variable, Term>)
    requires Acyclic(s') && Extends(s', s)
    ensures Entails(s', s)
  {
    var level :| Descends(s', level);
    forall x | x in s ensures Deref(s', Ref(x)) == Deref(s', s[x]) { DerefWithout(s', x, s'[x], level); }
  }

  // Following references in s first makes no difference to s'.
  lemma {:induction false} DerefIn(s': map<Variable, Term>, s: map<Variable, Term>, t: Term)
    requires Entails(s', s)
    ensures Deref(s', t) == Deref(s', Deref(s, t))
    decreases |s|
  {
    if t.Ref? && t.x in s {
      var less := s - {t.x};
      assert forall x :: x in less ==> less[x] == s[x];
      DerefIn(s', less, s[t.x]);
    }
  }

  // Telling one constraint: the stores that entail the old store and make the constraint hold are those that
  // entail the new store, and there are none if unification fails.
  lemma TellMeans(s': map<Variable, Term>, e: Eq, store: Store)
    ensures var r := Tell(e, store);
      Entails(s', store) && Holds(s', e) <==>
      match r case Same => Entails(s', store) case Clash => false case Bind(x, t) => Entails(s', store[x := t])
  {
    var a, b, r := Deref(store, Ref(e.x)), Deref(store, e.y), Tell(e, store);
    if Entails(s', store) {
      DerefIn(s', store, Ref(e.x));
      DerefIn(s', store, e.y);
      assert Holds(s', e) <==> Deref(s', a) == Deref(s', b);
      if r.Bind? {
        assert Entails(s', store[r.x := r.t]) <==> Deref(s', Ref(r.x)) == Deref(s', r.t) by {
          assert store[r.x := r.t][r.x] == r.t;
          forall x | x in store[r.x := r.t] && x != r.x ensures store[r.x := r.t][x] == store[x] {}
        }
      }
    } else if r.Bind? {
      var x :| x in store && Deref(s', Ref(x)) != Deref(s', store[x]);
      assert store[r.x := r.t][x] == store[x];
    }
  }

  // Replaying a script: the stores that entail the old store and satisfy the script are those that entail the new
  // one; there are none if replaying fails.  So the new store satisfies the script and assumes nothing else.
  lemma {:induction false} ReplayMeans(s': map<Variable, Term>, script: seq<Eq>, store: Store, frame: Frame)
    ensures var r := Replay(script, store, frame);
      Entails(s', store) && Satisfies(s', script) <==> r.ok && Entails(s', r.store)
  {
    if script != [] {
      var e, rest := script[0], script[1..];
      assert script == [e] + rest;
      assert Satisfies(s', script) <==> Holds(s', e) && Satisfies(s', rest);
      TellMeans(s', e, store);
      match Tell(e, store)
      case Same => ReplayMeans(s', rest, store, frame);
      case Clash =>
      case Bind(x, t) => ReplayMeans(s', rest, store[x := t], frame + [x]);
    }
  }

  lemma {:induction false} ReplayExtends(script: seq<Eq>, store: Store, frame: Frame)
    ensures Extends(Replay(script, store, frame).store, store)
  {
    if script != [] {
      match Tell(script[0], store)
      case Same => ReplayExtends(script[1..], store, frame);
      case Clash =>
      case Bind(x, t) => ReplayExtends(script[1..], store[x := t], frame + [x]);
    }
  }

  // Telling the script has turned s into s', or has failed: the stores that entail s and satisfy the script are
  // those that entail s', or there are none.
  ghost predicate ToldExactly(script: seq<Eq>, s: Store, s': Store, ok: bool) {
    forall t: map<Variable, Term> {:trigger Entails(t, s)} {:trigger Entails(t, s')} ::
      Entails(t, s) && Satisfies(t, script) <==> ok && Entails(t, s')
  }

  lemma ReplayExactly(script: seq<Eq>, store: Store)
    ensures var r := Replay(script, store, []); ToldExactly(script, store, r.store, r.ok)
  {
    var r := Replay(script, store, []);
    forall t: map<Variable, Term>
      ensures Entails(t, store) && Satisfies(t, script) <==> r.ok && Entails(t, r.store)
    {
      ReplayMeans(t, script, store, []);
    }
  }

  // Some store that extends s satisfies the scripts.
  ghost predicate Consistent(s: map<Variable, Term>, scripts: seq<seq<Eq>>) {
    exists s': map<Variable, Term> {:trigger Extends(s', s)} ::
      Acyclic(s') && Extends(s', s) && SatisfiesAll(s', scripts)
  }

  // The same for the spaces on the way down.  The first so many scripts are satisfied, the next one cannot be.
  lemma {:induction false} InstallMeans(s': map<Variable, Term>, scripts: seq<seq<Eq>>, store: Store)
    ensures var r := Install(scripts, store);
      && (Entails(s', store) && SatisfiesAll(s', scripts[..r.count]) <==> Entails(s', r.store))
      && (r.count < |scripts| ==> !(Entails(s', r.store) && Satisfies(s', scripts[r.count])))
  {
    if scripts != [] {
      var r := Replay(scripts[0], store, []);
      ReplayMeans(s', scripts[0], store, []);
      if r.ok {
        var rest, n := scripts[1..], Install(scripts, store).count;
        InstallMeans(s', rest, r.store);
        assert scripts[..n] == [scripts[0]] + rest[..n - 1];
        assert SatisfiesAll(s', scripts[..n]) <==> Satisfies(s', scripts[0]) && SatisfiesAll(s', rest[..n - 1]);
      }
    }
  }

  lemma {:induction false} InstallExtends(scripts: seq<seq<Eq>>, store: Store)
    ensures Extends(Install(scripts, store).store, store)
  {
    if scripts != [] {
      var r := Replay(scripts[0], store, []);
      ReplayExtends(scripts[0], store, []);
      if r.ok { InstallExtends(scripts[1..], r.store); }
    }
  }

  // A store that extends the first one and satisfies n scripts shows that n spaces can be installed.
  lemma InstallReaches(s': map<Variable, Term>, scripts: seq<seq<Eq>>, store: Store, n: nat)
    requires n <= |scripts| && Acyclic(s') && Extends(s', store) && SatisfiesAll(s', scripts[..n])
    ensures n <= Install(scripts, store).count
  {
    ExtendsEntails(s', store);
    var m := Install(scripts, store).count;
    forall i | 0 <= i < n ensures Satisfies(s', scripts[i]) { assert scripts[i] == scripts[..n][i]; }
    assert m < n ==> SatisfiesAll(s', scripts[..m]);
    InstallMeans(s', scripts, store);
  }

  // An installation gets as far as the scripts can be satisfied together, and its store satisfies them.
  lemma InstallExact(scripts: seq<seq<Eq>>, store: Store, n: nat)
    requires n <= |scripts|
    ensures var r := Install(scripts, store);
      && (n <= r.count <==> Consistent(store, scripts[..n]))
      && (n <= r.count ==> SatisfiesAll(r.store, scripts[..n]))
  {
    var r := Install(scripts, store);
    InstallExtends(scripts, store);
    ExtendsEntails(r.store, r.store);
    InstallMeans(r.store, scripts, store);
    assert n <= r.count ==> forall script :: script in scripts[..n] ==> script in scripts[..r.count];
    forall s': map<Variable, Term> {:trigger Extends(s', store)} |
      Acyclic(s') && Extends(s', store) && SatisfiesAll(s', scripts[..n])
      ensures n <= r.count
    {
      InstallReaches(s', scripts, store, n);
    }
  }

  // ---------------------------------------------------------------- one frame

  // One more binding at the end of a frame.
  lemma BoundMore(f: Frame, store: Store, x: Variable, t: Term)
    requires Bound(f, store) && x !in store && Binds(store, x, t) && Acyclic(store[x := t]) && Directed(store[x := t])
    ensures Bound(f + [x], store[x := t]) && Unbound(f + [x], store[x := t]) == Unbound(f, store)
  {
    var f', store' := f + [x], store[x := t];
    BoundIn(f, store);
    forall i: nat | i <= |f| ensures Unbound(f'[i..], store') == Unbound(f[i..], store) {
      assert f'[i..] == f[i..] + [x];
      assert forall y :: y in f'[i..] <==> y in f[i..] || y == x;
    }
    forall i: nat | i < |f'| ensures BoundAt(f', store', i) {
      if i < |f| {
        assert BoundAt(f, store, i);
      } else {
        assert f[i..] == [] && Unbound([], store) == store;
      }
    }
    assert f'[0..] == f' && f[0..] == f;
  }

  lemma {:induction false} ReplayInvariant(script: seq<Eq>, store: Store, frame: Frame)
    requires Bound(frame, store)
    ensures var r := Replay(script, store, frame);
      Bound(r.frame, r.store) && Unbound(r.frame, r.store) == Unbound(frame, store)
  {
    if script != [] {
      match Tell(script[0], store)
      case Same => ReplayInvariant(script[1..], store, frame);
      case Clash =>
      case Bind(x, t) =>
        BoundMore(frame, store, x, t);
        ReplayInvariant(script[1..], store[x := t], frame + [x]);
    }
  }

  // Undoing what a replay did, whether it failed or not, restores the store.
  lemma ReplayUndone(script: seq<Eq>, store: Store)
    ensures var r := Replay(script, store, []);
      Bound(r.frame, r.store) && Unbound(r.frame, r.store) == store
  {
    assert Unbound([], store) == store;
    ReplayInvariant(script, store, []);
  }

  // Undoing one binding less.
  lemma UnboundLess(f: Frame, store: Store, i: nat)
    requires Bound(f, store) && i < |f|
    ensures f[i] in store && f[i] !in Unbound(f[i..], store)
    ensures Unbound(f[i + 1..], store) == Unbound(f[i..], store)[f[i] := store[f[i]]]
  {
    assert BoundAt(f, store, i);
    assert f[i..] == [f[i]] + f[i + 1..];
    assert forall x :: x in f[i..] <==> x == f[i] || x in f[i + 1..];
    assert f[i] !in f[i + 1..];
  }

  // Undoing one binding more.
  lemma UnboundMore(f: Frame, store: Store, i: nat)
    requires i < |f|
    ensures Without(Unbound(f[i + 1..], store), f[i]) == Unbound(f[i..], store)
  {
    assert f[i..] == [f[i]] + f[i + 1..];
    assert forall x :: x in f[i..] <==> x == f[i] || x in f[i + 1..];
  }

  lemma {:induction false} ReplayRest(f: Frame, store: Store, i: nat)
    requires Bound(f, store) && i <= |f|
    ensures Replay(ScriptOf(f, store)[i..], Unbound(f[i..], store), f[..i]) == Replayed(true, store, f)
    decreases |f| - i
  {
    if i == |f| {
      assert Unbound(f[i..], store) == store;
      assert f[..i] == f;
    } else {
      var s := ScriptOf(f, store)[i..];
      var st := Unbound(f[i..], store);
      UnboundLess(f, store, i);
      assert BoundAt(f, store, i);
      assert s[0] == Eq(f[i], store[f[i]]);
      assert Tell(s[0], st) == Bind(f[i], store[f[i]]);
      assert f[..i] + [f[i]] == f[..i + 1];
      assert s[1..] == ScriptOf(f, store)[i + 1..];
      ReplayRest(f, store, i + 1);
    }
  }

  // Replaying the script of an undone frame rebinds the same variables in the same order, and each in the same
  // direction.
  lemma UndoneReplayed(f: Frame, store: Store)
    requires Bound(f, store)
    ensures Replay(ScriptOf(f, store), Unbound(f, store), []) == Replayed(true, store, f)
  {
    ReplayRest(f, store, 0);
    assert f[0..] == f && f[..0] == [];
    assert ScriptOf(f, store)[0..] == ScriptOf(f, store);
  }

  // ---------------------------------------------------------------- many frames

  // The first frame is undone last.
  lemma {:induction false} UnwindFront(f: Frame, fs: seq<Frame>, store: Store)
    requires WellTrailed([f] + fs, store)
    ensures WellTrailed(fs, store)
    ensures var u := Unwind(fs, store);
      && Bound(f, u.store)
      && Unwind([f] + fs, store) == Undone([ScriptOf(f, u.store)] + u.scripts, Unbound(f, u.store))
  {
    var all := [f] + fs;
    if fs == [] {
      assert all[..|all| - 1] == [];
      assert all == [f];
    } else {
      var last := fs[|fs| - 1];
      assert all[|all| - 1] == last && all[..|all| - 1] == [f] + fs[..|fs| - 1];
      UnwindFront(f, fs[..|fs| - 1], Unbound(last, store));
      var u := Unwind(fs[..|fs| - 1], Unbound(last, store));
      assert [ScriptOf(f, u.store)] + u.scripts + [ScriptOf(last, store)] ==
        [ScriptOf(f, u.store)] + (u.scripts + [ScriptOf(last, store)]);
    }
  }

  lemma {:induction false} WellTrailedFront(f: Frame, fs: seq<Frame>, store: Store)
    requires WellTrailed(fs, store)
    requires var u := Unwind(fs, store); Bound(f, u.store)
    ensures WellTrailed([f] + fs, store)
  {
    var all := [f] + fs;
    if fs == [] {
      assert all[..|all| - 1] == [];
    } else {
      var last := fs[|fs| - 1];
      assert all[|all| - 1] == last && all[..|all| - 1] == [f] + fs[..|fs| - 1];
      WellTrailedFront(f, fs[..|fs| - 1], Unbound(last, store));
    }
  }

  lemma {:induction false} UnwindSplit(fs: seq<Frame>, gs: seq<Frame>, store: Store)
    requires WellTrailed(fs + gs, store)
    ensures WellTrailed(gs, store) && WellTrailed(fs, Unwind(gs, store).store)
    ensures Unwind(fs + gs, store).store == Unwind(fs, Unwind(gs, store).store).store
  {
    if gs == [] {
      assert fs + gs == fs;
    } else {
      var last := gs[|gs| - 1];
      assert (fs + gs)[|fs + gs| - 1] == last && (fs + gs)[..|fs + gs| - 1] == fs + gs[..|gs| - 1];
      UnwindSplit(fs, gs[..|gs| - 1], Unbound(last, store));
    }
  }

  lemma {:induction false} WellTrailedJoin(fs: seq<Frame>, gs: seq<Frame>, store: Store)
    requires WellTrailed(gs, store) && WellTrailed(fs, Unwind(gs, store).store)
    ensures WellTrailed(fs + gs, store)
  {
    if gs == [] {
      assert fs + gs == fs;
    } else {
      var last := gs[|gs| - 1];
      assert (fs + gs)[|fs + gs| - 1] == last && (fs + gs)[..|fs + gs| - 1] == fs + gs[..|gs| - 1];
      WellTrailedJoin(fs, gs[..|gs| - 1], Unbound(last, store));
    }
  }

  // Undoing frames takes exactly their variables out of the store.
  lemma {:induction false} UnwindStore(frames: seq<Frame>, store: Store)
    requires WellTrailed(frames, store)
    ensures var s := Unwind(frames, store).store;
      && Extends(store, s)
      && (forall x :: x in s <==> x in store && forall f {:trigger f in frames} :: f in frames ==> x !in f)
  {
    if frames != [] {
      var f, fs := frames[|frames| - 1], frames[..|frames| - 1];
      assert frames == fs + [f];
      UnwindStore(fs, Unbound(f, store));
      forall x ensures (forall g :: g in frames ==> x !in g) <==> x !in f && forall g :: g in fs ==> x !in g {
        assert f in frames && forall g :: g in frames <==> g in fs || g == f;
      }
    }
  }

  // Undoing an installation restores the store it started from.
  lemma {:induction false} InstallUndone(scripts: seq<seq<Eq>>, store: Store)
    ensures var r := Install(scripts, store);
      WellTrailed(r.frames, r.store) && Unwind(r.frames, r.store).store == store
  {
    if scripts != [] {
      var r := Replay(scripts[0], store, []);
      ReplayUndone(scripts[0], store);
      if r.ok {
        InstallUndone(scripts[1..], r.store);
        var rest := Install(scripts[1..], r.store);
        WellTrailedFront(r.frame, rest.frames, rest.store);
        UnwindFront(r.frame, rest.frames, rest.store);
      }
    }
  }

  // Installing the scripts of undone frames brings exactly those frames and that store back.
  lemma {:induction false} UndoneInstalled(frames: seq<Frame>, store: Store)
    requires WellTrailed(frames, store)
    ensures var u := Unwind(frames, store); Install(u.scripts, u.store) == Installed(|frames|, frames, store)
  {
    if frames != [] {
      var f, fs := frames[0], frames[1..];
      assert frames == [f] + fs;
      UnwindFront(f, fs, store);
      var u := Unwind(fs, store);
      UndoneReplayed(f, u.store);
      UndoneInstalled(fs, store);
      assert Unwind(frames, store).scripts[1..] == u.scripts;
    }
  }

  lemma {:induction false} InstallAppend(ss: seq<seq<Eq>>, s: seq<Eq>, store: Store)
    ensures var r := Install(ss, store);
      if r.count < |ss| then Install(ss + [s], store) == r
      else var q := Replay(s, r.store, []);
        Install(ss + [s], store) == if q.ok then Installed(r.count + 1, r.frames + [q.frame], q.store) else r
  {
    if ss == [] {
      assert ss + [s] == [s];
      assert [s][1..] == [];
    } else {
      assert (ss + [s])[0] == ss[0] && (ss + [s])[1..] == ss[1..] + [s];
      var r := Replay(ss[0], store, []);
      if r.ok {
        InstallAppend(ss[1..], s, r.store);
        var rest := Install(ss[1..], r.store);
        if rest.count == |ss[1..]| {
          var q := Replay(s, rest.store, []);
          assert [r.frame] + (rest.frames + [q.frame]) == [r.frame] + rest.frames + [q.frame];
        }
      }
    }
  }

  // Undoing the frames from index h on, telling some scripts, undoing these again and telling the
  // scripts of the former frames: the frames and the store are back.
  lemma ThereAndBack(T: seq<Frame>, S: Store, h: nat, ss: seq<seq<Eq>>)
    requires h <= |T| && WellTrailed(T, S)
    ensures WellTrailed(T[h..], S)
    ensures var u := Unwind(T[h..], S); var r := Install(ss, u.store); var T' := T[..h] + r.frames;
      && WellTrailed(T', r.store) && WellTrailed(T'[h..], r.store) && Unwind(T'[h..], r.store).store == u.store
      && Install(u.scripts, u.store) == Installed(|T| - h, T[h..], S)
      && T'[..h] + T[h..] == T
  {
    assert T == T[..h] + T[h..];
    UnwindSplit(T[..h], T[h..], S);
    var u := Unwind(T[h..], S);
    UndoneInstalled(T[h..], S);
    InstallUndone(ss, u.store);
    var r := Install(ss, u.store);
    WellTrailedJoin(T[..h], r.frames, r.store);
    assert (T[..h] + r.frames)[h..] == r.frames && (T[..h] + r.frames)[..h] == T[..h];
  }
}

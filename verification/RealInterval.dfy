// Real-interval propagators: bounds are tightened until no tracked width shrinks by more than a
// precision.  No solution is lost, failure means there is none, and the loops stop.
module RealInterval {

  function Min(a: real, b: real): real { if a < b then a else b }

  function Max(a: real, b: real): real { if a > b then a else b }

  function Min4(a: real, b: real, c: real, d: real): real { Min(Min(a, b), Min(c, d)) }

  function Max4(a: real, b: real, c: real, d: real): real { Max(Max(a, b), Max(c, d)) }

  class RI {
    var l: real
    var u: real

    constructor (l: real, u: real)
      ensures this.l == l && this.u == u
    {
      this.l, this.u := l, u;
    }

    function Width(): real
      reads this
    {
      u - l
    }

    predicate ContainsZero()
      reads this
    {
      l <= 0.0 && 0.0 <= u
    }

    // Tighten the upper bound; the result is negative when nothing is left.
    method AtMost(f: real) returns (w: real)
      modifies this
      ensures l == old(l) && w == u - l
      ensures u <= f && u <= old(u) && (u == f || u == old(u))
    {
      u := Min(u, f);
      w := Width();
    }

    method AtLeast(f: real) returns (w: real)
      modifies this
      ensures u == old(u) && w == u - l
      ensures l >= f && l >= old(l) && (l == f || l == old(l))
    {
      l := Max(l, f);
      w := Width();
    }
  }

  // ---------------------------------------------------------------- solutions

  type Relation = (real, real, real) -> bool

  ghost predicate Sum(a: real, b: real, c: real) { a + b == c }

  ghost predicate Product(a: real, b: real, c: real) { a * b == c }

  datatype Box = Box(l: real, u: real) {
    ghost predicate Has(a: real) { l <= a <= u }

    ghost predicate Within(b: Box) { b.l <= l && u <= b.u }
  }

  datatype Name = X | Y | Z

  // Something for each of the three arguments of a propagator.
  datatype Three<T> = Three(x: T, y: T, z: T) {
    function Get(n: Name): T {
      match n case X => x case Y => y case Z => z
    }

    function Set(n: Name, v: T): Three<T> {
      match n case X => Three(v, y, z) case Y => Three(x, v, z) case Z => Three(x, y, v)
    }
  }

  type Values = Three<real>

  // Two arguments may be the same variable.
  type Args = Three<RI>

  type Boxes = map<RI, Box>

  ghost predicate Over(b: Boxes, vs: Args) { vs.x in b && vs.y in b && vs.z in b }

  // t gives argument n a value in its box, the same value as another argument that is the same variable.
  ghost predicate Fits(vs: Args, b: Boxes, t: Values, n: Name)
    requires Over(b, vs)
  {
    b[vs.Get(n)].Has(t.Get(n)) && forall m :: vs.Get(m) == vs.Get(n) ==> t.Get(m) == t.Get(n)
  }

  ghost predicate Solution(rel: Relation, vs: Args, b: Boxes, t: Values)
    requires Over(b, vs)
  {
    rel(t.x, t.y, t.z) && forall n {:trigger Fits(vs, b, t, n)} :: Fits(vs, b, t, n)
  }

  ghost function Solutions(rel: Relation, vs: Args, b: Boxes): iset<Values>
    requires Over(b, vs)
  {
    iset t: Values | Solution(rel, vs, b, t)
  }

  lemma SolutionsKept(rel: Relation, vs: Args, b: Boxes, n: Name, v: Box)
    requires Over(b, vs) && v.Within(b[vs.Get(n)])
    requires forall t :: t in Solutions(rel, vs, b) ==> v.Has(t.Get(n))
    ensures Solutions(rel, vs, b[vs.Get(n) := v]) == Solutions(rel, vs, b)
  {
    var b' := b[vs.Get(n) := v];
    forall t | t in Solutions(rel, vs, b) ensures t in Solutions(rel, vs, b') {
      forall m ensures Fits(vs, b', t, m) { assert Fits(vs, b, t, m); }
    }
    forall t | t in Solutions(rel, vs, b') ensures t in Solutions(rel, vs, b) {
      forall m ensures Fits(vs, b, t, m) { assert Fits(vs, b', t, m); }
    }
  }

  // ---------------------------------------------------------------- remembered widths

  // The remembered widths and the redo flag after argument n has been tightened to width w.
  function Touch(w: real, n: Name, ws: Values, redo: bool, precision: real): (Values, bool) {
    if w < ws.Get(n) - precision then (ws.Set(n, w), true) else (ws, redo)
  }

  function Total(ws: Values): real { ws.x + ws.y + ws.z }

  // Box v during a pass that began with box b: not empty, within b, narrower than b by at most
  // the precision unless redo is set, and no wider than the width w that is remembered for it.
  ghost predicate Since(v: Box, b: Box, w: real, redo: bool, precision: real) {
    && v.l <= v.u && v.Within(b) && w >= v.u - v.l
    && (!redo ==> v.u - v.l >= b.u - b.l - precision && w >= b.u - b.l)
  }

  // No other argument is the same variable as argument n.
  ghost predicate Alone(vs: Args, n: Name) { forall m {:trigger vs.Get(m)} :: vs.Get(m) == vs.Get(n) ==> m == n }

  ghost predicate DuringAt(vs: Args, b: Boxes, start: Boxes, ws: Values, redo: bool, precision: real, n: Name) {
    var v := vs.Get(n);
    && v in b && v in start && Since(b[v], start[v], ws.Get(n), redo, precision)
    && (Alone(vs, n) ==> ws.Get(n) <= b[v].u - b[v].l + precision)
  }

  ghost predicate During(vs: Args, b: Boxes, start: Boxes, ws: Values, redo: bool, precision: real) {
    Over(b, vs) && Over(start, vs) && forall n {:trigger DuringAt(vs, b, start, ws, redo, precision, n)} ::
      DuringAt(vs, b, start, ws, redo, precision, n)
  }

  // From remembered widths ws0 to ws: redo is set exactly when some progress has been recorded.
  ghost predicate Progress(ws0: Values, ws: Values, redo: bool, precision: real) {
    && ws.x <= ws0.x && ws.y <= ws0.y && ws.z <= ws0.z
    && (if redo then Total(ws) < Total(ws0) - precision else ws == ws0)
  }

  lemma DuringKept(vs: Args, b: Boxes, start: Boxes, ws: Values, redo: bool, precision: real, n: Name, v: Box)
    requires precision > 0.0 && During(vs, b, start, ws, redo, precision) && v.l <= v.u && v.Within(b[vs.Get(n)])
    ensures var r := Touch(v.u - v.l, n, ws, redo, precision); During(vs, b[vs.Get(n) := v], start, r.0, r.1, precision)
  {
    var r := Touch(v.u - v.l, n, ws, redo, precision);
    var b' := b[vs.Get(n) := v];
    assert DuringAt(vs, b, start, ws, redo, precision, n);
    forall m ensures DuringAt(vs, b', start, r.0, r.1, precision, m) {
      assert DuringAt(vs, b, start, ws, redo, precision, m);
      assert m != n ==> r.0.Get(m) == ws.Get(m);
    }
  }

  lemma ProgressKept(ws0: Values, ws: Values, redo: bool, precision: real, n: Name, w: real)
    requires precision > 0.0 && Progress(ws0, ws, redo, precision)
    ensures var r := Touch(w, n, ws, redo, precision); Progress(ws0, r.0, r.1, precision)
  {
  }

  // ---------------------------------------------------------------- a pass as a value

  // What has become of the boxes, the remembered widths and the redo flag in the course of a pass.
  datatype Pass = Pass(ok: bool, b: Boxes, ws: Values, redo: bool)

  ghost function Tightened(s: Pass, vs: Args, n: Name, c: Box, precision: real): (t: Pass)
    requires Over(s.b, vs)
    ensures Over(t.b, vs)
  {
    if !s.ok then s
    else
      var (ws, redo) := Touch(c.u - c.l, n, s.ws, s.redo, precision);
      Pass(c.l <= c.u, s.b[vs.Get(n) := c], ws, redo)
  }

  ghost function Raised(s: Pass, vs: Args, n: Name, f: real, precision: real): (t: Pass)
    requires Over(s.b, vs)
    ensures Over(t.b, vs)
  {
    var v := s.b[vs.Get(n)];
    Tightened(s, vs, n, Box(Max(v.l, f), v.u), precision)
  }

  ghost function Lowered(s: Pass, vs: Args, n: Name, f: real, precision: real): (t: Pass)
    requires Over(s.b, vs)
    ensures Over(t.b, vs)
  {
    var v := s.b[vs.Get(n)];
    Tightened(s, vs, n, Box(v.l, Min(v.u, f)), precision)
  }

  // The variables of a method that makes a pass are those of the pass s, as long as it has not failed.
  ghost predicate At(vs: Args, ok: bool, ws: Values, redo: bool, s: Pass)
    reads vs.x, vs.y, vs.z
  {
    ok == s.ok && (ok ==> BoxesOf(vs) == s.b && ws == s.ws && redo == s.redo)
  }

  // ---------------------------------------------------------------- one tightening

  ghost function BoxesOf(vs: Args): Boxes
    reads vs.x, vs.y, vs.z
  {
    map v: RI | v in {vs.x, vs.y, vs.z} :: Box(v.l, v.u)
  }

  // Raise the lower bound of argument n to f, below which no solution has it.
  method Raise(ghost rel: Relation, n: Name, f: real, ws: Values, redo: bool, precision: real, vs: Args,
               ghost start: Boxes, ghost ws0: Values) returns (ok: bool, ws': Values, redo': bool)
    requires precision > 0.0 && During(vs, BoxesOf(vs), start, ws, redo, precision)
      && Progress(ws0, ws, redo, precision)
    requires forall t :: t in Solutions(rel, vs, BoxesOf(vs)) ==> f <= t.Get(n)
    modifies vs.x, vs.y, vs.z
    ensures Solutions(rel, vs, BoxesOf(vs)) == Solutions(rel, vs, old(BoxesOf(vs)))
    ensures var v := vs.Get(n); BoxesOf(vs) == old(BoxesOf(vs))[v := Box(Max(old(v.l), f), old(v.u))]
    ensures At(vs, ok, ws', redo', Raised(Pass(true, old(BoxesOf(vs)), ws, redo), vs, n, f, precision))
    ensures if ok then During(vs, BoxesOf(vs), start, ws', redo', precision) && Progress(ws0, ws', redo', precision)
            else Solutions(rel, vs, BoxesOf(vs)) == iset{}
  {
    ghost var b := BoxesOf(vs);
    var v := vs.Get(n);
    var w := v.AtLeast(f);
    ok := w >= 0.0;
    var r := Touch(w, n, ws, redo, precision);
    ws', redo' := r.0, r.1;
    ghost var c := Box(v.l, v.u);
    assert BoxesOf(vs) == b[v := c];
    forall t | t in Solutions(rel, vs, b) ensures c.Has(t.Get(n)) { assert Fits(vs, b, t, n); }
    SolutionsKept(rel, vs, b, n, c);
    ProgressKept(ws0, ws, redo, precision, n, w);
    if ok { DuringKept(vs, b, start, ws, redo, precision, n, c); }
  }

  // Lower the upper bound of argument n to f, above which no solution has it.
  method Lower(ghost rel: Relation, n: Name, f: real, ws: Values, redo: bool, precision: real, vs: Args,
               ghost start: Boxes, ghost ws0: Values) returns (ok: bool, ws': Values, redo': bool)
    requires precision > 0.0 && During(vs, BoxesOf(vs), start, ws, redo, precision)
      && Progress(ws0, ws, redo, precision)
    requires forall t :: t in Solutions(rel, vs, BoxesOf(vs)) ==> t.Get(n) <= f
    modifies vs.x, vs.y, vs.z
    ensures Solutions(rel, vs, BoxesOf(vs)) == Solutions(rel, vs, old(BoxesOf(vs)))
    ensures var v := vs.Get(n); BoxesOf(vs) == old(BoxesOf(vs))[v := Box(old(v.l), Min(old(v.u), f))]
    ensures At(vs, ok, ws', redo', Lowered(Pass(true, old(BoxesOf(vs)), ws, redo), vs, n, f, precision))
    ensures if ok then During(vs, BoxesOf(vs), start, ws', redo', precision) && Progress(ws0, ws', redo', precision)
            else Solutions(rel, vs, BoxesOf(vs)) == iset{}
  {
    ghost var b := BoxesOf(vs);
    var v := vs.Get(n);
    var w := v.AtMost(f);
    ok := w >= 0.0;
    var r := Touch(w, n, ws, redo, precision);
    ws', redo' := r.0, r.1;
    ghost var c := Box(v.l, v.u);
    assert BoxesOf(vs) == b[v := c];
    forall t | t in Solutions(rel, vs, b) ensures c.Has(t.Get(n)) { assert Fits(vs, b, t, n); }
    SolutionsKept(rel, vs, b, n, c);
    ProgressKept(ws0, ws, redo, precision, n, w);
    if ok { DuringKept(vs, b, start, ws, redo, precision, n, c); }
  }

  // ---------------------------------------------------------------- sums

  // Rounding towards minus and towards plus infinity.
  ghost predicate Rounding(rd: real -> real, ru: real -> real) {
    && (forall v {:trigger rd(v)} :: rd(v) <= v)
    && (forall v {:trigger ru(v)} :: v <= ru(v))
    && (forall v, w {:trigger rd(v), rd(w)} :: v <= w ==> rd(v) <= rd(w))
    && (forall v, w {:trigger ru(v), ru(w)} :: v <= w ==> ru(v) <= ru(w))
  }

  // What x + y = z says about the lower and the upper bound of argument n.
  ghost function LowerBound(vs: Args, b: Boxes, n: Name): real
    requires Over(b, vs)
  {
    match n
    case X => b[vs.z].l - b[vs.y].u
    case Y => b[vs.z].l - b[vs.x].u
    case Z => b[vs.x].l + b[vs.y].l
  }

  ghost function UpperBound(vs: Args, b: Boxes, n: Name): real
    requires Over(b, vs)
  {
    match n
    case X => b[vs.z].u - b[vs.y].l
    case Y => b[vs.z].u - b[vs.x].l
    case Z => b[vs.x].u + b[vs.y].u
  }

  lemma SumBounds(vs: Args, b: Boxes, rd: real -> real, ru: real -> real, n: Name)
    requires Over(b, vs) && Rounding(rd, ru)
    ensures forall t :: t in Solutions(Sum, vs, b) ==> rd(LowerBound(vs, b, n)) <= t.Get(n) <= ru(UpperBound(vs, b, n))
  {
    forall t | t in Solutions(Sum, vs, b) ensures rd(LowerBound(vs, b, n)) <= t.Get(n) <= ru(UpperBound(vs, b, n)) {
      assert Fits(vs, b, t, X) && Fits(vs, b, t, Y) && Fits(vs, b, t, Z);
      assert LowerBound(vs, b, n) <= t.Get(n) <= UpperBound(vs, b, n);
    }
  }

  lemma BoundsGrow(vs: Args, b: Boxes, start: Boxes, ws: Values, redo: bool, precision: real, n: Name)
    requires During(vs, b, start, ws, redo, precision)
    ensures LowerBound(vs, b, n) >= LowerBound(vs, start, n) && UpperBound(vs, b, n) <= UpperBound(vs, start, n)
  {
    forall m ensures b[vs.Get(m)].Within(start[vs.Get(m)]) { assert DuringAt(vs, b, start, ws, redo, precision, m); }
    assert b[vs.Get(X)].Within(start[vs.Get(X)]) && b[vs.Get(Y)].Within(start[vs.Get(Y)])
      && b[vs.Get(Z)].Within(start[vs.Get(Z)]);
  }

  // In b, the bounds of argument n are as tight as its rules ask for, given the boxes s.
  ghost predicate Low(vs: Args, b: Boxes, s: Boxes, rd: real -> real, n: Name) {
    Over(b, vs) && Over(s, vs) && b[vs.Get(n)].l >= rd(LowerBound(vs, s, n))
  }

  ghost predicate High(vs: Args, b: Boxes, s: Boxes, ru: real -> real, n: Name) {
    Over(b, vs) && Over(s, vs) && b[vs.Get(n)].u <= ru(UpperBound(vs, s, n))
  }

  ghost function SumRaised(s: Pass, vs: Args, n: Name, rd: real -> real, precision: real): (t: Pass)
    requires Over(s.b, vs)
    ensures Over(t.b, vs)
  {
    Raised(s, vs, n, rd(LowerBound(vs, s.b, n)), precision)
  }

  ghost function SumLowered(s: Pass, vs: Args, n: Name, ru: real -> real, precision: real): (t: Pass)
    requires Over(s.b, vs)
    ensures Over(t.b, vs)
  {
    Lowered(s, vs, n, ru(UpperBound(vs, s.b, n)), precision)
  }

  ghost function AllRaised(s: Pass, vs: Args, rd: real -> real, precision: real): (t: Pass)
    requires Over(s.b, vs)
    ensures Over(t.b, vs)
  {
    SumRaised(SumRaised(SumRaised(s, vs, Z, rd, precision), vs, X, rd, precision), vs, Y, rd, precision)
  }

  ghost function AllLowered(s: Pass, vs: Args, ru: real -> real, precision: real): (t: Pass)
    requires Over(s.b, vs)
    ensures Over(t.b, vs)
  {
    SumLowered(SumLowered(SumLowered(s, vs, Z, ru, precision), vs, X, ru, precision), vs, Y, ru, precision)
  }

  // The six rules for x + y = z, one after the other.
  ghost function SumPassed(vs: Args, b: Boxes, ws: Values, precision: real, rd: real -> real, ru: real -> real)
    : (t: Pass)
    requires Over(b, vs)
    ensures Over(t.b, vs)
  {
    AllLowered(AllRaised(Pass(true, b, ws, false), vs, rd, precision), vs, ru, precision)
  }

  // One rule: the lower bound of argument n, rounded downwards.
  method RaiseSum(n: Name, f: real, ws: Values, redo: bool, precision: real, vs: Args, rd: real -> real,
                  ru: real -> real, ghost start: Boxes, ghost ws0: Values) returns (ok: bool, ws': Values, redo': bool)
    requires Rounding(rd, ru) && precision > 0.0 && During(vs, BoxesOf(vs), start, ws, redo, precision)
      && Progress(ws0, ws, redo, precision)
    requires f == LowerBound(vs, BoxesOf(vs), n)
    modifies vs.x, vs.y, vs.z
    ensures Solutions(Sum, vs, BoxesOf(vs)) == Solutions(Sum, vs, old(BoxesOf(vs)))
    ensures ok ==> During(vs, BoxesOf(vs), start, ws', redo', precision) && Progress(ws0, ws', redo', precision)
    ensures !ok ==> Solutions(Sum, vs, BoxesOf(vs)) == iset{}
    ensures Low(vs, BoxesOf(vs), start, rd, n)
    ensures At(vs, ok, ws', redo', SumRaised(Pass(true, old(BoxesOf(vs)), ws, redo), vs, n, rd, precision))
    ensures forall m {:trigger Low(vs, BoxesOf(vs), start, rd, m)} ::
      Low(vs, old(BoxesOf(vs)), start, rd, m) ==> Low(vs, BoxesOf(vs), start, rd, m)
    ensures forall m {:trigger High(vs, BoxesOf(vs), start, ru, m)} ::
      High(vs, old(BoxesOf(vs)), start, ru, m) ==> High(vs, BoxesOf(vs), start, ru, m)
  {
    SumBounds(vs, BoxesOf(vs), rd, ru, n);
    BoundsGrow(vs, BoxesOf(vs), start, ws, redo, precision, n);
    ok, ws', redo' := Raise(Sum, n, rd(f), ws, redo, precision, vs, start, ws0);
  }

  // One rule: the upper bound of argument n, rounded upwards.
  method LowerSum(n: Name, f: real, ws: Values, redo: bool, precision: real, vs: Args, rd: real -> real,
                  ru: real -> real, ghost start: Boxes, ghost ws0: Values) returns (ok: bool, ws': Values, redo': bool)
    requires Rounding(rd, ru) && precision > 0.0 && During(vs, BoxesOf(vs), start, ws, redo, precision)
      && Progress(ws0, ws, redo, precision)
    requires f == UpperBound(vs, BoxesOf(vs), n)
    modifies vs.x, vs.y, vs.z
    ensures Solutions(Sum, vs, BoxesOf(vs)) == Solutions(Sum, vs, old(BoxesOf(vs)))
    ensures ok ==> During(vs, BoxesOf(vs), start, ws', redo', precision) && Progress(ws0, ws', redo', precision)
    ensures !ok ==> Solutions(Sum, vs, BoxesOf(vs)) == iset{}
    ensures High(vs, BoxesOf(vs), start, ru, n)
    ensures At(vs, ok, ws', redo', SumLowered(Pass(true, old(BoxesOf(vs)), ws, redo), vs, n, ru, precision))
    ensures forall m {:trigger Low(vs, BoxesOf(vs), start, rd, m)} ::
      Low(vs, old(BoxesOf(vs)), start, rd, m) ==> Low(vs, BoxesOf(vs), start, rd, m)
    ensures forall m {:trigger High(vs, BoxesOf(vs), start, ru, m)} ::
      High(vs, old(BoxesOf(vs)), start, ru, m) ==> High(vs, BoxesOf(vs), start, ru, m)
  {
    SumBounds(vs, BoxesOf(vs), rd, ru, n);
    BoundsGrow(vs, BoxesOf(vs), start, ws, redo, precision, n);
    ok, ws', redo' := Lower(Sum, n, ru(f), ws, redo, precision, vs, start, ws0);
  }

  // The three lower bounds.
  method RaiseAll(ws: Values, precision: real, vs: Args, rd: real -> real, ru: real -> real, ghost start: Boxes)
    returns (ok: bool, ws': Values, redo': bool)
    requires Rounding(rd, ru) && precision > 0.0 && During(vs, BoxesOf(vs), start, ws, false, precision)
    modifies vs.x, vs.y, vs.z
    ensures Solutions(Sum, vs, BoxesOf(vs)) == Solutions(Sum, vs, old(BoxesOf(vs)))
    ensures !ok ==> Solutions(Sum, vs, BoxesOf(vs)) == iset{}
    ensures ok ==> During(vs, BoxesOf(vs), start, ws', redo', precision) && Progress(ws, ws', redo', precision)
    ensures ok ==> forall n :: Low(vs, BoxesOf(vs), start, rd, n)
    ensures At(vs, ok, ws', redo', AllRaised(Pass(true, old(BoxesOf(vs)), ws, false), vs, rd, precision))
  {
    ok, ws', redo' := RaiseSum(Z, vs.x.l + vs.y.l, ws, false, precision, vs, rd, ru, start, ws);
    if !ok { return; }
    ok, ws', redo' := RaiseSum(X, vs.z.l - vs.y.u, ws', redo', precision, vs, rd, ru, start, ws);
    if !ok { return; }
    ok, ws', redo' := RaiseSum(Y, vs.z.l - vs.x.u, ws', redo', precision, vs, rd, ru, start, ws);
    if !ok { return; }
    forall n ensures Low(vs, BoxesOf(vs), start, rd, n) { assert n == X || n == Y || n == Z; }
  }

  // The three upper bounds.
  method LowerAll(ws: Values, redo: bool, precision: real, vs: Args, rd: real -> real, ru: real -> real,
                  ghost start: Boxes, ghost ws0: Values) returns (ok: bool, ws': Values, redo': bool)
    requires Rounding(rd, ru) && precision > 0.0 && During(vs, BoxesOf(vs), start, ws, redo, precision)
      && Progress(ws0, ws, redo, precision)
    requires forall n :: Low(vs, BoxesOf(vs), start, rd, n)
    modifies vs.x, vs.y, vs.z
    ensures Solutions(Sum, vs, BoxesOf(vs)) == Solutions(Sum, vs, old(BoxesOf(vs)))
    ensures !ok ==> Solutions(Sum, vs, BoxesOf(vs)) == iset{}
    ensures ok ==> During(vs, BoxesOf(vs), start, ws', redo', precision) && Progress(ws0, ws', redo', precision)
    ensures ok ==> forall n :: Low(vs, BoxesOf(vs), start, rd, n) && High(vs, BoxesOf(vs), start, ru, n)
    ensures At(vs, ok, ws', redo', AllLowered(Pass(true, old(BoxesOf(vs)), ws, redo), vs, ru, precision))
  {
    ok, ws', redo' := LowerSum(Z, vs.x.u + vs.y.u, ws, redo, precision, vs, rd, ru, start, ws0);
    if !ok { return; }
    ok, ws', redo' := LowerSum(X, vs.z.u - vs.y.l, ws', redo', precision, vs, rd, ru, start, ws0);
    if !ok { return; }
    ok, ws', redo' := LowerSum(Y, vs.z.u - vs.x.l, ws', redo', precision, vs, rd, ru, start, ws0);
    if !ok { return; }
    forall n ensures Low(vs, BoxesOf(vs), start, rd, n)
      && High(vs, BoxesOf(vs), start, ru, n) { assert n == X || n == Y || n == Z; }
  }

  // One pass for x + y = z.
  method SumPass(vs: Args, ws: Values, precision: real, rd: real -> real, ru: real -> real, ghost start: Boxes)
    returns (ok: bool, ws': Values, redo: bool)
    requires Rounding(rd, ru) && precision > 0.0 && During(vs, BoxesOf(vs), start, ws, false, precision)
    modifies vs.x, vs.y, vs.z
    ensures Solutions(Sum, vs, BoxesOf(vs)) == Solutions(Sum, vs, old(BoxesOf(vs)))
    ensures !ok ==> Solutions(Sum, vs, BoxesOf(vs)) == iset{}
    ensures ok ==>
      && During(vs, BoxesOf(vs), start, ws', redo, precision) && Progress(ws, ws', redo, precision)
      && forall n :: Low(vs, BoxesOf(vs), start, rd, n) && High(vs, BoxesOf(vs), start, ru, n)
    ensures At(vs, ok, ws', redo, SumPassed(vs, old(BoxesOf(vs)), ws, precision, rd, ru))
  {
    ok, ws', redo := RaiseAll(ws, precision, vs, rd, ru, start);
    if !ok { return; }
    ok, ws', redo := LowerAll(ws', redo, precision, vs, rd, ru, start, ws);
  }

  // ---------------------------------------------------------------- passes

  // Each box of b lies in that of s and is not empty.
  ghost predicate Inside(vs: Args, b: Boxes, s: Boxes) {
    Over(b, vs) && Over(s, vs) && forall m {:trigger vs.Get(m)} ::
      b[vs.Get(m)].l <= b[vs.Get(m)].u && b[vs.Get(m)].Within(s[vs.Get(m)])
  }

  lemma DuringInside(vs: Args, b: Boxes, start: Boxes, ws: Values, redo: bool, precision: real)
    requires During(vs, b, start, ws, redo, precision)
    ensures Inside(vs, b, start)
  {
    forall m ensures b[vs.Get(m)].l <= b[vs.Get(m)].u
      && b[vs.Get(m)].Within(start[vs.Get(m)]) { assert DuringAt(vs, b, start, ws, redo, precision, m); }
  }

  lemma InsideAgain(vs: Args, b: Boxes, c: Boxes, d: Boxes)
    requires Inside(vs, b, c) && Inside(vs, c, d)
    ensures Inside(vs, b, d)
  {
  }

  ghost predicate Nonempty(vs: Args)
    reads vs.x, vs.y, vs.z
  {
    vs.x.l <= vs.x.u && vs.y.l <= vs.y.u && vs.z.l <= vs.z.u
  }

  ghost function WidthsOf(vs: Args): Values
    reads vs.x, vs.y, vs.z
  {
    Three(vs.x.u - vs.x.l, vs.y.u - vs.y.l, vs.z.u - vs.z.l)
  }

  lemma FirstPass(vs: Args, precision: real)
    requires Nonempty(vs) && precision > 0.0
    ensures During(vs, BoxesOf(vs), BoxesOf(vs), WidthsOf(vs), false, precision)
  {
    var b, ws := BoxesOf(vs), WidthsOf(vs);
    forall n ensures DuringAt(vs, b, b, ws, false, precision, n) { assert n == X || n == Y || n == Z; }
  }

  lemma NextPass(vs: Args, b: Boxes, start: Boxes, ws: Values, redo: bool, precision: real)
    requires During(vs, b, start, ws, redo, precision) && precision > 0.0
    ensures During(vs, b, b, ws, false, precision) && Total(ws) >= 0.0
    ensures b[vs.x].l <= b[vs.x].u && b[vs.y].l <= b[vs.y].u && b[vs.z].l <= b[vs.z].u
  {
    forall n ensures DuringAt(vs, b, b, ws, false, precision, n)
      && ws.Get(n) >= 0.0 { assert DuringAt(vs, b, start, ws, redo, precision, n); }
    assert ws.Get(X) >= 0.0 && ws.Get(Y) >= 0.0 && ws.Get(Z) >= 0.0;
    assert DuringAt(vs, b, b, ws, false, precision, X) && DuringAt(vs, b, b, ws, false, precision, Y)
      && DuringAt(vs, b, b, ws, false, precision, Z);
  }

  // How often `total` can still shrink by more than the precision.
  ghost function Budget(total: real, precision: real): int
    requires precision > 0.0
  {
    (total / precision).Floor
  }

  lemma Times(a: real, b: real, p: real)
    requires a <= b && p >= 0.0
    ensures a * p <= b * p && (a + 1.0) * p == a * p + p
  {
    assert (b - a) * p >= 0.0;
  }

  lemma BudgetSpent(total: real, total': real, precision: real)
    requires precision > 0.0 && 0.0 <= total' < total - precision
    ensures 0 <= Budget(total', precision) < Budget(total, precision)
  {
    var q, q' := total / precision, total' / precision;
    assert q * precision == total && q' * precision == total';
    assert q' >= 0.0;
    if q' >= q - 1.0 { Times(q - 1.0, q', precision); }
  }

  // All boxes, a margin p wider on both sides.
  ghost function Widen(b: Boxes, p: real): Boxes {
    map v | v in b :: Box(b[v].l - p, b[v].u + p)
  }

  // No bound can be tightened by much: the rules, applied to boxes wider by the precision, ask for no more.
  ghost predicate Settled(vs: Args, b: Boxes, precision: real, rd: real -> real, ru: real -> real) {
    forall n :: Low(vs, b, Widen(b, precision), rd, n) && High(vs, b, Widen(b, precision), ru, n)
  }

  lemma LastPass(vs: Args, b: Boxes, start: Boxes, ws: Values, precision: real, rd: real -> real, ru: real -> real)
    requires During(vs, b, start, ws, false, precision) && precision > 0.0 && Rounding(rd, ru)
    requires forall n :: Low(vs, b, start, rd, n) && High(vs, b, start, ru, n)
    ensures Settled(vs, b, precision, rd, ru)
  {
    var w := Widen(b, precision);
    forall m ensures start[vs.Get(m)].Within(w[vs.Get(m)]) { assert DuringAt(vs, b, start, ws, false, precision, m); }
    forall n ensures Low(vs, b, w, rd, n) && High(vs, b, w, ru, n) {
      assert Low(vs, b, start, rd, n) && High(vs, b, start, ru, n);
      assert start[vs.Get(X)].Within(w[vs.Get(X)]) && start[vs.Get(Y)].Within(w[vs.Get(Y)])
        && start[vs.Get(Z)].Within(w[vs.Get(Z)]);
      assert LowerBound(vs, w, n) <= LowerBound(vs, start, n) && UpperBound(vs, w, n) >= UpperBound(vs, start, n);
    }
  }

  // The values t make the relation hold, and those of the arguments other than n lie at most p outside their boxes.
  ghost predicate Supports(rel: Relation, vs: Args, b: Boxes, p: real, n: Name, t: Values)
    requires Over(b, vs)
  {
    rel(t.x, t.y, t.z) && forall m {:trigger t.Get(m)} ::
      m != n ==> b[vs.Get(m)].l - p <= t.Get(m) <= b[vs.Get(m)].u + p
  }

  // The boxes of the other two arguments, p wider on both sides, allow argument n to have the value v.
  ghost predicate Allowed(rel: Relation, vs: Args, b: Boxes, p: real, n: Name, v: real)
    requires Over(b, vs)
  {
    exists t {:trigger Supports(rel, vs, b, p, n, t)} :: Supports(rel, vs, b, p, n, t) && t.Get(n) == v
  }

  lemma AllowedWidened(rel: Relation, vs: Args, b: Boxes, p: real, n: Name, v: real)
    requires Over(b, vs)
    ensures Allowed(rel, vs, Widen(b, p), 0.0, n, v) <==> Allowed(rel, vs, b, p, n, v)
  {
    forall t ensures Supports(rel, vs, Widen(b, p), 0.0, n, t) <==> Supports(rel, vs, b, p, n, t) {}
  }

  // The rules of a sum are exact: they leave precisely the values that the other two boxes allow.
  lemma SumExact(vs: Args, b: Boxes, n: Name, v: real)
    requires Over(b, vs) && forall m :: b[vs.Get(m)].l <= b[vs.Get(m)].u
    ensures LowerBound(vs, b, n) <= v <= UpperBound(vs, b, n) <==> Allowed(Sum, vs, b, 0.0, n, v)
  {
    var x, y, z := b[vs.Get(X)], b[vs.Get(Y)], b[vs.Get(Z)];
    if LowerBound(vs, b, n) <= v <= UpperBound(vs, b, n) {
      var t := match n
        case X => (var u := Max(y.l, z.l - v); Three(v, u, v + u))
        case Y => (var u := Max(x.l, z.l - v); Three(u, v, u + v))
        case Z => (var u := Max(x.l, v - y.u); Three(u, v - u, v));
      assert Supports(Sum, vs, b, 0.0, n, t);
    }
    if Allowed(Sum, vs, b, 0.0, n, v) {
      var t :| Supports(Sum, vs, b, 0.0, n, t) && t.Get(n) == v;
      assert t.Get(X) == t.x && t.Get(Y) == t.y && t.Get(Z) == t.z;
    }
  }

  // Up to rounding, each value that is left to an argument is one that the other boxes, wider by the precision, allow.
  ghost predicate SumTight(vs: Args, b: Boxes, precision: real, rd: real -> real, ru: real -> real) {
    Over(b, vs) && forall n, v {:trigger b[vs.Get(n)].Has(v)} :: b[vs.Get(n)].Has(v) ==>
      && (exists v' {:trigger rd(v')} :: Allowed(Sum, vs, b, precision, n, v') && rd(v') <= v)
      && (exists v' {:trigger ru(v')} :: Allowed(Sum, vs, b, precision, n, v') && v <= ru(v'))
  }

  lemma SettledTight(vs: Args, b: Boxes, precision: real, rd: real -> real, ru: real -> real)
    requires Over(b, vs) && precision > 0.0 && (forall m :: b[vs.Get(m)].l <= b[vs.Get(m)].u)
      && Settled(vs, b, precision, rd, ru)
    ensures SumTight(vs, b, precision, rd, ru)
  {
    var w := Widen(b, precision);
    forall n, v | b[vs.Get(n)].Has(v)
      ensures exists v' {:trigger rd(v')} :: Allowed(Sum, vs, b, precision, n, v') && rd(v') <= v
      ensures exists v' {:trigger ru(v')} :: Allowed(Sum, vs, b, precision, n, v') && v <= ru(v')
    {
      assert Low(vs, b, w, rd, n) && High(vs, b, w, ru, n);
      var l, u := LowerBound(vs, w, n), UpperBound(vs, w, n);
      BoundsOrdered(vs, w, n);
      SumExact(vs, w, n, l);
      SumExact(vs, w, n, u);
      AllowedWidened(Sum, vs, b, precision, n, l);
      AllowedWidened(Sum, vs, b, precision, n, u);
      assert rd(l) <= v <= ru(u);
    }
  }

  lemma BoundsOrdered(vs: Args, b: Boxes, n: Name)
    requires Over(b, vs) && forall m :: b[vs.Get(m)].l <= b[vs.Get(m)].u
    ensures LowerBound(vs, b, n) <= UpperBound(vs, b, n)
  {
    assert b[vs.Get(X)].l <= b[vs.Get(X)].u && b[vs.Get(Y)].l <= b[vs.Get(Y)].u && b[vs.Get(Z)].l <= b[vs.Get(Z)].u;
  }

  lemma BudgetPositive(total: real, precision: real)
    requires precision > 0.0 && total >= 0.0
    ensures Budget(total, precision) >= 0
  {
    assert total / precision >= 0.0;
  }

  // ---------------------------------------------------------------- products

  function CornerMin(pl: real, pu: real, ql: real, qu: real): real { Min4(pl * ql, pl * qu, pu * ql, pu * qu) }

  function CornerMax(pl: real, pu: real, ql: real, qu: real): real { Max4(pl * ql, pl * qu, pu * ql, pu * qu) }

  ghost predicate Between(v: real, a: real, b: real) { a <= v <= b || b <= v <= a }

  lemma Scale(v: real, a: real, b: real, c: real)
    requires Between(v, a, b)
    ensures Between(v * c, a * c, b * c) && Between(c * v, c * a, c * b)
  {
    if a <= v <= b { ScaleUp(a, v, c); ScaleUp(v, b, c); } else { ScaleUp(b, v, c); ScaleUp(v, a, c); }
  }

  lemma ScaleUp(a: real, b: real, c: real)
    requires a <= b
    ensures if c >= 0.0 then a * c <= b * c else b * c <= a * c
  {
    if c >= 0.0 { assert (b - a) * c >= 0.0; } else { assert (b - a) * c <= 0.0; }
  }

  lemma BetweenFour(v: real, p: real, q: real, a: real, b: real, c: real, d: real)
    requires Between(v, p, q) && Between(p, a, b) && Between(q, c, d)
    ensures Min4(a, b, c, d) <= v <= Max4(a, b, c, d)
  {
  }

  // A product of values between the corners lies between the products of the corners.
  lemma CornersBound(pl: real, pu: real, ql: real, qu: real, a: real, b: real)
    requires pl <= a <= pu && Between(b, ql, qu)
    ensures CornerMin(pl, pu, ql, qu) <= a * b <= CornerMax(pl, pu, ql, qu)
  {
    Scale(a, pl, pu, b);
    Scale(b, ql, qu, pl);
    Scale(b, ql, qu, pu);
    BetweenFour(a * b, pl * b, pu * b, pl * ql, pl * qu, pu * ql, pu * qu);
  }

  ghost predicate NoZero(v: Box) { v.l <= v.u && (v.l > 0.0 || v.u < 0.0) }

  // The rule for argument n may be used: no division by an interval with a zero in it.
  ghost predicate Usable(vs: Args, b: Boxes, n: Name) {
    Over(b, vs) && (n == X ==> NoZero(b[vs.y])) && (n == Y ==> NoZero(b[vs.x]))
  }

  // Argument n is a product of a value in the first box and a value between two corners.
  ghost function First(vs: Args, b: Boxes, n: Name): Box
    requires Over(b, vs)
  {
    if n == Z then b[vs.x] else b[vs.z]
  }

  ghost function Second(vs: Args, b: Boxes, n: Name): (real, real)
    requires Usable(vs, b, n)
  {
    match n
    case X => (1.0 / b[vs.y].l, 1.0 / b[vs.y].u)
    case Y => (1.0 / b[vs.x].l, 1.0 / b[vs.x].u)
    case Z => (b[vs.y].l, b[vs.y].u)
  }

  ghost function ProductLow(vs: Args, b: Boxes, n: Name): real
    requires Usable(vs, b, n)
  {
    CornerMin(First(vs, b, n).l, First(vs, b, n).u, Second(vs, b, n).0, Second(vs, b, n).1)
  }

  ghost function ProductHigh(vs: Args, b: Boxes, n: Name): real
    requires Usable(vs, b, n)
  {
    CornerMax(First(vs, b, n).l, First(vs, b, n).u, Second(vs, b, n).0, Second(vs, b, n).1)
  }

  lemma Reciprocals(a: real, b: real)
    requires a <= b && (a > 0.0 || b < 0.0)
    ensures 1.0 / b <= 1.0 / a
  {
    var r, s := 1.0 / a, 1.0 / b;
    assert r * a == 1.0 && s * b == 1.0;
    if s > r {
      ScaleUp(r, s, b);
      ScaleUp(a, b, r);
    }
  }

  lemma ReciprocalBetween(v: real, x: Box)
    requires NoZero(x) && x.Has(v)
    ensures v != 0.0 && Between(1.0 / v, 1.0 / x.l, 1.0 / x.u)
  {
    Reciprocals(x.l, v);
    Reciprocals(v, x.u);
  }

  lemma Quotient(a: real, b: real, c: real)
    requires a * b == c && b != 0.0
    ensures a == c * (1.0 / b)
  {
    assert b * (1.0 / b) == 1.0;
    assert c * (1.0 / b) == a * (b * (1.0 / b));
  }

  lemma Cofactor(d: Box, a: real, b: real, c: real) returns (q: real)
    requires NoZero(d) && d.Has(b) && a * b == c
    ensures Between(q, 1.0 / d.l, 1.0 / d.u) && c * q == a
  {
    ReciprocalBetween(b, d);
    Quotient(a, b, c);
    q := 1.0 / b;
  }

  lemma ValuesOf(vs: Args, b: Boxes, t: Values)
    requires Over(b, vs) && t in Solutions(Product, vs, b)
    ensures b[vs.x].Has(t.x) && b[vs.y].Has(t.y) && b[vs.z].Has(t.z) && t.x * t.y == t.z && t.y * t.x == t.z
  {
    assert Fits(vs, b, t, X) && Fits(vs, b, t, Y) && Fits(vs, b, t, Z);
  }

  // A solution's value of argument n is the product of p and q, as the rule for n considers.
  ghost predicate Factors(vs: Args, b: Boxes, n: Name, t: Values, p: real, q: real)
    requires Usable(vs, b, n)
  {
    First(vs, b, n).Has(p) && Between(q, Second(vs, b, n).0, Second(vs, b, n).1) && p * q == t.Get(n)
  }

  lemma FactorX(vs: Args, b: Boxes, t: Values) returns (p: real, q: real)
    requires Usable(vs, b, X) && b[vs.y].Has(t.y) && b[vs.z].Has(t.z) && t.x * t.y == t.z
    ensures Factors(vs, b, X, t, p, q)
  {
    q := Cofactor(b[vs.y], t.x, t.y, t.z);
    p := t.z;
  }

  lemma FactorY(vs: Args, b: Boxes, t: Values) returns (p: real, q: real)
    requires Usable(vs, b, Y) && b[vs.x].Has(t.x) && b[vs.z].Has(t.z) && t.x * t.y == t.z
    ensures Factors(vs, b, Y, t, p, q)
  {
    q := Cofactor(b[vs.x], t.y, t.x, t.z);
    p := t.z;
  }

  lemma FactorZ(vs: Args, b: Boxes, t: Values) returns (p: real, q: real)
    requires Usable(vs, b, Z) && b[vs.x].Has(t.x) && b[vs.y].Has(t.y) && t.x * t.y == t.z
    ensures Factors(vs, b, Z, t, p, q)
  {
    p, q := t.x, t.y;
  }

  lemma ProductBound(vs: Args, b: Boxes, n: Name, t: Values, p: real, q: real)
    requires Usable(vs, b, n) && Factors(vs, b, n, t, p, q)
    ensures ProductLow(vs, b, n) <= t.Get(n) <= ProductHigh(vs, b, n)
  {
    CornersBound(First(vs, b, n).l, First(vs, b, n).u, Second(vs, b, n).0, Second(vs, b, n).1, p, q);
  }

  lemma ProductBounds(vs: Args, b: Boxes, n: Name)
    requires Usable(vs, b, n)
    ensures forall t :: t in Solutions(Product, vs, b) ==> ProductLow(vs, b, n) <= t.Get(n) <= ProductHigh(vs, b, n)
  {
    forall t | t in Solutions(Product, vs, b) ensures ProductLow(vs, b, n) <= t.Get(n) <= ProductHigh(vs, b, n) {
      ValuesOf(vs, b, t);
      var p, q;
      match n {
        case X => p, q := FactorX(vs, b, t);
        case Y => p, q := FactorY(vs, b, t);
        case Z => p, q := FactorZ(vs, b, t);
      }
      ProductBound(vs, b, n, t, p, q);
    }
  }

  lemma CornersInside(pl: real, pu: real, ql: real, qu: real, pl': real, pu': real, ql': real, qu': real)
    requires pl <= pl' <= pu' <= pu && Between(ql', ql, qu) && Between(qu', ql, qu)
    ensures CornerMin(pl, pu, ql, qu) <= CornerMin(pl', pu', ql', qu')
      && CornerMax(pl', pu', ql', qu') <= CornerMax(pl, pu, ql, qu)
  {
    CornersBound(pl, pu, ql, qu, pl', ql');
    CornersBound(pl, pu, ql, qu, pl', qu');
    CornersBound(pl, pu, ql, qu, pu', ql');
    CornersBound(pl, pu, ql, qu, pu', qu');
  }

  lemma ProductGrows(vs: Args, b: Boxes, s: Boxes, n: Name)
    requires Inside(vs, b, s) && Usable(vs, s, n)
    ensures Usable(vs, b, n) && ProductLow(vs, s, n) <= ProductLow(vs, b, n)
      && ProductHigh(vs, b, n) <= ProductHigh(vs, s, n)
  {
    assert vs.Get(X) == vs.x && vs.Get(Y) == vs.y && vs.Get(Z) == vs.z;
    var p, q := First(vs, s, n), Second(vs, s, n);
    if n != Z {
      var d := if n == X then vs.y else vs.x;
      ReciprocalBetween(b[d].l, s[d]);
      ReciprocalBetween(b[d].u, s[d]);
    }
    var p', q' := First(vs, b, n), Second(vs, b, n);
    CornersInside(p.l, p.u, q.0, q.1, p'.l, p'.u, q'.0, q'.1);
  }

  // In b, the bounds of argument n are as tight as the rules usable with the boxes s ask for.
  ghost predicate LowTimes(vs: Args, b: Boxes, s: Boxes, n: Name) {
    Over(b, vs) && (Usable(vs, s, n) ==> b[vs.Get(n)].l >= ProductLow(vs, s, n))
  }

  ghost predicate HighTimes(vs: Args, b: Boxes, s: Boxes, n: Name) {
    Over(b, vs) && (Usable(vs, s, n) ==> b[vs.Get(n)].u <= ProductHigh(vs, s, n))
  }

  lemma PutInside(vs: Args, b: Boxes, start: Boxes, ws: Values, redo: bool, ws': Values, redo': bool, precision: real,
                  v: RI, c: Box)
    requires During(vs, b, start, ws, redo, precision) && v in b && c.Within(b[v])
      && During(vs, b[v := c], start, ws', redo', precision)
    ensures Inside(vs, b[v := c], b)
  {
    DuringInside(vs, b[v := c], start, ws', redo', precision);
  }

  lemma TightKept(vs: Args, b: Boxes, b': Boxes, s: Boxes)
    requires Inside(vs, b', b)
    ensures forall m {:trigger LowTimes(vs, b', s, m)} :: LowTimes(vs, b, s, m) ==> LowTimes(vs, b', s, m)
    ensures forall m {:trigger HighTimes(vs, b', s, m)} :: HighTimes(vs, b, s, m) ==> HighTimes(vs, b', s, m)
  {
  }

  lemma UsableKept(vs: Args, b: Boxes, b': Boxes, n: Name)
    requires Inside(vs, b', b) && Usable(vs, b, n)
    ensures Usable(vs, b', n)
  {
    assert vs.Get(X) == vs.x && vs.Get(Y) == vs.y;
  }

  // Both bounds of argument n, if the rules may be used.
  ghost function ProductNarrowed(s: Pass, vs: Args, n: Name, precision: real): (t: Pass)
    requires Over(s.b, vs)
    ensures Over(t.b, vs)
  {
    if !s.ok || !Usable(vs, s.b, n) then s
    else
      var r := Raised(s, vs, n, ProductLow(vs, s.b, n), precision);
      if !r.ok || !Usable(vs, r.b, n) then r
      else Lowered(r, vs, n, ProductHigh(vs, r.b, n), precision)
  }

  // The rules for x * y = z, one after the other.
  ghost function ProductPassed(vs: Args, b: Boxes, ws: Values, precision: real): (t: Pass)
    requires Over(b, vs)
    ensures Over(t.b, vs)
  {
    var s := Pass(true, b, ws, false);
    ProductNarrowed(ProductNarrowed(ProductNarrowed(s, vs, Z, precision), vs, X, precision), vs, Y, precision)
  }

  // One rule: the lower bound of argument n.
  method RaiseProduct(n: Name, f: real, ws: Values, redo: bool, precision: real, vs: Args, ghost start: Boxes,
                      ghost ws0: Values) returns (ok: bool, ws': Values, redo': bool)
    requires precision > 0.0 && During(vs, BoxesOf(vs), start, ws, redo, precision)
      && Progress(ws0, ws, redo, precision)
    requires Usable(vs, BoxesOf(vs), n) && f == ProductLow(vs, BoxesOf(vs), n)
    modifies vs.x, vs.y, vs.z
    ensures Solutions(Product, vs, BoxesOf(vs)) == Solutions(Product, vs, old(BoxesOf(vs)))
    ensures ok ==> During(vs, BoxesOf(vs), start, ws', redo', precision) && Progress(ws0, ws', redo', precision)
    ensures ok ==> LowTimes(vs, BoxesOf(vs), start, n) && Usable(vs, BoxesOf(vs), n)
    ensures At(vs, ok, ws', redo', Raised(Pass(true, old(BoxesOf(vs)), ws, redo), vs, n, f, precision))
    ensures ok ==> forall m {:trigger LowTimes(vs, BoxesOf(vs), start, m)} ::
      LowTimes(vs, old(BoxesOf(vs)), start, m) ==> LowTimes(vs, BoxesOf(vs), start, m)
    ensures ok ==> forall m {:trigger HighTimes(vs, BoxesOf(vs), start, m)} ::
      HighTimes(vs, old(BoxesOf(vs)), start, m) ==> HighTimes(vs, BoxesOf(vs), start, m)
    ensures !ok ==> Solutions(Product, vs, BoxesOf(vs)) == iset{}
  {
    ghost var b := BoxesOf(vs);
    ProductBounds(vs, b, n);
    DuringInside(vs, b, start, ws, redo, precision);
    if Usable(vs, start, n) { ProductGrows(vs, b, start, n); }
    ok, ws', redo' := Raise(Product, n, f, ws, redo, precision, vs, start, ws0);
    if ok {
      PutInside(vs, b, start, ws, redo, ws', redo', precision, vs.Get(n), BoxesOf(vs)[vs.Get(n)]);
      TightKept(vs, b, BoxesOf(vs), start);
      UsableKept(vs, b, BoxesOf(vs), n);
    }
  }

  // One rule: the upper bound of argument n.
  method LowerProduct(n: Name, f: real, ws: Values, redo: bool, precision: real, vs: Args, ghost start: Boxes,
                      ghost ws0: Values) returns (ok: bool, ws': Values, redo': bool)
    requires precision > 0.0 && During(vs, BoxesOf(vs), start, ws, redo, precision)
      && Progress(ws0, ws, redo, precision)
    requires Usable(vs, BoxesOf(vs), n) && f == ProductHigh(vs, BoxesOf(vs), n)
    modifies vs.x, vs.y, vs.z
    ensures Solutions(Product, vs, BoxesOf(vs)) == Solutions(Product, vs, old(BoxesOf(vs)))
    ensures ok ==> During(vs, BoxesOf(vs), start, ws', redo', precision) && Progress(ws0, ws', redo', precision)
    ensures ok ==> HighTimes(vs, BoxesOf(vs), start, n) && Usable(vs, BoxesOf(vs), n)
    ensures At(vs, ok, ws', redo', Lowered(Pass(true, old(BoxesOf(vs)), ws, redo), vs, n, f, precision))
    ensures ok ==> forall m {:trigger LowTimes(vs, BoxesOf(vs), start, m)} ::
      LowTimes(vs, old(BoxesOf(vs)), start, m) ==> LowTimes(vs, BoxesOf(vs), start, m)
    ensures ok ==> forall m {:trigger HighTimes(vs, BoxesOf(vs), start, m)} ::
      HighTimes(vs, old(BoxesOf(vs)), start, m) ==> HighTimes(vs, BoxesOf(vs), start, m)
    ensures !ok ==> Solutions(Product, vs, BoxesOf(vs)) == iset{}
  {
    ghost var b := BoxesOf(vs);
    ProductBounds(vs, b, n);
    DuringInside(vs, b, start, ws, redo, precision);
    if Usable(vs, start, n) { ProductGrows(vs, b, start, n); }
    ok, ws', redo' := Lower(Product, n, f, ws, redo, precision, vs, start, ws0);
    if ok {
      PutInside(vs, b, start, ws, redo, ws', redo', precision, vs.Get(n), BoxesOf(vs)[vs.Get(n)]);
      TightKept(vs, b, BoxesOf(vs), start);
      UsableKept(vs, b, BoxesOf(vs), n);
    }
  }

  // Without a zero in the divisor the rule may be used; otherwise there was a zero in it from the start.
  lemma UsableWhen(vs: Args, b: Boxes, start: Boxes, ws: Values, redo: bool, precision: real, n: Name)
    requires During(vs, b, start, ws, redo, precision) && n != Z
    ensures var d := b[if n == X then vs.y else vs.x];
      if d.l <= 0.0 <= d.u then !Usable(vs, start, n) else Usable(vs, b, n)
  {
    assert DuringAt(vs, b, start, ws, redo, precision, if n == X then Y else X);
  }

  // Both bounds of argument Z.
  method NarrowZ(ws: Values, redo: bool, precision: real, vs: Args, ghost start: Boxes, ghost ws0: Values)
    returns (ok: bool, ws': Values, redo': bool)
    requires precision > 0.0 && During(vs, BoxesOf(vs), start, ws, redo, precision)
      && Progress(ws0, ws, redo, precision)
    modifies vs.x, vs.y, vs.z
    ensures Solutions(Product, vs, BoxesOf(vs)) == Solutions(Product, vs, old(BoxesOf(vs)))
    ensures ok ==> During(vs, BoxesOf(vs), start, ws', redo', precision) && Progress(ws0, ws', redo', precision)
    ensures ok ==> LowTimes(vs, BoxesOf(vs), start, Z) && HighTimes(vs, BoxesOf(vs), start, Z)
    ensures At(vs, ok, ws', redo', ProductNarrowed(Pass(true, old(BoxesOf(vs)), ws, redo), vs, Z, precision))
    ensures ok ==> forall m {:trigger LowTimes(vs, BoxesOf(vs), start, m)} ::
      LowTimes(vs, old(BoxesOf(vs)), start, m) ==> LowTimes(vs, BoxesOf(vs), start, m)
    ensures ok ==> forall m {:trigger HighTimes(vs, BoxesOf(vs), start, m)} ::
      HighTimes(vs, old(BoxesOf(vs)), start, m) ==> HighTimes(vs, BoxesOf(vs), start, m)
    ensures !ok ==> Solutions(Product, vs, BoxesOf(vs)) == iset{}
  {
    ok, ws', redo' := RaiseProduct(Z, CornerMin(vs.x.l, vs.x.u, vs.y.l, vs.y.u), ws, redo, precision, vs, start, ws0);
    if !ok { return; }
    ok, ws', redo' := LowerProduct(Z, CornerMax(vs.x.l, vs.x.u, vs.y.l, vs.y.u), ws', redo', precision, vs, start, ws0);
  }

  // Both bounds of argument X, unless that would divide by an interval with a zero in it.
  method NarrowX(ws: Values, redo: bool, precision: real, vs: Args, ghost start: Boxes, ghost ws0: Values)
    returns (ok: bool, ws': Values, redo': bool)
    requires precision > 0.0 && During(vs, BoxesOf(vs), start, ws, redo, precision)
      && Progress(ws0, ws, redo, precision)
    modifies vs.x, vs.y, vs.z
    ensures Solutions(Product, vs, BoxesOf(vs)) == Solutions(Product, vs, old(BoxesOf(vs)))
    ensures ok ==> During(vs, BoxesOf(vs), start, ws', redo', precision) && Progress(ws0, ws', redo', precision)
    ensures ok ==> LowTimes(vs, BoxesOf(vs), start, X) && HighTimes(vs, BoxesOf(vs), start, X)
    ensures At(vs, ok, ws', redo', ProductNarrowed(Pass(true, old(BoxesOf(vs)), ws, redo), vs, X, precision))
    ensures ok ==> forall m {:trigger LowTimes(vs, BoxesOf(vs), start, m)} ::
      LowTimes(vs, old(BoxesOf(vs)), start, m) ==> LowTimes(vs, BoxesOf(vs), start, m)
    ensures ok ==> forall m {:trigger HighTimes(vs, BoxesOf(vs), start, m)} ::
      HighTimes(vs, old(BoxesOf(vs)), start, m) ==> HighTimes(vs, BoxesOf(vs), start, m)
    ensures !ok ==> Solutions(Product, vs, BoxesOf(vs)) == iset{}
  {
    ok, ws', redo' := true, ws, redo;
    if vs.y.ContainsZero() {
      UsableWhen(vs, BoxesOf(vs), start, ws, redo, precision, X);
      return;
    }
    UsableWhen(vs, BoxesOf(vs), start, ws, redo, precision, X);
    ok, ws', redo' := RaiseProduct(X, CornerMin(vs.z.l, vs.z.u, 1.0 / vs.y.l, 1.0 / vs.y.u), ws, redo, precision, vs,
      start, ws0);
    if !ok { return; }
    ok, ws', redo' := LowerProduct(X, CornerMax(vs.z.l, vs.z.u, 1.0 / vs.y.l, 1.0 / vs.y.u), ws', redo', precision, vs,
      start, ws0);
  }

  // Both bounds of argument Y, unless that would divide by an interval with a zero in it.
  method NarrowY(ws: Values, redo: bool, precision: real, vs: Args, ghost start: Boxes, ghost ws0: Values)
    returns (ok: bool, ws': Values, redo': bool)
    requires precision > 0.0 && During(vs, BoxesOf(vs), start, ws, redo, precision)
      && Progress(ws0, ws, redo, precision)
    modifies vs.x, vs.y, vs.z
    ensures Solutions(Product, vs, BoxesOf(vs)) == Solutions(Product, vs, old(BoxesOf(vs)))
    ensures ok ==> During(vs, BoxesOf(vs), start, ws', redo', precision) && Progress(ws0, ws', redo', precision)
    ensures ok ==> LowTimes(vs, BoxesOf(vs), start, Y) && HighTimes(vs, BoxesOf(vs), start, Y)
    ensures At(vs, ok, ws', redo', ProductNarrowed(Pass(true, old(BoxesOf(vs)), ws, redo), vs, Y, precision))
    ensures ok ==> forall m {:trigger LowTimes(vs, BoxesOf(vs), start, m)} ::
      LowTimes(vs, old(BoxesOf(vs)), start, m) ==> LowTimes(vs, BoxesOf(vs), start, m)
    ensures ok ==> forall m {:trigger HighTimes(vs, BoxesOf(vs), start, m)} ::
      HighTimes(vs, old(BoxesOf(vs)), start, m) ==> HighTimes(vs, BoxesOf(vs), start, m)
    ensures !ok ==> Solutions(Product, vs, BoxesOf(vs)) == iset{}
  {
    ok, ws', redo' := true, ws, redo;
    if vs.x.ContainsZero() {
      UsableWhen(vs, BoxesOf(vs), start, ws, redo, precision, Y);
      return;
    }
    UsableWhen(vs, BoxesOf(vs), start, ws, redo, precision, Y);
    ok, ws', redo' := RaiseProduct(Y, CornerMin(vs.z.l, vs.z.u, 1.0 / vs.x.l, 1.0 / vs.x.u), ws, redo, precision, vs,
      start, ws0);
    if !ok { return; }
    ok, ws', redo' := LowerProduct(Y, CornerMax(vs.z.l, vs.z.u, 1.0 / vs.x.l, 1.0 / vs.x.u), ws', redo', precision, vs,
      start, ws0);
  }

  // One pass for x * y = z.
  method ProductPass(vs: Args, ws: Values, precision: real, ghost start: Boxes)
    returns (ok: bool, ws': Values, redo: bool)
    requires precision > 0.0 && During(vs, BoxesOf(vs), start, ws, false, precision)
    modifies vs.x, vs.y, vs.z
    ensures Solutions(Product, vs, BoxesOf(vs)) == Solutions(Product, vs, old(BoxesOf(vs)))
    ensures !ok ==> Solutions(Product, vs, BoxesOf(vs)) == iset{}
    ensures ok ==>
      && During(vs, BoxesOf(vs), start, ws', redo, precision) && Progress(ws, ws', redo, precision)
      && forall n :: LowTimes(vs, BoxesOf(vs), start, n) && HighTimes(vs, BoxesOf(vs), start, n)
    ensures At(vs, ok, ws', redo, ProductPassed(vs, old(BoxesOf(vs)), ws, precision))
  {
    ok, ws', redo := NarrowZ(ws, false, precision, vs, start, ws);
    if !ok { return; }
    ok, ws', redo := NarrowX(ws', redo, precision, vs, start, ws);
    if !ok { return; }
    ok, ws', redo := NarrowY(ws', redo, precision, vs, start, ws);
    if !ok { return; }
    forall n ensures LowTimes(vs, BoxesOf(vs), start, n) && HighTimes(vs, BoxesOf(vs), start, n) {
      assert n == X || n == Y || n == Z;
    }
  }

  // No bound can be tightened by much: the rules usable with boxes wider by the precision ask for no more.
  ghost predicate SettledProduct(vs: Args, b: Boxes, precision: real) {
    forall n :: LowTimes(vs, b, Widen(b, precision), n) && HighTimes(vs, b, Widen(b, precision), n)
  }

  lemma LastProductPass(vs: Args, b: Boxes, start: Boxes, ws: Values, precision: real)
    requires During(vs, b, start, ws, false, precision) && precision > 0.0
    requires forall n :: LowTimes(vs, b, start, n) && HighTimes(vs, b, start, n)
    ensures SettledProduct(vs, b, precision)
  {
    var w := Widen(b, precision);
    forall m ensures start[vs.Get(m)].l <= start[vs.Get(m)].u && start[vs.Get(m)].Within(w[vs.Get(m)]) {
      assert DuringAt(vs, b, start, ws, false, precision, m);
    }
    assert Inside(vs, start, w);
    forall n ensures LowTimes(vs, b, w, n) && HighTimes(vs, b, w, n) {
      assert LowTimes(vs, b, start, n) && HighTimes(vs, b, start, n);
      if Usable(vs, w, n) { ProductGrows(vs, start, w, n); }
    }
  }

  // ---------------------------------------------------------------- the bounds of a product are attained

  lemma Cancel(a: real, b: real, c: real)
    requires c * a <= c * b && c != 0.0
    ensures if c > 0.0 then a <= b else b <= a
  {
    if a < b {
      ScaleStrictly(a, b, c);
    } else if b < a {
      ScaleStrictly(b, a, c);
    }
  }

  lemma ScaleStrictly(a: real, b: real, c: real)
    requires a < b && c != 0.0
    ensures if c > 0.0 then c * a < c * b else c * b < c * a
  {
    assert c * b - c * a == c * (b - a);
  }

  // Along an edge a product takes every value in between.
  lemma Edge(v: real, c: real, a: real, b: real) returns (x: real)
    requires Between(v, c * a, c * b)
    ensures Between(x, a, b) && c * x == v
  {
    if c == 0.0 { return a; }
    x := v / c;
    assert c * x == v;
    if c * a <= v <= c * b {
      Cancel(a, x, c);
      Cancel(x, b, c);
    } else {
      Cancel(b, x, c);
      Cancel(x, a, c);
    }
  }

  lemma FourAround(v: real, a: real, b: real, c: real, d: real)
    requires Min4(a, b, d, c) <= v <= Max4(a, b, d, c)
    ensures Between(v, a, b) || Between(v, b, c) || Between(v, c, d) || Between(v, d, a)
  {
  }

  // Every value between the least and the greatest product of the corners is a product.
  lemma CornersReach(pl: real, pu: real, ql: real, qu: real, v: real) returns (p: real, q: real)
    requires pl <= pu && CornerMin(pl, pu, ql, qu) <= v <= CornerMax(pl, pu, ql, qu)
    ensures pl <= p <= pu && Between(q, ql, qu) && p * q == v
  {
    FourAround(v, pl * ql, pl * qu, pu * qu, pu * ql);
    if Between(v, pl * ql, pl * qu) {
      q := Edge(v, pl, ql, qu);
      p := pl;
    } else if Between(v, pu * qu, pu * ql) {
      q := Edge(v, pu, qu, ql);
      p := pu;
    } else if Between(v, pl * qu, pu * qu) {
      p := Edge(v, qu, pl, pu);
      q := qu;
    } else {
      p := Edge(v, ql, pl, pu);
      q := ql;
    }
  }

  // A value between the reciprocals of the ends is the reciprocal of a value of the box.
  lemma Inverse(r: real, d: Box) returns (q: real)
    requires NoZero(d) && Between(r, 1.0 / d.l, 1.0 / d.u)
    ensures d.Has(q) && r * q == 1.0
  {
    Reciprocals(d.l, d.u);
    ReciprocalSign(d.l);
    ReciprocalSign(d.u);
    Reciprocals(1.0 / d.u, r);
    Reciprocals(r, 1.0 / d.l);
    q := 1.0 / r;
  }

  lemma ReciprocalSign(d: real)
    requires d != 0.0
    ensures (1.0 / d > 0.0 <==> d > 0.0) && 1.0 / d != 0.0 && 1.0 / (1.0 / d) == d
  {
    var r := 1.0 / d;
    assert r * d == 1.0;
    if d > 0.0 && r <= 0.0 { ScaleUp(r, 0.0, d); }
    if d < 0.0 && r >= 0.0 { ScaleUp(0.0, r, d); }
    var s := 1.0 / r;
    assert s * r == 1.0;
    assert d == d * (s * r) == s * (r * d);
  }

  // Each value between the bounds of a usable rule is allowed.
  lemma ProductReaches(vs: Args, b: Boxes, n: Name, v: real)
    requires Usable(vs, b, n) && (forall m :: b[vs.Get(m)].l <= b[vs.Get(m)].u)
    requires ProductLow(vs, b, n) <= v <= ProductHigh(vs, b, n)
    ensures Allowed(Product, vs, b, 0.0, n, v)
  {
    var f, g := First(vs, b, n), Second(vs, b, n);
    assert b[vs.Get(X)] == b[vs.x] && b[vs.Get(Y)] == b[vs.y] && b[vs.Get(Z)] == b[vs.z];
    assert f.l <= f.u;
    var p, q := CornersReach(f.l, f.u, g.0, g.1, v);
    var t;
    match n {
      case X => var d := Inverse(q, b[vs.y]); Unquotient(v, p, q, d); t := Three(v, d, p);
      case Y => var d := Inverse(q, b[vs.x]); Unquotient(v, p, q, d); t := Three(d, v, p);
      case Z => t := Three(p, q, v);
    }
    assert Supports(Product, vs, b, 0.0, n, t);
  }

  lemma Unquotient(v: real, p: real, q: real, d: real)
    requires p * q == v && q * d == 1.0
    ensures v * d == p && d * v == p
  {
    assert v * d == p * (q * d);
  }

  // An allowed value lies between the bounds.
  lemma AllowedBetween(vs: Args, b: Boxes, n: Name, v: real)
    requires Usable(vs, b, n) && Allowed(Product, vs, b, 0.0, n, v)
    ensures ProductLow(vs, b, n) <= v <= ProductHigh(vs, b, n)
  {
    var t :| Supports(Product, vs, b, 0.0, n, t) && t.Get(n) == v;
    var p, q := Factored(vs, b, n, t);
    ProductBound(vs, b, n, t, p, q);
  }

  lemma Factored(vs: Args, b: Boxes, n: Name, t: Values) returns (p: real, q: real)
    requires Usable(vs, b, n) && Supports(Product, vs, b, 0.0, n, t)
    ensures Factors(vs, b, n, t, p, q)
  {
    assert t.Get(X) == t.x && t.Get(Y) == t.y && t.Get(Z) == t.z;
    match n {
      case X => p, q := FactorX(vs, b, t);
      case Y => p, q := FactorY(vs, b, t);
      case Z => p, q := FactorZ(vs, b, t);
    }
  }

  // The rules of a product that may be used are exact: they leave precisely the values that the other two boxes allow.
  lemma ProductExact(vs: Args, b: Boxes, n: Name, v: real)
    requires Usable(vs, b, n) && forall m :: b[vs.Get(m)].l <= b[vs.Get(m)].u
    ensures ProductLow(vs, b, n) <= v <= ProductHigh(vs, b, n) <==> Allowed(Product, vs, b, 0.0, n, v)
  {
    if Allowed(Product, vs, b, 0.0, n, v) { AllowedBetween(vs, b, n, v); }
    if ProductLow(vs, b, n) <= v <= ProductHigh(vs, b, n) { ProductReaches(vs, b, n, v); }
  }

  // The box, p wider on both sides, has no zero.
  ghost predicate ZeroFar(v: Box, p: real) { v.l - p > 0.0 || v.u + p < 0.0 }

  // Unless the divisor may come near zero, each value that is left to an argument is one that the other boxes, wider
  // by the precision, allow.
  ghost predicate ProductTight(vs: Args, b: Boxes, precision: real) {
    Over(b, vs) && forall n, v {:trigger b[vs.Get(n)].Has(v)} ::
      b[vs.Get(n)].Has(v) && (n == X ==> ZeroFar(b[vs.y], precision)) && (n == Y ==> ZeroFar(b[vs.x], precision)) ==>
      Allowed(Product, vs, b, precision, n, v)
  }

  lemma SettledProductTight(vs: Args, b: Boxes, precision: real)
    requires Over(b, vs) && precision > 0.0 && (forall m :: b[vs.Get(m)].l <= b[vs.Get(m)].u)
      && SettledProduct(vs, b, precision)
    ensures ProductTight(vs, b, precision)
  {
    var w := Widen(b, precision);
    forall n, v | b[vs.Get(n)].Has(v) && (n == X ==> ZeroFar(b[vs.y], precision))
        && (n == Y ==> ZeroFar(b[vs.x], precision))
      ensures Allowed(Product, vs, b, precision, n, v)
    {
      assert b[vs.Get(X)] == b[vs.x] && b[vs.Get(Y)] == b[vs.y];
      assert Usable(vs, w, n) && LowTimes(vs, b, w, n) && HighTimes(vs, b, w, n);
      ProductExact(vs, w, n, v);
      AllowedWidened(Product, vs, b, precision, n, v);
    }
  }
}

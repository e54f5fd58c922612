// The widths that x + y = z remembers when z is the same variable as x or y: with exact arithmetic they end near the
// real ones, with rounding they need not.
module SumWidths {
  import opened RealInterval
  import opened RealWidths

  // Arithmetic without rounding.
  ghost predicate Exact(rd: real -> real, ru: real -> real) {
    forall v {:trigger rd(v)} {:trigger ru(v)} :: rd(v) == v && ru(v) == v
  }

  // Rounding never raises a lower bound and never lowers an upper one.
  ghost predicate Outward(rd: real -> real, ru: real -> real) {
    (forall v {:trigger rd(v)} :: rd(v) <= v) && (forall v {:trigger ru(v)} :: v <= ru(v))
  }

  // The remembered width w after the real one has become v.
  ghost function Kept(w: real, v: real, precision: real): real { if v < w - precision then v else w }

  // What one rule does, in terms of the boxes and widths of the three arguments.
  lemma Rule(s: Pass, vs: Args, n: Name, c: Box, precision: real) returns (t: Pass)
    requires Over(s.b, vs) && precision > 0.0
    ensures t == Tightened(s, vs, n, c, precision) && Over(t.b, vs) && (t.ok ==> s.ok && c.l <= c.u)
    ensures t.ok ==>
      forall m {:trigger t.b[vs.Get(m)]} :: t.b[vs.Get(m)] == if vs.Get(m) == vs.Get(n) then c else s.b[vs.Get(m)]
    ensures t.ok ==> t.ws == s.ws.Set(n, Kept(s.ws.Get(n), c.u - c.l, precision))
    ensures t.ok && !s.redo ==> (t.redo <==> t.ws != s.ws)
    ensures t.ok && s.redo ==> t.redo
  {
    t := Tightened(s, vs, n, c, precision);
  }

  // The two rules for argument n, which give it the box c.
  lemma LowRule(s: Pass, vs: Args, n: Name, rd: real -> real, precision: real, c: Box) returns (t: Pass)
    requires Over(s.b, vs) && precision > 0.0
    requires c == Box(Max(s.b[vs.Get(n)].l, rd(LowerBound(vs, s.b, n))), s.b[vs.Get(n)].u)
    ensures t == SumRaised(s, vs, n, rd, precision) && Over(t.b, vs) && (t.ok ==> s.ok && c.l <= c.u)
    ensures t.ok ==>
      forall m {:trigger t.b[vs.Get(m)]} :: t.b[vs.Get(m)] == if vs.Get(m) == vs.Get(n) then c else s.b[vs.Get(m)]
    ensures t.ok ==> t.ws == s.ws.Set(n, Kept(s.ws.Get(n), c.u - c.l, precision))
    ensures t.ok ==> (t.redo <==> s.redo || t.ws != s.ws)
    ensures s.ok && c.l <= c.u ==> t.ok
  {
    t := Rule(s, vs, n, c, precision);
  }

  lemma HighRule(s: Pass, vs: Args, n: Name, ru: real -> real, precision: real, c: Box) returns (t: Pass)
    requires Over(s.b, vs) && precision > 0.0
    requires c == Box(s.b[vs.Get(n)].l, Min(s.b[vs.Get(n)].u, ru(UpperBound(vs, s.b, n))))
    ensures t == SumLowered(s, vs, n, ru, precision) && Over(t.b, vs) && (t.ok ==> s.ok && c.l <= c.u)
    ensures t.ok ==>
      forall m {:trigger t.b[vs.Get(m)]} :: t.b[vs.Get(m)] == if vs.Get(m) == vs.Get(n) then c else s.b[vs.Get(m)]
    ensures t.ok ==> t.ws == s.ws.Set(n, Kept(s.ws.Get(n), c.u - c.l, precision))
    ensures t.ok ==> (t.redo <==> s.redo || t.ws != s.ws)
    ensures s.ok && c.l <= c.u ==> t.ok
  {
    t := Rule(s, vs, n, c, precision);
  }

  // ---------------------------------------------------------------- one pass

  // What a pass comes to when z is x and all values of y are positive.
  lemma PassFirst(vs: Args, b: Boxes, ws: Values, precision: real, rd: real -> real, ru: real -> real, l: real, u: real,
                  a: real, c: real, l1: real, u1: real, c1: real) returns (t: Pass)
    requires Over(b, vs) && precision > 0.0 && Outward(rd, ru) && vs.x == vs.z != vs.y
    requires b[vs.z] == Box(l, u) && b[vs.y] == Box(a, c) && l <= u && 0.0 < a <= c && ws.y <= c - a + precision
    requires l1 == Max(l, rd(l + a)) && u1 == Min(u, ru(u - a)) && c1 == Min(c, ru(u1 - l1))
    ensures t == SumPassed(vs, b, ws, precision, rd, ru) && (t.ok <==> l1 <= u1 && a <= c1)
    ensures t.ok ==>
      && Over(t.b, vs) && t.b[vs.z] == Box(l1, u1) && t.b[vs.y] == Box(a, c1)
      && t.ws.z == Kept(ws.z, u - l1, precision) && t.ws.y == Kept(ws.y, c1 - a, precision)
      && t.ws.x == Kept(Kept(ws.x, u - l1, precision), u1 - l1, precision) && (t.redo <==> t.ws != ws)
  {
    var s0 := Pass(true, b, ws, false);
    var s1 := LowRule(s0, vs, Z, rd, precision, Box(l1, u));
    if l1 <= u {
      var s2 := LowRule(s1, vs, X, rd, precision, Box(l1, u));
      var s3 := LowRule(s2, vs, Y, rd, precision, Box(a, c));
      var s4 := HighRule(s3, vs, Z, ru, precision, Box(l1, u));
      var s5 := HighRule(s4, vs, X, ru, precision, Box(l1, u1));
      if l1 <= u1 { t := HighRule(s5, vs, Y, ru, precision, Box(a, c1)); }
    }
    t := SumPassed(vs, b, ws, precision, rd, ru);
  }

  // What a pass comes to when z is y and all values of x are positive.
  lemma PassSecond(vs: Args, b: Boxes, ws: Values, precision: real, rd: real -> real, ru: real -> real, l: real,
                   u: real, a: real, c: real, l1: real, u1: real, c1: real) returns (t: Pass)
    requires Over(b, vs) && precision > 0.0 && Outward(rd, ru) && vs.y == vs.z != vs.x
    requires b[vs.z] == Box(l, u) && b[vs.x] == Box(a, c) && l <= u && 0.0 < a <= c && ws.x <= c - a + precision
    requires l1 == Max(l, rd(a + l)) && c1 == Min(c, ru(u - l1)) && u1 == Min(u, ru(u - a))
    ensures t == SumPassed(vs, b, ws, precision, rd, ru) && (t.ok <==> l1 <= u1 && a <= c1)
    ensures t.ok ==>
      && Over(t.b, vs) && t.b[vs.z] == Box(l1, u1) && t.b[vs.x] == Box(a, c1)
      && t.ws.z == Kept(ws.z, u - l1, precision) && t.ws.x == Kept(ws.x, c1 - a, precision)
      && t.ws.y == Kept(Kept(ws.y, u - l1, precision), u1 - l1, precision) && (t.redo <==> t.ws != ws)
  {
    var s0 := Pass(true, b, ws, false);
    var s1 := LowRule(s0, vs, Z, rd, precision, Box(l1, u));
    if l1 <= u {
      var s2 := LowRule(s1, vs, X, rd, precision, Box(a, c));
      var s3 := LowRule(s2, vs, Y, rd, precision, Box(l1, u));
      var s4 := HighRule(s3, vs, Z, ru, precision, Box(l1, u));
      var s5 := HighRule(s4, vs, X, ru, precision, Box(a, c1));
      if a <= c1 { t := HighRule(s5, vs, Y, ru, precision, Box(l1, u1)); }
    }
    t := SumPassed(vs, b, ws, precision, rd, ru);
  }

  // What a pass comes to when all arguments are one variable with positive values.
  lemma PassThree(vs: Args, b: Boxes, ws: Values, precision: real, rd: real -> real, ru: real -> real, l: real, u: real,
                  l1: real, u1: real, u2: real) returns (t: Pass)
    requires Over(b, vs) && precision > 0.0 && Outward(rd, ru) && vs.x == vs.y == vs.z
    requires b[vs.z] == Box(l, u) && 0.0 < l <= u
    requires l1 == Max(l, rd(l + l)) && u1 == Min(u, ru(u - l1)) && u2 == Min(u1, ru(u1 - l1))
    ensures t == SumPassed(vs, b, ws, precision, rd, ru) && (t.ok <==> l1 <= u2)
    ensures t.ok ==>
      && Over(t.b, vs) && t.b[vs.z] == Box(l1, u2) && t.ws.z == Kept(ws.z, u - l1, precision)
      && t.ws.x == Kept(Kept(ws.x, u - l1, precision), u1 - l1, precision)
      && t.ws.y == Kept(Kept(ws.y, u - l1, precision), u2 - l1, precision) && (t.redo <==> t.ws != ws)
  {
    var s0 := Pass(true, b, ws, false);
    var s1 := LowRule(s0, vs, Z, rd, precision, Box(l1, u));
    if l1 <= u {
      var s2 := LowRule(s1, vs, X, rd, precision, Box(l1, u));
      var s3 := LowRule(s2, vs, Y, rd, precision, Box(l1, u));
      var s4 := HighRule(s3, vs, Z, ru, precision, Box(l1, u));
      var s5 := HighRule(s4, vs, X, ru, precision, Box(l1, u1));
      if l1 <= u1 { t := HighRule(s5, vs, Y, ru, precision, Box(l1, u2)); }
    }
    t := SumPassed(vs, b, ws, precision, rd, ru);
  }

  // The argument other than the one of x and y that is z.
  ghost function Third(n: Name): Name { if n == X then Y else X }

  // z is argument n and the third argument is another variable.
  ghost predicate Shares(vs: Args, n: Name) { n != Z && vs.Get(n) == vs.z && vs.Get(Third(n)) != vs.z }

  // The widths are near the real ones, and the values of the third argument are not all positive: the last rule of a
  // pass that changes z is followed by a look at each width of z.
  ghost predicate Flat(vs: Args, n: Name, b: Boxes, ws: Values, precision: real) {
    && Over(b, vs) && AllNear(vs, b, ws, precision) && b[vs.z].l <= b[vs.z].u
    && b[vs.Get(Third(n))].l <= b[vs.Get(Third(n))].u && b[vs.Get(Third(n))].l <= 0.0
  }

  lemma FlatFirst(vs: Args, b: Boxes, ws: Values, precision: real, rd: real -> real, ru: real -> real, l: real, u: real,
                  a: real, c: real, l1: real, u1: real, a1: real, c1: real) returns (t: Pass)
    requires Over(b, vs) && precision > 0.0 && Exact(rd, ru) && Shares(vs, X)
    requires b[vs.z] == Box(l, u) && b[vs.y] == Box(a, c) && l <= u && a <= c && a <= 0.0
    requires l1 == Max(l, l - c) && u1 == Min(u, u + c) && a1 == Max(a, l1 - u) && c1 == Min(c, u1 - l1)
    requires SumPassed(vs, b, ws, precision, rd, ru).ok && AllNear(vs, b, ws, precision)
    ensures t == SumPassed(vs, b, ws, precision, rd, ru) && Flat(vs, X, t.b, t.ws, precision)
  {
    var s0 := Pass(true, b, ws, false);
    var s1 := LowRule(s0, vs, Z, rd, precision, Box(l, u));
    var s2 := LowRule(s1, vs, X, rd, precision, Box(l1, u));
    var s3 := LowRule(s2, vs, Y, rd, precision, Box(a1, c));
    var s4 := HighRule(s3, vs, Z, ru, precision, Box(l1, u1));
    var s5 := HighRule(s4, vs, X, ru, precision, Box(l1, u1));
    t := HighRule(s5, vs, Y, ru, precision, Box(a1, c1));
  }

  lemma FlatSecond(vs: Args, b: Boxes, ws: Values, precision: real, rd: real -> real, ru: real -> real, l: real,
                   u: real, a: real, c: real, l1: real, u1: real, a1: real, c1: real) returns (t: Pass)
    requires Over(b, vs) && precision > 0.0 && Exact(rd, ru) && Shares(vs, Y)
    requires b[vs.z] == Box(l, u) && b[vs.x] == Box(a, c) && l <= u && a <= c && a <= 0.0
    requires l1 == Max(l, l - c) && u1 == Min(u, u + c) && a1 == Max(a, l - u) && c1 == Min(c, u1 - l1)
    requires SumPassed(vs, b, ws, precision, rd, ru).ok && AllNear(vs, b, ws, precision)
    ensures t == SumPassed(vs, b, ws, precision, rd, ru) && Flat(vs, Y, t.b, t.ws, precision)
  {
    var s0 := Pass(true, b, ws, false);
    var s1 := LowRule(s0, vs, Z, rd, precision, Box(l, u));
    var s2 := LowRule(s1, vs, X, rd, precision, Box(a1, c));
    var s3 := LowRule(s2, vs, Y, rd, precision, Box(l1, u));
    var s4 := HighRule(s3, vs, Z, ru, precision, Box(l1, u1));
    var s5 := HighRule(s4, vs, X, ru, precision, Box(a1, c1));
    t := HighRule(s5, vs, Y, ru, precision, Box(l1, u1));
  }

  // The same when there is only one variable.
  ghost predicate OneFlat(vs: Args, b: Boxes, ws: Values, precision: real) {
    Over(b, vs) && AllNear(vs, b, ws, precision) && b[vs.z].l <= b[vs.z].u && b[vs.z].l <= 0.0
  }

  lemma FlatThree(vs: Args, b: Boxes, ws: Values, precision: real, rd: real -> real, ru: real -> real, l: real, u: real)
    returns (t: Pass)
    requires Over(b, vs) && precision > 0.0 && Exact(rd, ru) && vs.x == vs.y == vs.z
    requires b[vs.z] == Box(l, u) && OneFlat(vs, b, ws, precision)
    requires SumPassed(vs, b, ws, precision, rd, ru).ok
    ensures t == SumPassed(vs, b, ws, precision, rd, ru) && OneFlat(vs, t.b, t.ws, precision)
  {
    var l' := Max(l, l - u);
    var l'' := Max(l', l' - u);
    var u' := Min(u, u + u);
    var s0 := Pass(true, b, ws, false);
    var s1 := LowRule(s0, vs, Z, rd, precision, Box(l, u));
    var s2 := LowRule(s1, vs, X, rd, precision, Box(l', u));
    var s3 := LowRule(s2, vs, Y, rd, precision, Box(l'', u));
    var s4 := HighRule(s3, vs, Z, ru, precision, Box(l'', u'));
    var s5 := HighRule(s4, vs, X, ru, precision, Box(l'', u'));
    t := HighRule(s5, vs, Y, ru, precision, Box(l'', u'));
  }

  // ---------------------------------------------------------------- z is x or y, the other values are positive

  // Box and width of the three arguments at the start of a pass: z is argument n, and the values of the third argument
  // are at least a.
  ghost predicate Starts(vs: Args, n: Name, b: Boxes, ws: Values, precision: real, l: real, u: real, a: real, c: real) {
    && Shares(vs, n) && Over(b, vs) && b[vs.z] == Box(l, u) && b[vs.Get(Third(n))] == Box(a, c)
    && l <= u && 0.0 < a <= c && ws.Get(Third(n)) <= c - a + precision && precision > 0.0
  }

  // The upper bound of the third argument after a pass, if the pass has lowered it.
  ghost function Cap(n: Name, w: real, a: real): real { if n == X then w else w + a }

  // What a pass that starts so ends with.
  ghost predicate Fallen(vs: Args, n: Name, t: Pass, ws: Values, precision: real, l: real, u: real, a: real, c: real) {
    var w := u - l - 2.0 * a;
    var c' := Min(c, Cap(n, w, a));
    && t.ok && Over(t.b, vs) && (t.redo <==> t.ws != ws)
    && t.b[vs.z] == Box(l + a, u - a) && t.b[vs.Get(Third(n))] == Box(a, c') && l + a <= u - a && a <= c'
    && t.ws.z == Kept(ws.z, w + a, precision)
    && t.ws.Get(n) == Kept(Kept(ws.Get(n), w + a, precision), w, precision)
    && t.ws.Get(Third(n)) == Kept(ws.Get(Third(n)), c' - a, precision)
  }

  lemma FirstFalls(vs: Args, b: Boxes, ws: Values, precision: real, rd: real -> real, ru: real -> real, l: real,
                   u: real, a: real, c: real)
    requires Starts(vs, X, b, ws, precision, l, u, a, c) && Exact(rd, ru)
    requires SumPassed(vs, b, ws, precision, rd, ru).ok
    ensures Fallen(vs, X, SumPassed(vs, b, ws, precision, rd, ru), ws, precision, l, u, a, c)
  {
    var t := PassFirst(vs, b, ws, precision, rd, ru, l, u, a, c, l + a, u - a, Min(c, u - l - 2.0 * a));
    FallenX(vs, t, ws, precision, l, u, a, c);
  }

  lemma FallenX(vs: Args, t: Pass, ws: Values, precision: real, l: real, u: real, a: real, c: real)
    requires vs.x == vs.z && t.ok && Over(t.b, vs) && (t.redo <==> t.ws != ws) && l + a <= u - a
    requires var c1 := Min(c, u - l - 2.0 * a);
      && a <= c1 && t.b[vs.z] == Box(l + a, u - a) && t.b[vs.y] == Box(a, c1)
      && t.ws.z == Kept(ws.z, u - l - a, precision)
      && t.ws.x == Kept(Kept(ws.x, u - l - a, precision), u - l - 2.0 * a, precision)
      && t.ws.y == Kept(ws.y, c1 - a, precision)
    ensures Fallen(vs, X, t, ws, precision, l, u, a, c)
  {
  }

  lemma SecondFalls(vs: Args, b: Boxes, ws: Values, precision: real, rd: real -> real, ru: real -> real, l: real,
                    u: real, a: real, c: real)
    requires Starts(vs, Y, b, ws, precision, l, u, a, c) && Exact(rd, ru)
    requires SumPassed(vs, b, ws, precision, rd, ru).ok
    ensures Fallen(vs, Y, SumPassed(vs, b, ws, precision, rd, ru), ws, precision, l, u, a, c)
  {
    var t := PassSecond(vs, b, ws, precision, rd, ru, l, u, a, c, l + a, u - a, Min(c, u - l - a));
    FallenY(vs, t, ws, precision, l, u, a, c);
  }

  lemma FallenY(vs: Args, t: Pass, ws: Values, precision: real, l: real, u: real, a: real, c: real)
    requires vs.y == vs.z && t.ok && Over(t.b, vs) && (t.redo <==> t.ws != ws) && l + a <= u - a
    requires var c1 := Min(c, u - l - a);
      && a <= c1 && t.b[vs.z] == Box(l + a, u - a) && t.b[vs.x] == Box(a, c1)
      && t.ws.z == Kept(ws.z, u - l - a, precision)
      && t.ws.y == Kept(Kept(ws.y, u - l - a, precision), u - l - 2.0 * a, precision)
      && t.ws.x == Kept(ws.x, c1 - a, precision)
    ensures Fallen(vs, Y, t, ws, precision, l, u, a, c)
  {
  }

  // By how much the remembered widths exceed the real ones after a pass that has lowered the third argument.
  ghost predicate Exceeds(vs: Args, n: Name, t: Pass, precision: real, l: real, u: real, a: real, z: real, x: real,
                          y: real)
  {
    && t.ok && Starts(vs, n, t.b, t.ws, precision, l, u, a, Cap(n, u - l, a))
    && t.ws.z == u - l + z && t.ws.Get(n) == u - l + x && t.ws.Get(Third(n)) == Cap(n, u - l, a) - a + y
  }

  // The excess after one more pass.
  ghost function Reset(v: real, precision: real): real { if v > precision then 0.0 else v }

  lemma NextExcess(vs: Args, n: Name, s: Pass, t: Pass, precision: real, l: real, u: real, a: real, z: real, x: real,
                   y: real)
    requires Exceeds(vs, n, s, precision, l, u, a, z, x, y) && 2.0 * a <= precision
    requires Fallen(vs, n, t, s.ws, precision, l, u, a, Cap(n, u - l, a))
    ensures Exceeds(vs, n, t, precision, l + a, u - a, a, Reset(z + a, precision) + a,
                    Reset(Reset(x + a, precision) + a, precision), Reset(y + 2.0 * a, precision))
    ensures t.redo <==> z + a > precision || x + a > precision || Reset(x + a, precision) + a > precision
                        || y + 2.0 * a > precision
  {
    Dropped(u - l + z, u - l - a, precision, z + a);
    Dropped(u - l + x, u - l - a, precision, x + a);
    Dropped(Kept(u - l + x, u - l - a, precision), u - l - 2.0 * a, precision, Reset(x + a, precision) + a);
    Dropped(s.ws.Get(Third(n)), Cap(n, u - l - 2.0 * a, a) - a, precision, y + 2.0 * a);
  }

  // A remembered width that exceeds the real width v by e.
  lemma Dropped(w: real, v: real, precision: real, e: real)
    requires w == v + e && precision > 0.0
    ensures Kept(w, v, precision) == v + Reset(e, precision) && (Kept(w, v, precision) != w <==> e > precision)
  {
  }

  // The excesses repeat after two passes: one of the three is always reset.
  ghost predicate Cycle(precision: real, a: real, even: bool, z: real, x: real, y: real) {
    && y == (if even then 0.0 else 2.0 * a)
    && if 3.0 * a > precision then (if even then z >= 2.0 * a else z == a) else x == (if even then 2.0 * a else 0.0)
  }

  lemma CycleNext(precision: real, a: real, even: bool, z: real, x: real, y: real)
    requires Cycle(precision, a, even, z, x, y) && 0.0 < 2.0 * a <= precision < 4.0 * a
    ensures Cycle(precision, a, !even, Reset(z + a, precision) + a, Reset(Reset(x + a, precision) + a, precision),
                  Reset(y + 2.0 * a, precision))
    ensures z + a > precision || x + a > precision || Reset(x + a, precision) + a > precision
            || y + 2.0 * a > precision
  {
  }

  // ---------------------------------------------------------------- runs

  // No pass of such a run fails, and all but the last make progress.
  lemma GoesOn(vs: Args, b: Boxes, precision: real, rd: real -> real, ru: real -> real, run: seq<Pass>, i: nat)
    requires Succeeds(Adding(rd, ru), vs, b, precision, run) && i < |run|
    ensures run[i].ok && Over(run[i].b, vs) && (run[i].redo <==> i + 1 < |run|)
  {
    assert PassAt(Adding(rd, ru), vs, b, WidthsIn(vs, b), precision, run, i);
    if i + 1 < |run| { assert PassAt(Adding(rd, ru), vs, b, WidthsIn(vs, b), precision, run, i + 1); }
  }

  // Pass i starts with these boxes and widths.
  ghost function StartBoxes(b: Boxes, run: seq<Pass>, i: nat): Boxes
    requires i <= |run|
  {
    if i == 0 then b else run[i - 1].b
  }

  ghost function StartWidths(vs: Args, b: Boxes, run: seq<Pass>, i: nat): Values
    requires i <= |run| && Over(b, vs)
  {
    if i == 0 then WidthsIn(vs, b) else run[i - 1].ws
  }

  lemma PassOf(vs: Args, b: Boxes, precision: real, rd: real -> real, ru: real -> real, run: seq<Pass>, i: nat)
    requires Succeeds(Adding(rd, ru), vs, b, precision, run) && i < |run|
    ensures Over(StartBoxes(b, run, i), vs) && run[i].ok
    ensures run[i] == SumPassed(vs, StartBoxes(b, run, i), StartWidths(vs, b, run, i), precision, rd, ru)
  {
    assert PassAt(Adding(rd, ru), vs, b, WidthsIn(vs, b), precision, run, i);
    GoesOn(vs, b, precision, rd, ru, run, i);
  }

  lemma FallenAt(vs: Args, n: Name, b: Boxes, precision: real, rd: real -> real, ru: real -> real, run: seq<Pass>,
                 i: nat, l: real, u: real, a: real, c: real)
    requires Succeeds(Adding(rd, ru), vs, b, precision, run) && Exact(rd, ru) && i < |run|
    requires Starts(vs, n, StartBoxes(b, run, i), StartWidths(vs, b, run, i), precision, l, u, a, c)
    ensures Fallen(vs, n, run[i], StartWidths(vs, b, run, i), precision, l, u, a, c)
  {
    PassOf(vs, b, precision, rd, ru, run, i);
    if n == X {
      FirstFalls(vs, StartBoxes(b, run, i), StartWidths(vs, b, run, i), precision, rd, ru, l, u, a, c);
    } else {
      SecondFalls(vs, StartBoxes(b, run, i), StartWidths(vs, b, run, i), precision, rd, ru, l, u, a, c);
    }
  }

  lemma FirstExcessAt(vs: Args, n: Name, b: Boxes, precision: real, rd: real -> real, ru: real -> real, run: seq<Pass>,
                      a: real)
    requires Succeeds(Adding(rd, ru), vs, b, precision, run) && Exact(rd, ru) && Shares(vs, n)
    requires b[vs.Get(Third(n))].l == a && 0.0 < 2.0 * a <= precision
    ensures var t, l, u := run[0], b[vs.z].l, b[vs.z].u;
      if t.redo then Exceeds(vs, n, t, precision, l + a, u - a, a, 2.0 * a, 2.0 * a, 0.0)
      else AllNear(vs, t.b, t.ws, precision)
  {
    var l, u, c := b[vs.z].l, b[vs.z].u, b[vs.Get(Third(n))].u;
    FallenAt(vs, n, b, precision, rd, ru, run, 0, l, u, a, c);
    FirstExcess(vs, n, b, run[0], precision, l, u, a, c);
  }

  lemma FirstExcess(vs: Args, n: Name, b: Boxes, t: Pass, precision: real, l: real, u: real, a: real, c: real)
    requires Over(b, vs) && Starts(vs, n, b, WidthsIn(vs, b), precision, l, u, a, c) && 2.0 * a <= precision
    requires Fallen(vs, n, t, WidthsIn(vs, b), precision, l, u, a, c)
    ensures if t.redo then Exceeds(vs, n, t, precision, l + a, u - a, a, 2.0 * a, 2.0 * a, 0.0)
            else AllNear(vs, t.b, t.ws, precision)
  {
    Dropped(u - l, u - l - a, precision, a);
    Dropped(u - l, u - l - 2.0 * a, precision, 2.0 * a);
    var c' := Min(c, Cap(n, u - l - 2.0 * a, a));
    Dropped(c - a, c' - a, precision, c - c');
  }

  lemma NextExcessAt(vs: Args, n: Name, b: Boxes, precision: real, rd: real -> real, ru: real -> real, run: seq<Pass>,
                     i: nat, l: real, u: real, a: real, z: real, x: real, y: real)
    requires Succeeds(Adding(rd, ru), vs, b, precision, run) && Exact(rd, ru) && i + 1 < |run|
    requires Exceeds(vs, n, run[i], precision, l, u, a, z, x, y) && 2.0 * a <= precision
    ensures Exceeds(vs, n, run[i + 1], precision, l + a, u - a, a, Reset(z + a, precision) + a,
                    Reset(Reset(x + a, precision) + a, precision), Reset(y + 2.0 * a, precision))
    ensures run[i + 1].redo <==> z + a > precision || x + a > precision || Reset(x + a, precision) + a > precision
                                 || y + 2.0 * a > precision
  {
    FallenAt(vs, n, b, precision, rd, ru, run, i + 1, l, u, a, Cap(n, u - l, a));
    NextExcess(vs, n, run[i], run[i + 1], precision, l, u, a, z, x, y);
  }

  // If the third argument raises z by between a quarter and a half of the precision and the first pass makes progress,
  // every pass does.
  lemma {:induction false} AlwaysRedone(vs: Args, n: Name, b: Boxes, precision: real, rd: real -> real,
                                        ru: real -> real, run: seq<Pass>, i: nat, a: real)
    returns (l: real, u: real, z: real, x: real, y: real)
    requires Succeeds(Adding(rd, ru), vs, b, precision, run) && Exact(rd, ru) && Shares(vs, n) && i < |run|
    requires b[vs.Get(Third(n))].l == a && 0.0 < 2.0 * a <= precision < 4.0 * a && run[0].redo
    ensures run[i].redo && Exceeds(vs, n, run[i], precision, l, u, a, z, x, y)
      && Cycle(precision, a, i % 2 == 0, z, x, y)
  {
    if i == 0 {
      FirstExcessAt(vs, n, b, precision, rd, ru, run, a);
      l, u, z, x, y := b[vs.z].l + a, b[vs.z].u - a, 2.0 * a, 2.0 * a, 0.0;
    } else {
      l, u, z, x, y := AlwaysRedone(vs, n, b, precision, rd, ru, run, i - 1, a);
      NextExcessAt(vs, n, b, precision, rd, ru, run, i - 1, l, u, a, z, x, y);
      CycleNext(precision, a, (i - 1) % 2 == 0, z, x, y);
      l, u, z, x, y := l + a, u - a, Reset(z + a, precision) + a,
                       Reset(Reset(x + a, precision) + a, precision), Reset(y + 2.0 * a, precision);
    }
  }

  // If the third argument raises z by more than half of the precision, every pass makes progress.
  lemma {:induction false} WideRedone(vs: Args, n: Name, b: Boxes, precision: real, rd: real -> real, ru: real -> real,
                                      run: seq<Pass>, i: nat, a: real) returns (l: real, u: real, c: real)
    requires Succeeds(Adding(rd, ru), vs, b, precision, run) && Exact(rd, ru) && Shares(vs, n) && i < |run|
    requires b[vs.Get(Third(n))].l == a && 0.0 < precision < 2.0 * a
    ensures run[i].redo && Starts(vs, n, run[i].b, run[i].ws, precision, l, u, a, c) && run[i].ws.Get(n) >= u - l
  {
    if i == 0 {
      l, u, c := b[vs.z].l, b[vs.z].u, b[vs.Get(Third(n))].u;
    } else {
      l, u, c := WideRedone(vs, n, b, precision, rd, ru, run, i - 1, a);
    }
    l, u, c := WideAt(vs, n, b, precision, rd, ru, run, i, l, u, a, c);
  }

  lemma WideAt(vs: Args, n: Name, b: Boxes, precision: real, rd: real -> real, ru: real -> real, run: seq<Pass>, i: nat,
               l: real, u: real, a: real, c: real) returns (l': real, u': real, c': real)
    requires Succeeds(Adding(rd, ru), vs, b, precision, run) && Exact(rd, ru) && i < |run| && 0.0 < precision < 2.0 * a
    requires Starts(vs, n, StartBoxes(b, run, i), StartWidths(vs, b, run, i), precision, l, u, a, c)
    requires StartWidths(vs, b, run, i).Get(n) >= u - l
    ensures run[i].redo && Starts(vs, n, run[i].b, run[i].ws, precision, l', u', a, c') && run[i].ws.Get(n) >= u' - l'
  {
    var ws := StartWidths(vs, b, run, i);
    FallenAt(vs, n, b, precision, rd, ru, run, i, l, u, a, c);
    var e := ws.Get(n) - (u - l);
    Dropped(ws.Get(n), u - l - a, precision, e + a);
    Dropped(Kept(ws.Get(n), u - l - a, precision), u - l - 2.0 * a, precision, Reset(e + a, precision) + a);
    l', u', c' := l + a, u - a, Min(c, Cap(n, u - l - 2.0 * a, a));
  }

  // The other values are not all positive.
  lemma {:induction false} FlatRun(vs: Args, n: Name, b: Boxes, precision: real, rd: real -> real, ru: real -> real,
                                   run: seq<Pass>, i: nat)
    requires Succeeds(Adding(rd, ru), vs, b, precision, run) && Exact(rd, ru) && Shares(vs, n) && i < |run|
    requires b[vs.Get(Third(n))].l <= 0.0
    ensures Flat(vs, n, run[i].b, run[i].ws, precision)
  {
    if i > 0 { FlatRun(vs, n, b, precision, rd, ru, run, i - 1); }
    FlatAt(vs, n, b, precision, rd, ru, run, i);
  }

  lemma FlatAt(vs: Args, n: Name, b: Boxes, precision: real, rd: real -> real, ru: real -> real, run: seq<Pass>, i: nat)
    requires Succeeds(Adding(rd, ru), vs, b, precision, run) && Exact(rd, ru) && Shares(vs, n) && i < |run|
    requires Flat(vs, n, StartBoxes(b, run, i), StartWidths(vs, b, run, i), precision)
    ensures Flat(vs, n, run[i].b, run[i].ws, precision)
  {
    var b', ws := StartBoxes(b, run, i), StartWidths(vs, b, run, i);
    PassOf(vs, b, precision, rd, ru, run, i);
    var v, w := b'[vs.z], b'[vs.Get(Third(n))];
    var l, u := Max(v.l, v.l - w.u), Min(v.u, v.u + w.u);
    if n == X {
      var t := FlatFirst(vs, b', ws, precision, rd, ru, v.l, v.u, w.l, w.u, l, u, Max(w.l, l - v.u), Min(w.u, u - l));
    } else {
      var t := FlatSecond(vs, b', ws, precision, rd, ru, v.l, v.u, w.l, w.u, l, u, Max(w.l, v.l - v.u),
                          Min(w.u, u - l));
    }
  }

  // Exact arithmetic, z is argument n and the third argument another variable.
  lemma SharedEndsNear(vs: Args, n: Name, b: Boxes, precision: real, rd: real -> real, ru: real -> real, run: seq<Pass>)
    requires Succeeds(Adding(rd, ru), vs, b, precision, run) && Exact(rd, ru) && Shares(vs, n)
    ensures EndsNear(vs, precision, run)
  {
    var k := |run| - 1;
    var a := b[vs.Get(Third(n))].l;
    GoesOn(vs, b, precision, rd, ru, run, k);
    if a <= 0.0 {
      FlatRun(vs, n, b, precision, rd, ru, run, k);
    } else if precision < 2.0 * a {
      var l, u, c := WideRedone(vs, n, b, precision, rd, ru, run, k, a);
    } else {
      SlowEndsNear(vs, n, b, precision, rd, ru, run, a);
    }
  }

  lemma SlowEndsNear(vs: Args, n: Name, b: Boxes, precision: real, rd: real -> real, ru: real -> real, run: seq<Pass>,
                     a: real)
    requires Succeeds(Adding(rd, ru), vs, b, precision, run) && Exact(rd, ru) && Shares(vs, n)
    requires b[vs.Get(Third(n))].l == a && 0.0 < 2.0 * a <= precision
    ensures EndsNear(vs, precision, run)
  {
    var k := |run| - 1;
    GoesOn(vs, b, precision, rd, ru, run, 0);
    GoesOn(vs, b, precision, rd, ru, run, k);
    FirstExcessAt(vs, n, b, precision, rd, ru, run, a);
    if k > 0 {
      if precision < 4.0 * a {
        var l, u, z, x, y := AlwaysRedone(vs, n, b, precision, rd, ru, run, k, a);
      } else {
        NextExcessAt(vs, n, b, precision, rd, ru, run, 0, b[vs.z].l + a, b[vs.z].u - a, a, 2.0 * a, 2.0 * a, 0.0);
        GoesOn(vs, b, precision, rd, ru, run, 1);
      }
    }
  }

  // ---------------------------------------------------------------- one variable

  lemma {:induction false} OneFlatRun(vs: Args, b: Boxes, precision: real, rd: real -> real, ru: real -> real,
                                      run: seq<Pass>, i: nat)
    requires Succeeds(Adding(rd, ru), vs, b, precision, run) && Exact(rd, ru) && vs.x == vs.y == vs.z && i < |run|
    requires b[vs.z].l <= 0.0
    ensures OneFlat(vs, run[i].b, run[i].ws, precision)
  {
    if i > 0 { OneFlatRun(vs, b, precision, rd, ru, run, i - 1); }
    PassOf(vs, b, precision, rd, ru, run, i);
    var b', ws := StartBoxes(b, run, i), StartWidths(vs, b, run, i);
    var t := FlatThree(vs, b', ws, precision, rd, ru, b'[vs.z].l, b'[vs.z].u);
  }

  // All values are positive, and the first pass narrows the box by more than the precision: so does every other pass.
  lemma {:induction false} OneRedone(vs: Args, b: Boxes, precision: real, rd: real -> real, ru: real -> real,
                                     run: seq<Pass>, i: nat) returns (l: real, u: real)
    requires Succeeds(Adding(rd, ru), vs, b, precision, run) && Exact(rd, ru) && vs.x == vs.y == vs.z && i < |run|
    requires 0.0 < precision < 5.0 * b[vs.z].l
    ensures run[i].redo && Over(run[i].b, vs) && run[i].b[vs.z] == Box(l, u) && l <= u && precision < 5.0 * l
      && run[i].ws.y >= u - l
  {
    if i == 0 {
      l, u := b[vs.z].l, b[vs.z].u;
    } else {
      l, u := OneRedone(vs, b, precision, rd, ru, run, i - 1);
    }
    l, u := OneAt(vs, b, precision, rd, ru, run, i, l, u);
  }

  lemma OneAt(vs: Args, b: Boxes, precision: real, rd: real -> real, ru: real -> real, run: seq<Pass>, i: nat, l: real,
              u: real) returns (l': real, u': real)
    requires Succeeds(Adding(rd, ru), vs, b, precision, run) && Exact(rd, ru) && vs.x == vs.y == vs.z && i < |run|
    requires var b' := StartBoxes(b, run, i); Over(b', vs) && b'[vs.z] == Box(l, u) && l <= u
    requires StartWidths(vs, b, run, i).y >= u - l && 0.0 < precision < 5.0 * l
    ensures run[i].redo && Over(run[i].b, vs) && run[i].b[vs.z] == Box(l', u') && l' <= u' && precision < 5.0 * l'
      && run[i].ws.y >= u' - l'
  {
    var ws := StartWidths(vs, b, run, i);
    PassOf(vs, b, precision, rd, ru, run, i);
    var t := PassThree(vs, StartBoxes(b, run, i), ws, precision, rd, ru, l, u, 2.0 * l, u - 2.0 * l, u - 4.0 * l);
    var e := ws.y - (u - l);
    Dropped(ws.y, u - 2.0 * l, precision, e + l);
    Dropped(Kept(ws.y, u - 2.0 * l, precision), u - 6.0 * l, precision, Reset(e + l, precision) + 4.0 * l);
    l', u' := 2.0 * l, u - 4.0 * l;
  }

  lemma OneFirst(vs: Args, b: Boxes, precision: real, rd: real -> real, ru: real -> real, run: seq<Pass>)
    requires Succeeds(Adding(rd, ru), vs, b, precision, run) && Exact(rd, ru) && vs.x == vs.y == vs.z
    requires 0.0 < 5.0 * b[vs.z].l <= precision
    ensures !run[0].redo && AllNear(vs, run[0].b, run[0].ws, precision)
  {
    var l, u := b[vs.z].l, b[vs.z].u;
    PassOf(vs, b, precision, rd, ru, run, 0);
    var t := PassThree(vs, StartBoxes(b, run, 0), StartWidths(vs, b, run, 0), precision, rd, ru, l, u, 2.0 * l,
                       u - 2.0 * l, u - 4.0 * l);
    Dropped(u - l, u - 2.0 * l, precision, l);
    Dropped(u - l, u - 4.0 * l, precision, 3.0 * l);
    Dropped(u - l, u - 6.0 * l, precision, 5.0 * l);
  }

  lemma OneEndsNear(vs: Args, b: Boxes, precision: real, rd: real -> real, ru: real -> real, run: seq<Pass>)
    requires Succeeds(Adding(rd, ru), vs, b, precision, run) && Exact(rd, ru) && vs.x == vs.y == vs.z
    ensures EndsNear(vs, precision, run)
  {
    var k := |run| - 1;
    GoesOn(vs, b, precision, rd, ru, run, 0);
    GoesOn(vs, b, precision, rd, ru, run, k);
    if b[vs.z].l <= 0.0 {
      OneFlatRun(vs, b, precision, rd, ru, run, k);
    } else if precision < 5.0 * b[vs.z].l {
      var l, u := OneRedone(vs, b, precision, rd, ru, run, k);
    } else {
      OneFirst(vs, b, precision, rd, ru, run);
    }
  }

  // With exact arithmetic the remembered widths of x + y = z end near the real ones, whichever arguments are one
  // variable.
  lemma ExactEndsNear(vs: Args, b: Boxes, precision: real, rd: real -> real, ru: real -> real, run: seq<Pass>)
    requires Succeeds(Adding(rd, ru), vs, b, precision, run) && Exact(rd, ru)
    ensures EndsNear(vs, precision, run)
  {
    if Apart(vs) {
      ApartEndsNear(Adding(rd, ru), vs, b, precision, run);
    } else if vs.x == vs.y == vs.z {
      OneEndsNear(vs, b, precision, rd, ru, run);
    } else {
      SharedEndsNear(vs, if vs.x == vs.z then X else Y, b, precision, rd, ru, run);
    }
  }

  // ---------------------------------------------------------------- rounding

  // The passes of `run`, all with progress, have led to boxes b' and widths ws'.
  ghost predicate Begun(vs: Args, b: Boxes, precision: real, rd: real -> real, ru: real -> real, run: seq<Pass>,
                        b': Boxes, ws': Values)
  {
    && Over(b, vs) && b[vs.x].l <= b[vs.x].u && b[vs.y].l <= b[vs.y].u && b[vs.z].l <= b[vs.z].u && precision > 0.0
    && Over(b', vs) && Passes(Adding(rd, ru), vs, b, WidthsIn(vs, b), precision, run)
    && LedTo(vs, b, WidthsIn(vs, b), run, b', ws')
  }

  // The passes of `run`, the last of which ends with t, which is progress or the end.
  ghost predicate Continued(vs: Args, b: Boxes, precision: real, rd: real -> real, ru: real -> real, run: seq<Pass>,
                            t: Pass)
  {
    && run != [] && run[|run| - 1] == t
    && if t.redo then Begun(vs, b, precision, rd, ru, run, t.b, t.ws)
       else Succeeds(Adding(rd, ru), vs, b, precision, run)
  }

  lemma OnePass(vs: Args, b: Boxes, precision: real, rd: real -> real, ru: real -> real, run: seq<Pass>, b': Boxes,
                ws': Values, t: Pass)
    requires Begun(vs, b, precision, rd, ru, run, b', ws')
    requires t == SumPassed(vs, b', ws', precision, rd, ru) && t.ok && Over(t.b, vs)
    ensures Continued(vs, b, precision, rd, ru, run + [t], t)
  {
    OneMorePass(Adding(rd, ru), vs, b, WidthsIn(vs, b), precision, run, b', ws');
    assert Passed(Adding(rd, ru), vs, b', ws', precision) == t;
  }

  lemma StepFirst(vs: Args, b: Boxes, precision: real, rd: real -> real, ru: real -> real, run: seq<Pass>, b': Boxes,
                  ws: Values, l: real, u: real, a: real, c: real, l1: real, u1: real, c1: real)
    returns (t: Pass, run': seq<Pass>)
    requires Begun(vs, b, precision, rd, ru, run, b', ws) && Outward(rd, ru) && vs.x == vs.z != vs.y
    requires b'[vs.z] == Box(l, u) && b'[vs.y] == Box(a, c) && l <= u && 0.0 < a <= c && ws.y <= c - a + precision
    requires l1 == Max(l, rd(l + a)) && u1 == Min(u, ru(u - a)) && c1 == Min(c, ru(u1 - l1)) && l1 <= u1 && a <= c1
    ensures Continued(vs, b, precision, rd, ru, run', t) && (t.redo <==> t.ws != ws)
    ensures Over(t.b, vs) && t.b[vs.z] == Box(l1, u1) && t.b[vs.y] == Box(a, c1)
    ensures t.ws.z == Kept(ws.z, u - l1, precision) && t.ws.y == Kept(ws.y, c1 - a, precision)
    ensures t.ws.x == Kept(Kept(ws.x, u - l1, precision), u1 - l1, precision)
  {
    t := PassFirst(vs, b', ws, precision, rd, ru, l, u, a, c, l1, u1, c1);
    run' := run + [t];
    OnePass(vs, b, precision, rd, ru, run, b', ws, t);
  }

  lemma StepSecond(vs: Args, b: Boxes, precision: real, rd: real -> real, ru: real -> real, run: seq<Pass>, b': Boxes,
                   ws: Values, l: real, u: real, a: real, c: real, l1: real, u1: real, c1: real)
    returns (t: Pass, run': seq<Pass>)
    requires Begun(vs, b, precision, rd, ru, run, b', ws) && Outward(rd, ru) && vs.y == vs.z != vs.x
    requires b'[vs.z] == Box(l, u) && b'[vs.x] == Box(a, c) && l <= u && 0.0 < a <= c && ws.x <= c - a + precision
    requires l1 == Max(l, rd(a + l)) && c1 == Min(c, ru(u - l1)) && u1 == Min(u, ru(u - a)) && l1 <= u1 && a <= c1
    ensures Continued(vs, b, precision, rd, ru, run', t) && (t.redo <==> t.ws != ws)
    ensures Over(t.b, vs) && t.b[vs.z] == Box(l1, u1) && t.b[vs.x] == Box(a, c1)
    ensures t.ws.z == Kept(ws.z, u - l1, precision) && t.ws.x == Kept(ws.x, c1 - a, precision)
    ensures t.ws.y == Kept(Kept(ws.y, u - l1, precision), u1 - l1, precision)
  {
    t := PassSecond(vs, b', ws, precision, rd, ru, l, u, a, c, l1, u1, c1);
    run' := run + [t];
    OnePass(vs, b, precision, rd, ru, run, b', ws, t);
  }

  lemma StepThree(vs: Args, b: Boxes, precision: real, rd: real -> real, ru: real -> real, run: seq<Pass>, b': Boxes,
                  ws: Values, l: real, u: real, l1: real, u1: real, u2: real)
    returns (t: Pass, run': seq<Pass>)
    requires Begun(vs, b, precision, rd, ru, run, b', ws) && Outward(rd, ru) && vs.x == vs.y == vs.z
    requires b'[vs.z] == Box(l, u) && 0.0 < l <= u
    requires l1 == Max(l, rd(l + l)) && u1 == Min(u, ru(u - l1)) && u2 == Min(u1, ru(u1 - l1)) && l1 <= u2
    ensures Continued(vs, b, precision, rd, ru, run', t) && (t.redo <==> t.ws != ws)
    ensures Over(t.b, vs) && t.b[vs.z] == Box(l1, u2) && t.ws.z == Kept(ws.z, u - l1, precision)
    ensures t.ws.x == Kept(Kept(ws.x, u - l1, precision), u1 - l1, precision)
    ensures t.ws.y == Kept(Kept(ws.y, u - l1, precision), u2 - l1, precision)
  {
    t := PassThree(vs, b', ws, precision, rd, ru, l, u, l1, u1, u2);
    run' := run + [t];
    OnePass(vs, b, precision, rd, ru, run, b', ws, t);
  }

  ghost function DownTo(k: real): real -> real { v => Min(v, k) }

  ghost function Same(): real -> real { v => v }

  // z is x in [0, 100] and y is in [9, 9]; lower bounds are rounded down to at most 19.
  lemma FirstEndsFar(vs: Args) returns (b: Boxes, run: seq<Pass>)
    requires vs.x == vs.z != vs.y
    ensures Succeeds(Adding(DownTo(19.0), Same()), vs, b, 10.0, run) && !EndsNear(vs, 10.0, run)
  {
    var rd, ru := DownTo(19.0), Same();
    b := map[vs.z := Box(0.0, 100.0), vs.y := Box(9.0, 9.0)];
    var ws := WidthsIn(vs, b);
    var t1, r1 := StepFirst(vs, b, 10.0, rd, ru, [], b, ws, 0.0, 100.0, 9.0, 9.0, 9.0, 91.0, 9.0);
    var t2, r2 := StepFirst(vs, b, 10.0, rd, ru, r1, t1.b, t1.ws, 9.0, 91.0, 9.0, 9.0, 18.0, 82.0, 9.0);
    var t3, r3 := StepFirst(vs, b, 10.0, rd, ru, r2, t2.b, t2.ws, 18.0, 82.0, 9.0, 9.0, 19.0, 73.0, 9.0);
    run := r3;
    assert !Near(vs, t3.b, t3.ws, 10.0, Z);
  }

  // z is y in [0, 70] and x is in [5, 5]; lower bounds are rounded down to at most 8.
  lemma SecondEndsFar(vs: Args) returns (b: Boxes, run: seq<Pass>)
    requires vs.y == vs.z != vs.x
    ensures Succeeds(Adding(DownTo(8.0), Same()), vs, b, 5.0, run) && !EndsNear(vs, 5.0, run)
  {
    var rd, ru := DownTo(8.0), Same();
    b := map[vs.z := Box(0.0, 70.0), vs.x := Box(5.0, 5.0)];
    var ws := WidthsIn(vs, b);
    var t1, r1 := StepSecond(vs, b, 5.0, rd, ru, [], b, ws, 0.0, 70.0, 5.0, 5.0, 5.0, 65.0, 5.0);
    var t2, r2 := StepSecond(vs, b, 5.0, rd, ru, r1, t1.b, t1.ws, 5.0, 65.0, 5.0, 5.0, 8.0, 60.0, 5.0);
    var t3, r3 := StepSecond(vs, b, 5.0, rd, ru, r2, t2.b, t2.ws, 8.0, 60.0, 5.0, 5.0, 8.0, 55.0, 5.0);
    run := r3;
    assert !Near(vs, t3.b, t3.ws, 5.0, Z);
  }

  ghost function DownOf(v: real): real {
    if v <= 10.0 then Min(v, 9.0) else if v <= 18.0 then Min(v, 13.0) else Min(v, 14.0)
  }

  ghost function UpOf(v: real): real {
    if v <= 20.0 then Max(v, 32.0) else if v <= 27.0 then Max(v, 34.0) else Max(v, 40.0)
  }

  ghost function Down(): real -> real { v => DownOf(v) }

  ghost function Up(): real -> real { v => UpOf(v) }

  // All arguments are one variable in [5, 51].
  lemma OneEndsFar(vs: Args) returns (b: Boxes, run: seq<Pass>)
    requires vs.x == vs.y == vs.z
    ensures Succeeds(Adding(Down(), Up()), vs, b, 8.0, run) && !EndsNear(vs, 8.0, run)
  {
    var rd, ru := Down(), Up();
    b := map[vs.z := Box(5.0, 51.0)];
    var ws := WidthsIn(vs, b);
    var t1, r1 := StepThree(vs, b, 8.0, rd, ru, [], b, ws, 5.0, 51.0, 9.0, 42.0, 40.0);
    var t2, r2 := StepThree(vs, b, 8.0, rd, ru, r1, t1.b, t1.ws, 9.0, 40.0, 13.0, 34.0, 34.0);
    var t3, r3 := StepThree(vs, b, 8.0, rd, ru, r2, t2.b, t2.ws, 13.0, 34.0, 14.0, 32.0, 32.0);
    run := r3;
    assert !Near(vs, t3.b, t3.ws, 8.0, Z);
  }

  lemma RoundsDown(k: real)
    ensures Rounding(DownTo(k), Same())
  {
  }

  lemma RoundsBoth()
    ensures Rounding(Down(), Up())
  {
    forall v, w | v <= w ensures Down()(v) <= Down()(w) && Up()(v) <= Up()(w) {
      assert DownOf(v) <= DownOf(w) && UpOf(v) <= UpOf(w);
    }
  }

  // The remembered widths of x + y = z end near the real ones for all boxes and all roundings if and only if z shares
  // no variable.
  lemma SumWidthsExact(vs: Args)
    ensures Apart(vs) <==>
      forall rd, ru, b, precision, run {:trigger Succeeds(Adding(rd, ru), vs, b, precision, run)} ::
        Rounding(rd, ru) && Succeeds(Adding(rd, ru), vs, b, precision, run) ==> EndsNear(vs, precision, run)
  {
    if Apart(vs) {
      forall rd, ru, b, precision, run | Succeeds(Adding(rd, ru), vs, b, precision, run)
        ensures EndsNear(vs, precision, run) {
        ApartEndsNear(Adding(rd, ru), vs, b, precision, run);
      }
    } else if vs.x == vs.y == vs.z {
      var b, run := OneEndsFar(vs);
      RoundsBoth();
    } else if vs.x == vs.z {
      var b, run := FirstEndsFar(vs);
      RoundsDown(19.0);
    } else {
      var b, run := SecondEndsFar(vs);
      RoundsDown(8.0);
    }
  }
}

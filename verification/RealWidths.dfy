// Runs of the propagators, pass by pass, and the widths they remember: how far a remembered width
// may be from the real one, also when two arguments are the same variable.
module RealWidths {
  import opened RealInterval

  // ---------------------------------------------------------------- runs

  datatype Rules = Adding(rd: real -> real, ru: real -> real) | Multiplying

  ghost function Passed(rules: Rules, vs: Args, b: Boxes, ws: Values, precision: real): (t: Pass)
    requires Over(b, vs)
    ensures Over(t.b, vs)
  {
    match rules
    case Adding(rd, ru) => SumPassed(vs, b, ws, precision, rd, ru)
    case Multiplying => ProductPassed(vs, b, ws, precision)
  }

  // run[i] is what pass i comes to; another pass follows a pass with recorded progress.
  ghost predicate PassAt(rules: Rules, vs: Args, b: Boxes, ws: Values, precision: real, run: seq<Pass>, i: nat) {
    && i < |run| && Over(b, vs) && (i > 0 ==> Over(run[i - 1].b, vs) && run[i - 1].ok && run[i - 1].redo)
    && run[i] == if i == 0 then Passed(rules, vs, b, ws, precision)
      else Passed(rules, vs, run[i - 1].b, run[i - 1].ws, precision)
  }

  ghost predicate Passes(rules: Rules, vs: Args, b: Boxes, ws: Values, precision: real, run: seq<Pass>) {
    forall i: nat {:trigger PassAt(rules, vs, b, ws, precision, run, i)} ::
      i < |run| ==> PassAt(rules, vs, b, ws, precision, run, i)
  }

  // A whole run: the last pass has failed or recorded no progress.
  ghost predicate IsRun(rules: Rules, vs: Args, b: Boxes, ws: Values, precision: real, run: seq<Pass>) {
    Passes(rules, vs, b, ws, precision, run) && |run| > 0 && !(run[|run| - 1].ok && run[|run| - 1].redo)
  }

  // Where the passes so far have led.
  ghost predicate LedTo(vs: Args, b: Boxes, ws: Values, run: seq<Pass>, b': Boxes, ws': Values) {
    if run == [] then b' == b && ws' == ws
    else var t := run[|run| - 1]; Over(t.b, vs) && t.ok && t.redo && t.b == b' && t.ws == ws'
  }

  lemma OneMorePass(rules: Rules, vs: Args, b: Boxes, ws: Values, precision: real, run: seq<Pass>, b': Boxes,
                    ws': Values)
    requires Over(b, vs) && Over(b', vs) && Passes(rules, vs, b, ws, precision, run) && LedTo(vs, b, ws, run, b', ws')
    ensures Passes(rules, vs, b, ws, precision, run + [Passed(rules, vs, b', ws', precision)])
  {
    var run' := run + [Passed(rules, vs, b', ws', precision)];
    forall i: nat | i < |run'| ensures PassAt(rules, vs, b, ws, precision, run', i) {
      if i < |run| { assert PassAt(rules, vs, b, ws, precision, run, i); }
    }
  }

  // ---------------------------------------------------------------- remembered widths close to real ones

  // The remembered width of argument n is at most the precision above the real one.
  ghost predicate Near(vs: Args, b: Boxes, ws: Values, precision: real, n: Name) {
    Over(b, vs) && ws.Get(n) <= b[vs.Get(n)].u - b[vs.Get(n)].l + precision
  }

  ghost predicate AllNear(vs: Args, b: Boxes, ws: Values, precision: real) {
    Near(vs, b, ws, precision, X) && Near(vs, b, ws, precision, Y) && Near(vs, b, ws, precision, Z)
  }

  // The result shares its variable with neither of the other two.
  predicate Apart(vs: Args) { vs.z != vs.x && vs.z != vs.y }

  // Unless the pass has failed: boxes are not empty, widths are near, and equal for equal arguments x and y.
  ghost predicate Close(vs: Args, s: Pass, precision: real) {
    s.ok ==>
      && AllNear(vs, s.b, s.ws, precision) && (vs.x == vs.y ==> s.ws.x == s.ws.y)
      && s.b[vs.x].l <= s.b[vs.x].u && s.b[vs.y].l <= s.b[vs.y].u && s.b[vs.z].l <= s.b[vs.z].u
  }

  // Tightening z, or an argument x or y that shares no variable.
  lemma TightenedClose(s: Pass, vs: Args, n: Name, c: Box, precision: real)
    requires Over(s.b, vs) && Close(vs, s, precision) && precision > 0.0 && Apart(vs) && (n == Z || vs.x != vs.y)
    ensures Close(vs, Tightened(s, vs, n, c, precision), precision)
  {
    assert vs.Get(X) == vs.x && vs.Get(Y) == vs.y && vs.Get(Z) == vs.z;
  }

  // Tightening x and then y, which are the same variable, to the same box.
  lemma TwiceClose(s: Pass, vs: Args, c: Box, precision: real)
    requires Over(s.b, vs) && Close(vs, s, precision) && precision > 0.0 && Apart(vs) && vs.x == vs.y
    ensures Close(vs, Tightened(Tightened(s, vs, X, c, precision), vs, Y, c, precision), precision)
  {
  }

  // ---------------------------------------------------------------- sums

  lemma SumRaisedClose(s: Pass, vs: Args, rd: real -> real, precision: real)
    requires Over(s.b, vs) && Close(vs, s, precision) && precision > 0.0 && Apart(vs)
    ensures Close(vs, AllRaised(s, vs, rd, precision), precision)
  {
    var r := SumRaised(s, vs, Z, rd, precision);
    var t := SumRaised(r, vs, X, rd, precision);
    TightenedClose(s, vs, Z, Box(Max(s.b[vs.z].l, rd(LowerBound(vs, s.b, Z))), s.b[vs.z].u), precision);
    var c := Box(Max(r.b[vs.x].l, rd(LowerBound(vs, r.b, X))), r.b[vs.x].u);
    if vs.x == vs.y {
      assert t == Tightened(r, vs, X, c, precision);
      assert t.ok ==> LowerBound(vs, t.b, Y) == LowerBound(vs, r.b, X);
      TwiceClose(r, vs, c, precision);
    } else {
      TightenedClose(r, vs, X, c, precision);
      TightenedClose(t, vs, Y, Box(Max(t.b[vs.y].l, rd(LowerBound(vs, t.b, Y))), t.b[vs.y].u), precision);
    }
  }

  lemma SumLoweredClose(s: Pass, vs: Args, ru: real -> real, precision: real)
    requires Over(s.b, vs) && Close(vs, s, precision) && precision > 0.0 && Apart(vs)
    ensures Close(vs, AllLowered(s, vs, ru, precision), precision)
  {
    var r := SumLowered(s, vs, Z, ru, precision);
    var t := SumLowered(r, vs, X, ru, precision);
    TightenedClose(s, vs, Z, Box(s.b[vs.z].l, Min(s.b[vs.z].u, ru(UpperBound(vs, s.b, Z)))), precision);
    var c := Box(r.b[vs.x].l, Min(r.b[vs.x].u, ru(UpperBound(vs, r.b, X))));
    if vs.x == vs.y {
      assert t == Tightened(r, vs, X, c, precision);
      assert t.ok ==> UpperBound(vs, t.b, Y) == UpperBound(vs, r.b, X);
      TwiceClose(r, vs, c, precision);
    } else {
      TightenedClose(r, vs, X, c, precision);
      TightenedClose(t, vs, Y, Box(t.b[vs.y].l, Min(t.b[vs.y].u, ru(UpperBound(vs, t.b, Y)))), precision);
    }
  }

  // ---------------------------------------------------------------- products

  lemma Positive(a: real, b: real)
    requires a > 0.0 && b > 0.0
    ensures a * b > 0.0
  {
  }

  lemma StrictScale(a: real, b: real, d: real)
    requires a < b && d != 0.0
    ensures if d > 0.0 then a * d < b * d else a * d > b * d
  {
    Positive(b - a, if d > 0.0 then d else -d);
    assert (b - a) * d == b * d - a * d && (b - a) * (-d) == a * d - b * d;
  }

  // Comparing a quotient: r is the reciprocal of d.
  lemma QuotientOrder(a: real, b: real, d: real, r: real)
    requires r * d == 1.0
    ensures if d > 0.0 then (a <= b * d <==> a * r <= b) && (a >= b * d <==> a * r >= b)
            else (a <= b * d <==> a * r >= b) && (a >= b * d <==> a * r <= b)
  {
    var q := a * r;
    assert q * d == a * (r * d);
    assert q * d == a;
    if q < b { StrictScale(q, b, d); } else if q > b { StrictScale(b, q, d); }
  }

  lemma SignRule(a: real, b: real)
    ensures (a > 0.0 && b > 0.0) || (a < 0.0 && b < 0.0) ==> a * b > 0.0
    ensures (a > 0.0 && b < 0.0) || (a < 0.0 && b > 0.0) ==> a * b < 0.0
    ensures a == 0.0 || b == 0.0 ==> a * b == 0.0
  {
    if a != 0.0 && b != 0.0 {
      var a', b' := if a > 0.0 then a else -a, if b > 0.0 then b else -b;
      Positive(a', b');
      assert a' * b' == a * b || a' * b' == -(a * b);
    }
  }

  lemma ReciprocalSign(d: real, r: real)
    requires r * d == 1.0
    ensures d != 0.0 && (d > 0.0 <==> r > 0.0)
  {
    SignRule(r, d);
  }

  // The corners when the bounds of x are not on different sides of zero; a and b are their reciprocals.
  lemma SignedCorners(l: real, u: real, zl: real, zu: real, a: real, b: real)
    requires l <= u && (l > 0.0 || u < 0.0) && 0.0 < zl <= zu && a * l == 1.0 && b * u == 1.0
    ensures CornerMin(zl, zu, a, b) == if l > 0.0 then zl * b else zu * b
    ensures CornerMax(zl, zu, a, b) == if l > 0.0 then zu * a else zl * a
  {
    ReciprocalSign(l, a);
    ReciprocalSign(u, b);
    Reversed(l, u, a, b);
    Grid(zl, zu, b, a);
  }

  // The products of the ends of two intervals, the first of them positive.
  lemma Grid(zl: real, zu: real, b: real, a: real)
    requires 0.0 < zl <= zu && b <= a
    ensures zl * b <= zl * a && zu * b <= zu * a
    ensures a >= 0.0 ==> zl * a <= zu * a
    ensures a <= 0.0 ==> zu * a <= zl * a
    ensures b >= 0.0 ==> zl * b <= zu * b
    ensures b <= 0.0 ==> zu * b <= zl * b
  {
    Scaled(b, a, zl);
    Scaled(b, a, zu);
    Scaled(zl, zu, if a >= 0.0 then a else -a);
    Scaled(zl, zu, if b >= 0.0 then b else -b);
  }

  lemma Scaled(a: real, b: real, c: real)
    requires a <= b && c >= 0.0
    ensures a * c <= b * c
  {
    SignRule(b - a, c);
    assert (b - a) * c == b * c - a * c;
  }

  lemma Reversed(l: real, u: real, a: real, b: real)
    requires l <= u && (l > 0.0 || u < 0.0) && a * l == 1.0 && b * u == 1.0
    ensures b <= a
  {
    ReciprocalSign(l, a);
    QuotientOrder(1.0, a, u, b);
    ScaleUp(l, u, a);
  }

  // The bounds lo and hi that dividing z by x gives, for positive z.
  ghost predicate Quotients(l: real, u: real, zl: real, zu: real, lo: real, hi: real) {
    if l > 0.0 then lo * u == zl && hi * l == zu else lo * u == zu && hi * l == zl
  }

  lemma QuotientBounds(l: real, u: real, zl: real, zu: real, a: real, b: real)
    requires l <= u && (l > 0.0 || u < 0.0) && 0.0 < zl <= zu && a * l == 1.0 && b * u == 1.0
    ensures Quotients(l, u, zl, zu, CornerMin(zl, zu, a, b), CornerMax(zl, zu, a, b))
  {
    SignedCorners(l, u, zl, zu, a, b);
    if l > 0.0 {
      Cancel(zl, b, u);
      Cancel(zu, a, l);
    } else {
      Cancel(zu, b, u);
      Cancel(zl, a, l);
    }
  }

  lemma Cancel(v: real, r: real, d: real)
    requires r * d == 1.0
    ensures (v * r) * d == v
  {
    assert (v * r) * d == v * (r * d);
  }

  lemma ProductQuotients(vs: Args, b: Boxes, n: Name, l: real, u: real, zl: real, zu: real) returns (lo: real, hi: real)
    requires Usable(vs, b, n) && n != Z && 0.0 < zl <= zu
    requires b[vs.z] == Box(zl, zu) && b[if n == X then vs.y else vs.x] == Box(l, u)
    ensures lo == ProductLow(vs, b, n) && hi == ProductHigh(vs, b, n) && Quotients(l, u, zl, zu, lo, hi)
  {
    var p, q := 1.0 / l, 1.0 / u;
    assert Second(vs, b, n) == (p, q);
    lo, hi := CornerMin(zl, zu, p, q), CornerMax(zl, zu, p, q);
    QuotientBounds(l, u, zl, zu, p, q);
  }

  lemma Compare(a: real, b: real, d: real)
    requires d != 0.0
    ensures if d > 0.0 then a * d <= b * d <==> a <= b else a * d <= b * d <==> b <= a
  {
    if a < b { StrictScale(a, b, d); } else if b < a { StrictScale(b, a, d); }
  }

  // x * x = z for an interval from l to u without zero: f and g are the bounds that dividing z by x once gives, h and
  // k those
  // of dividing again.  Only one bound moves the first time, and none the second time.
  lemma SquareSettles(l: real, u: real, l': real, u': real, zl: real, zu: real, f: real, g: real, h: real, k: real)
    requires l <= u && (l > 0.0 || u < 0.0) && 0.0 < zl <= zu && l' == Max(l, f) && l' <= u && u' == Min(u, g)
      && l' <= u'
    requires if l > 0.0 then f * u == zl && g * l' == zu && h * u' == zl && k * l' == zu
             else f * u == zu && g * l' == zl && h * u' == zu && k * l' == zl
    ensures (l' == l || u' == u) && h <= l' && k >= u'
  {
    Compare(l', f, u);
    Compare(u, g, l');
    Compare(u', k, l');
    Compare(h, l', u');
  }

  // The square of an interval without zero is positive.
  lemma SquarePositive(l: real, u: real)
    requires l <= u && (l > 0.0 || u < 0.0)
    ensures CornerMin(l, u, l, u) > 0.0
  {
    SignRule(l, l);
    SignRule(l, u);
    SignRule(u, l);
    SignRule(u, u);
  }

  // Both bounds of z.
  lemma ResultClose(s: Pass, vs: Args, precision: real)
    requires Over(s.b, vs) && Close(vs, s, precision) && precision > 0.0 && Apart(vs)
    ensures var t := ProductNarrowed(s, vs, Z, precision);
      && Close(vs, t, precision)
      && (t.ok ==> s.ok && t.b[vs.z].l >= CornerMin(t.b[vs.x].l, t.b[vs.x].u, t.b[vs.y].l, t.b[vs.y].u))
  {
    if s.ok {
      var r := Raised(s, vs, Z, ProductLow(vs, s.b, Z), precision);
      TightenedClose(s, vs, Z, Box(Max(s.b[vs.z].l, ProductLow(vs, s.b, Z)), s.b[vs.z].u), precision);
      TightenedClose(r, vs, Z, Box(r.b[vs.z].l, Min(r.b[vs.z].u, ProductHigh(vs, r.b, Z))), precision);
    }
  }

  // Both bounds of x or of y, which are different variables.
  lemma FactorClose(s: Pass, vs: Args, n: Name, precision: real)
    requires Over(s.b, vs) && Close(vs, s, precision) && precision > 0.0 && Apart(vs) && n != Z && vs.x != vs.y
    ensures Close(vs, ProductNarrowed(s, vs, n, precision), precision)
  {
    if s.ok && Usable(vs, s.b, n) {
      var v := vs.Get(n);
      var r := Raised(s, vs, n, ProductLow(vs, s.b, n), precision);
      TightenedClose(s, vs, n, Box(Max(s.b[v].l, ProductLow(vs, s.b, n)), s.b[v].u), precision);
      if r.ok && Usable(vs, r.b, n) {
        TightenedClose(r, vs, n, Box(r.b[v].l, Min(r.b[v].u, ProductHigh(vs, r.b, n))), precision);
      }
    }
  }

  // Both bounds of x and then of y, which are the same variable.
  lemma SquareClose(s: Pass, vs: Args, precision: real)
    requires Over(s.b, vs) && Close(vs, s, precision) && precision > 0.0 && Apart(vs) && vs.x == vs.y && s.ok
    requires s.b[vs.z].l >= CornerMin(s.b[vs.x].l, s.b[vs.x].u, s.b[vs.y].l, s.b[vs.y].u)
    ensures Close(vs, ProductNarrowed(ProductNarrowed(s, vs, X, precision), vs, Y, precision), precision)
  {
    if Usable(vs, s.b, X) {
      var x, z := s.b[vs.x], s.b[vs.z];
      var r := Raised(s, vs, X, ProductLow(vs, s.b, X), precision);
      if r.ok {
        var l' := r.b[vs.x].l;
        assert r.b[vs.z] == z && r.b[vs.x] == Box(l', x.u) && Usable(vs, r.b, X);
        var t := Lowered(r, vs, X, ProductHigh(vs, r.b, X), precision);
        assert t == ProductNarrowed(s, vs, X, precision);
        if t.ok && Usable(vs, t.b, Y) {
          SquarePositive(x.l, x.u);
          Moves(s, r, t, vs, precision, ProductLow(vs, s.b, X), ProductHigh(vs, r.b, X));
          SquareAgain(vs, s.b, r.b, t.b);
          SameAgain(s, r, t, vs, precision);
        }
      }
    }
  }

  lemma SquareAgain(vs: Args, b: Boxes, c: Boxes, d: Boxes)
    requires Usable(vs, b, X) && Usable(vs, c, X) && Usable(vs, d, Y) && vs.x == vs.y && 0.0 < b[vs.z].l <= b[vs.z].u
    requires c[vs.z] == b[vs.z] && d[vs.z] == b[vs.z]
    requires c[vs.x] == Box(Max(b[vs.x].l, ProductLow(vs, b, X)), b[vs.x].u)
    requires d[vs.x] == Box(c[vs.x].l, Min(c[vs.x].u, ProductHigh(vs, c, X)))
    ensures d[vs.x].l == b[vs.x].l || d[vs.x].u == b[vs.x].u
    ensures ProductLow(vs, d, Y) <= d[vs.x].l && ProductHigh(vs, d, Y) >= d[vs.x].u
  {
    var l, u, l', u', zl, zu := b[vs.x].l, b[vs.x].u, d[vs.x].l, d[vs.x].u, b[vs.z].l, b[vs.z].u;
    var f, _ := ProductQuotients(vs, b, X, l, u, zl, zu);
    var _, g := ProductQuotients(vs, c, X, l', u, zl, zu);
    var h, k := ProductQuotients(vs, d, Y, l', u', zl, zu);
    SquareSettles(l, u, l', u', zl, zu, f, g, h, k);
  }

  lemma Moves(s: Pass, r: Pass, t: Pass, vs: Args, precision: real, f: real, g: real)
    requires Over(s.b, vs) && Apart(vs) && s.ok
    requires r == Raised(s, vs, X, f, precision) && r.ok && t == Lowered(r, vs, X, g, precision) && t.ok
    ensures r.b[vs.z] == s.b[vs.z] && t.b[vs.z] == s.b[vs.z]
    ensures var x := s.b[vs.x]; r.b[vs.x] == Box(Max(x.l, f), x.u) && t.b[vs.x] == Box(Max(x.l, f), Min(x.u, g))
    ensures t.b[vs.x].l <= t.b[vs.x].u && Max(s.b[vs.x].l, f) <= s.b[vs.x].u
  {
  }

  // The rules for y change nothing any more.
  lemma SameAgain(s: Pass, r: Pass, t: Pass, vs: Args, precision: real)
    requires Over(s.b, vs) && Close(vs, s, precision) && precision > 0.0 && Apart(vs) && vs.x == vs.y
    requires s.ok && r.ok && t.ok && Over(r.b, vs) && Over(t.b, vs)
    requires r == Tightened(s, vs, X, Box(r.b[vs.x].l, s.b[vs.x].u), precision) && r.b[vs.x].l >= s.b[vs.x].l
    requires t == Tightened(r, vs, X, Box(r.b[vs.x].l, t.b[vs.x].u), precision) && t.b[vs.x].u <= s.b[vs.x].u
    requires r.b[vs.x].l == s.b[vs.x].l || t.b[vs.x].u == s.b[vs.x].u
    requires Usable(vs, t.b, Y) && ProductLow(vs, t.b, Y) <= t.b[vs.x].l && ProductHigh(vs, t.b, Y) >= t.b[vs.x].u
    ensures Close(vs, ProductNarrowed(t, vs, Y, precision), precision)
  {
    var c := t.b[vs.x];
    var q := Tightened(t, vs, Y, c, precision);
    assert Raised(t, vs, Y, ProductLow(vs, t.b, Y), precision) == q;
    assert q.b == t.b;
    assert ProductNarrowed(t, vs, Y, precision) == Tightened(q, vs, Y, c, precision);
  }

  // ---------------------------------------------------------------- whole runs

  lemma PassClose(rules: Rules, vs: Args, b: Boxes, ws: Values, precision: real)
    requires Over(b, vs) && Close(vs, Pass(true, b, ws, false), precision) && precision > 0.0 && Apart(vs)
    ensures Close(vs, Passed(rules, vs, b, ws, precision), precision)
  {
    var s := Pass(true, b, ws, false);
    match rules
    case Adding(rd, ru) =>
      SumRaisedClose(s, vs, rd, precision);
      SumLoweredClose(AllRaised(s, vs, rd, precision), vs, ru, precision);
    case Multiplying =>
      ResultClose(s, vs, precision);
      var t := ProductNarrowed(s, vs, Z, precision);
      if vs.x == vs.y {
        if t.ok { SquareClose(t, vs, precision); }
      } else {
        FactorClose(t, vs, X, precision);
        FactorClose(ProductNarrowed(t, vs, X, precision), vs, Y, precision);
      }
  }

  lemma {:induction false} PassesClose(rules: Rules, vs: Args, b: Boxes, ws: Values, precision: real, run: seq<Pass>,
                                       i: nat)
    requires Over(b, vs) && Close(vs, Pass(true, b, ws, false), precision) && precision > 0.0 && Apart(vs)
    requires Passes(rules, vs, b, ws, precision, run) && i < |run|
    ensures Over(run[i].b, vs) && Close(vs, run[i], precision)
  {
    assert PassAt(rules, vs, b, ws, precision, run, i);
    if i == 0 {
      PassClose(rules, vs, b, ws, precision);
    } else {
      PassesClose(rules, vs, b, ws, precision, run, i - 1);
      PassClose(rules, vs, run[i - 1].b, run[i - 1].ws, precision);
    }
  }

  ghost function WidthsIn(vs: Args, b: Boxes): Values
    requires Over(b, vs)
  {
    Three(b[vs.x].u - b[vs.x].l, b[vs.y].u - b[vs.y].l, b[vs.z].u - b[vs.z].l)
  }

  // The propagator, started with boxes b, makes these passes and does not fail.
  ghost predicate Succeeds(rules: Rules, vs: Args, b: Boxes, precision: real, run: seq<Pass>) {
    && Over(b, vs) && b[vs.x].l <= b[vs.x].u && b[vs.y].l <= b[vs.y].u && b[vs.z].l <= b[vs.z].u && precision > 0.0
    && IsRun(rules, vs, b, WidthsIn(vs, b), precision, run) && run[|run| - 1].ok
  }

  ghost predicate EndsNear(vs: Args, precision: real, run: seq<Pass>) {
    |run| > 0 && AllNear(vs, run[|run| - 1].b, run[|run| - 1].ws, precision)
  }

  // If z shares no variable, the remembered widths end near the real ones, by either set of rules.
  lemma ApartEndsNear(rules: Rules, vs: Args, b: Boxes, precision: real, run: seq<Pass>)
    requires Apart(vs) && Succeeds(rules, vs, b, precision, run)
    ensures EndsNear(vs, precision, run)
  {
    PassesClose(rules, vs, b, WidthsIn(vs, b), precision, run, |run| - 1);
  }

  // ---------------------------------------------------------------- when z is shared

  // x * y = z where z is also a factor, all intervals end in 0, and that of z is wider than the precision: the
  // rule for z leaves only 0, but the width remembered for the factor is still what it was.
  lemma SharedEndsFar(vs: Args, b: Boxes, nil: Box, precision: real) returns (run: seq<Pass>)
    requires !Apart(vs) && EndInZero(vs, b) && nil.l == nil.u == 0.0 && 0.0 < precision < b[vs.z].u - b[vs.z].l
    ensures Succeeds(Multiplying, vs, b, precision, run) && !EndsNear(vs, precision, run)
  {
    var b', ws := b[vs.z := nil], WidthsIn(vs, b);
    var ws' := ws.Set(Z, nil.u - nil.l);
    FirstShared(vs, b, ws, nil, precision);
    AfterCut(Pass(true, b, ws, false), Pass(true, b', ws', true), vs, nil, precision);
    SecondShared(vs, b', ws', nil, precision);
    run := FarRun(vs, b, nil, precision);
  }

  // The two passes.
  lemma FarRun(vs: Args, b: Boxes, nil: Box, precision: real) returns (run: seq<Pass>)
    requires !Apart(vs) && Over(b, vs) && nil.l == nil.u && b[vs.z].u - b[vs.z].l > precision && precision > 0.0
    requires b[vs.x].l <= b[vs.x].u && b[vs.y].l <= b[vs.y].u && b[vs.z].l <= b[vs.z].u
    requires var b', ws := b[vs.z := nil], WidthsIn(vs, b); var ws' := ws.Set(Z, nil.u - nil.l);
      && Passed(Multiplying, vs, b, ws, precision) == Pass(true, b', ws', true)
      && Passed(Multiplying, vs, b', ws', precision) == Pass(true, b', ws', false)
    ensures Succeeds(Multiplying, vs, b, precision, run) && !EndsNear(vs, precision, run)
  {
    var b', ws := b[vs.z := nil], WidthsIn(vs, b);
    var ws' := ws.Set(Z, nil.u - nil.l);
    run := [Pass(true, b', ws', true), Pass(true, b', ws', false)];
    TwoPasses(vs, b, ws, b', ws', precision, run);
    if vs.z == vs.x { assert !Near(vs, b', ws', precision, X); } else { assert !Near(vs, b', ws', precision, Y); }
  }

  lemma TwoPasses(vs: Args, b: Boxes, ws: Values, b': Boxes, ws': Values, precision: real, run: seq<Pass>)
    requires Over(b, vs) && Over(b', vs) && run == [Pass(true, b', ws', true), Pass(true, b', ws', false)]
    requires Passed(Multiplying, vs, b, ws, precision) == run[0]
      && Passed(Multiplying, vs, b', ws', precision) == run[1]
    ensures IsRun(Multiplying, vs, b, ws, precision, run)
  {
    forall i: nat | i < |run| ensures PassAt(Multiplying, vs, b, ws, precision, run, i) { assert i == 0 || i == 1; }
  }

  // All boxes end in 0.
  ghost predicate EndInZero(vs: Args, b: Boxes) {
    Over(b, vs) && b[vs.x].u == 0.0 && b[vs.y].u == 0.0 && b[vs.z].u == 0.0 && b[vs.x].l <= 0.0 && b[vs.y].l <= 0.0
      && b[vs.z].l <= 0.0
  }

  lemma FirstShared(vs: Args, b: Boxes, ws: Values, nil: Box, precision: real)
    requires Over(b, vs) && b[vs.z].l <= b[vs.z].u == nil.u == nil.l && ws.z == b[vs.z].u - b[vs.z].l > precision
    ensures Raised(Pass(true, b, ws, false), vs, Z, nil.u, precision) ==
      Pass(true, b[vs.z := nil], ws.Set(Z, nil.u - nil.l), true)
  {
  }

  lemma AfterCut(s: Pass, r: Pass, vs: Args, nil: Box, precision: real)
    requires !Apart(vs) && s.ok && !s.redo && r.ok && EndInZero(vs, s.b) && r.b == s.b[vs.z := nil]
      && nil.l == nil.u == 0.0 == r.ws.z && precision > 0.0
    requires Raised(s, vs, Z, nil.u, precision) == r
    ensures Passed(Multiplying, vs, s.b, s.ws, precision) == r
  {
    LowZero(vs, s.b, s.b[vs.x].l, s.b[vs.y].l);
    HighZero(vs, r.b, r.b[vs.x].l, r.b[vs.y].l);
    Unmoved(r, vs, nil.u, precision);
    NarrowedTo(s, vs, nil.u, r, nil.u, r, precision);
    OnlyZ(s, r, vs, precision);
  }

  lemma SecondShared(vs: Args, b: Boxes, ws: Values, nil: Box, precision: real)
    requires !Apart(vs) && EndInZero(vs, b) && b[vs.z] == nil && nil.l == nil.u == 0.0 && precision > 0.0 && ws.z == 0.0
    ensures Passed(Multiplying, vs, b, ws, precision) == Pass(true, b, ws, false)
  {
    var s := Pass(true, b, ws, false);
    LowZero(vs, b, b[vs.x].l, b[vs.y].l);
    HighZero(vs, b, b[vs.x].l, b[vs.y].l);
    Unmoved(s, vs, nil.u, precision);
    NarrowedTo(s, vs, nil.u, s, nil.u, s, precision);
    OnlyZ(s, s, vs, precision);
  }

  lemma Unmoved(s: Pass, vs: Args, f: real, precision: real)
    requires s.ok && Over(s.b, vs) && s.b[vs.z] == Box(f, f) && s.ws.z == 0.0 && precision > 0.0
    ensures Raised(s, vs, Z, f, precision) == s && Lowered(s, vs, Z, f, precision) == s
  {
    assert s.b[vs.z := Box(f, f)] == s.b;
  }

  // Only the rules for z have an effect.
  lemma OnlyZ(s: Pass, t: Pass, vs: Args, precision: real)
    requires s.ok && !s.redo && Over(s.b, vs) && EndInZero(vs, t.b) && ProductNarrowed(s, vs, Z, precision) == t
    ensures Passed(Multiplying, vs, s.b, s.ws, precision) == t
  {
    assert s == Pass(true, s.b, s.ws, false);
    Unusable(t, vs, X, precision);
    Unusable(t, vs, Y, precision);
  }

  // What the rules for z come to.
  lemma NarrowedTo(s: Pass, vs: Args, f: real, r: Pass, g: real, t: Pass, precision: real)
    requires Over(s.b, vs) && Over(r.b, vs) && s.ok && r.ok
    requires ProductLow(vs, s.b, Z) == f && Raised(s, vs, Z, f, precision) == r
    requires ProductHigh(vs, r.b, Z) == g && Lowered(r, vs, Z, g, precision) == t
    ensures ProductNarrowed(s, vs, Z, precision) == t
  {
  }

  lemma Unusable(s: Pass, vs: Args, n: Name, precision: real)
    requires EndInZero(vs, s.b) && n != Z
    ensures ProductNarrowed(s, vs, n, precision) == s
  {
  }

  // The product of two intervals that end in 0.
  lemma LowZero(vs: Args, b: Boxes, pl: real, ql: real)
    requires EndInZero(vs, b) && b[vs.x].l == pl && b[vs.y].l == ql
    ensures ProductLow(vs, b, Z) == 0.0
  {
    SignRule(pl, ql);
  }

  lemma HighZero(vs: Args, b: Boxes, pl: real, ql: real)
    requires EndInZero(vs, b) && b[vs.x].l == pl && b[vs.y].l == ql && (pl == 0.0 || ql == 0.0)
    ensures ProductHigh(vs, b, Z) == 0.0
  {
    SignRule(pl, ql);
  }

  // The remembered widths of x * y = z end near the real ones for all boxes if and only if z shares no variable.
  lemma WidthsExact(vs: Args)
    ensures Apart(vs) <==>
      forall b, precision, run {:trigger Succeeds(Multiplying, vs, b, precision, run)} ::
        Succeeds(Multiplying, vs, b, precision, run) ==> EndsNear(vs, precision, run)
  {
    if Apart(vs) {
      forall b, precision, run | Succeeds(Multiplying, vs, b, precision, run) ensures EndsNear(vs, precision, run) {
        ApartEndsNear(Multiplying, vs, b, precision, run);
      }
    } else {
      var run := SharedEndsFar(vs, map[vs.x := Box(-15.0, 0.0), vs.y := Box(-15.0, 0.0), vs.z := Box(-15.0, 0.0)],
        Box(0.0, 0.0), 1.0);
    }
  }
}

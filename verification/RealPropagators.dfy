// The propagators for sums and products: passes over the rules until none of them makes progress.
module RealPropagators {
  import opened RealInterval
  import opened RealWidths
  import opened SumWidths

  // The remembered widths are upper bounds of the real ones.  They are off by at most the precision for an argument
  // that shares its variable with no other one, and for all arguments if z shares its variable with none.  If z does
  // share its variable, that holds of sums without rounding, but neither of sums with rounding nor of products.
  ghost predicate Tracked(vs: Args, ws: Values, precision: real)
    reads vs.x, vs.y, vs.z
  {
    && During(vs, BoxesOf(vs), BoxesOf(vs), ws, false, precision)
    && (Apart(vs) ==> AllNear(vs, BoxesOf(vs), ws, precision))
  }

  // A run that is over has brought the remembered widths near the real ones, if z shares its variable with none.
  lemma RunEndsNear(rules: Rules, vs: Args, b: Boxes, ws: Values, precision: real, run: seq<Pass>)
    requires Over(b, vs) && b[vs.x].l <= b[vs.x].u && b[vs.y].l <= b[vs.y].u && b[vs.z].l <= b[vs.z].u
      && precision > 0.0
    requires ws == WidthsIn(vs, b) && IsRun(rules, vs, b, ws, precision, run) && run[|run| - 1].ok
    ensures Apart(vs) ==> EndsNear(vs, precision, run)
  {
    if Apart(vs) { ApartEndsNear(rules, vs, b, precision, run); }
  }

  // The loop for x + y = z.
  method RunSum(vs: Args, precision: real, rd: real -> real, ru: real -> real)
    returns (ok: bool, ws: Values, ghost run: seq<Pass>)
    requires Rounding(rd, ru) && precision > 0.0 && Nonempty(vs)
    modifies vs.x, vs.y, vs.z
    ensures Solutions(Sum, vs, BoxesOf(vs)) == Solutions(Sum, vs, old(BoxesOf(vs)))
    ensures !ok ==> Solutions(Sum, vs, old(BoxesOf(vs))) == iset{}
    ensures ok ==>
      && Inside(vs, BoxesOf(vs), old(BoxesOf(vs))) && Settled(vs, BoxesOf(vs), precision, rd, ru)
      && During(vs, BoxesOf(vs), BoxesOf(vs), ws, false, precision)
    ensures IsRun(Adding(rd, ru), vs, old(BoxesOf(vs)), old(WidthsOf(vs)), precision, run)
      && At(vs, ok, ws, false, run[|run| - 1])
    ensures |run| <= 1 + Budget(Total(old(WidthsOf(vs))), precision)
  {
    ws := Three(vs.x.Width(), vs.y.Width(), vs.z.Width());
    FirstPass(vs, precision);
    NextPass(vs, BoxesOf(vs), BoxesOf(vs), ws, false, precision);
    run := [];
    ghost var total, rules := Total(ws), Adding(rd, ru);
    BudgetPositive(total, precision);
    DuringInside(vs, BoxesOf(vs), BoxesOf(vs), ws, false, precision);
    while true
      invariant Inside(vs, BoxesOf(vs), old(BoxesOf(vs)))
      invariant During(vs, BoxesOf(vs), BoxesOf(vs), ws, false, precision) && Total(ws) >= 0.0
      invariant Solutions(Sum, vs, BoxesOf(vs)) == Solutions(Sum, vs, old(BoxesOf(vs)))
      invariant Passes(rules, vs, old(BoxesOf(vs)), old(WidthsOf(vs)), precision, run)
      invariant LedTo(vs, old(BoxesOf(vs)), old(WidthsOf(vs)), run, BoxesOf(vs), ws)
      invariant 0 <= Budget(Total(ws), precision) && |run| + Budget(Total(ws), precision) <= Budget(total, precision)
      decreases Budget(Total(ws), precision)
    {
      ghost var start, ws0 := BoxesOf(vs), ws;
      OneMorePass(rules, vs, old(BoxesOf(vs)), old(WidthsOf(vs)), precision, run, start, ws);
      run := run + [Passed(rules, vs, start, ws, precision)];
      var redo;
      ok, ws, redo := SumPass(vs, ws, precision, rd, ru, start);
      if !ok { return; }
      NextPass(vs, BoxesOf(vs), start, ws, redo, precision);
      DuringInside(vs, BoxesOf(vs), start, ws, redo, precision);
      InsideAgain(vs, BoxesOf(vs), start, old(BoxesOf(vs)));
      if !redo {
        LastPass(vs, BoxesOf(vs), start, ws, precision, rd, ru);
        return;
      }
      BudgetSpent(Total(ws0), Total(ws), precision);
    }
  }

  // x + y = z.
  method PropagateSum(vs: Args, precision: real, rd: real -> real, ru: real -> real)
    returns (ok: bool, ws: Values, ghost run: seq<Pass>)
    requires Rounding(rd, ru) && precision > 0.0 && Nonempty(vs)
    modifies vs.x, vs.y, vs.z
    ensures Solutions(Sum, vs, BoxesOf(vs)) == Solutions(Sum, vs, old(BoxesOf(vs)))
    ensures !ok ==> Solutions(Sum, vs, old(BoxesOf(vs))) == iset{}
    ensures ok ==>
      && Inside(vs, BoxesOf(vs), old(BoxesOf(vs))) && Settled(vs, BoxesOf(vs), precision, rd, ru)
      && SumTight(vs, BoxesOf(vs), precision, rd, ru)
      && Tracked(vs, ws, precision) && (Exact(rd, ru) ==> AllNear(vs, BoxesOf(vs), ws, precision))
    ensures IsRun(Adding(rd, ru), vs, old(BoxesOf(vs)), old(WidthsOf(vs)), precision, run)
      && At(vs, ok, ws, false, run[|run| - 1])
    ensures |run| <= 1 + Budget(Total(old(WidthsOf(vs))), precision)
  {
    ghost var b, widths := BoxesOf(vs), WidthsOf(vs);
    ok, ws, run := RunSum(vs, precision, rd, ru);
    if ok {
      SettledTight(vs, BoxesOf(vs), precision, rd, ru);
      RunEndsNear(Adding(rd, ru), vs, b, widths, precision, run);
      if Exact(rd, ru) { ExactEndsNear(vs, b, precision, rd, ru, run); }
    }
  }

  // The loop for x * y = z.
  method RunProduct(vs: Args, precision: real) returns (ok: bool, ws: Values, ghost run: seq<Pass>)
    requires precision > 0.0 && Nonempty(vs)
    modifies vs.x, vs.y, vs.z
    ensures Solutions(Product, vs, BoxesOf(vs)) == Solutions(Product, vs, old(BoxesOf(vs)))
    ensures !ok ==> Solutions(Product, vs, old(BoxesOf(vs))) == iset{}
    ensures ok ==> Inside(vs, BoxesOf(vs), old(BoxesOf(vs))) && SettledProduct(vs, BoxesOf(vs), precision) && During(vs,
      BoxesOf(vs), BoxesOf(vs), ws, false, precision)
    ensures IsRun(Multiplying, vs, old(BoxesOf(vs)), old(WidthsOf(vs)), precision, run)
      && At(vs, ok, ws, false, run[|run| - 1])
    ensures |run| <= 1 + Budget(Total(old(WidthsOf(vs))), precision)
  {
    ws := Three(vs.x.Width(), vs.y.Width(), vs.z.Width());
    FirstPass(vs, precision);
    NextPass(vs, BoxesOf(vs), BoxesOf(vs), ws, false, precision);
    run := [];
    ghost var total, rules := Total(ws), Multiplying;
    BudgetPositive(total, precision);
    DuringInside(vs, BoxesOf(vs), BoxesOf(vs), ws, false, precision);
    while true
      invariant Inside(vs, BoxesOf(vs), old(BoxesOf(vs)))
      invariant During(vs, BoxesOf(vs), BoxesOf(vs), ws, false, precision) && Total(ws) >= 0.0
      invariant Solutions(Product, vs, BoxesOf(vs)) == Solutions(Product, vs, old(BoxesOf(vs)))
      invariant Passes(rules, vs, old(BoxesOf(vs)), old(WidthsOf(vs)), precision, run)
      invariant LedTo(vs, old(BoxesOf(vs)), old(WidthsOf(vs)), run, BoxesOf(vs), ws)
      invariant 0 <= Budget(Total(ws), precision) && |run| + Budget(Total(ws), precision) <= Budget(total, precision)
      decreases Budget(Total(ws), precision)
    {
      ghost var start, ws0 := BoxesOf(vs), ws;
      OneMorePass(rules, vs, old(BoxesOf(vs)), old(WidthsOf(vs)), precision, run, start, ws);
      run := run + [Passed(rules, vs, start, ws, precision)];
      var redo;
      ok, ws, redo := ProductPass(vs, ws, precision, start);
      if !ok { return; }
      NextPass(vs, BoxesOf(vs), start, ws, redo, precision);
      DuringInside(vs, BoxesOf(vs), start, ws, redo, precision);
      InsideAgain(vs, BoxesOf(vs), start, old(BoxesOf(vs)));
      if !redo {
        LastProductPass(vs, BoxesOf(vs), start, ws, precision);
        return;
      }
      BudgetSpent(Total(ws0), Total(ws), precision);
    }
  }

  // x * y = z, with exact arithmetic.
  method PropagateProduct(vs: Args, precision: real) returns (ok: bool, ws: Values, ghost run: seq<Pass>)
    requires precision > 0.0 && Nonempty(vs)
    modifies vs.x, vs.y, vs.z
    ensures Solutions(Product, vs, BoxesOf(vs)) == Solutions(Product, vs, old(BoxesOf(vs)))
    ensures !ok ==> Solutions(Product, vs, old(BoxesOf(vs))) == iset{}
    ensures ok ==>
      && Inside(vs, BoxesOf(vs), old(BoxesOf(vs))) && SettledProduct(vs, BoxesOf(vs), precision)
      && ProductTight(vs, BoxesOf(vs), precision) && Tracked(vs, ws, precision)
    ensures IsRun(Multiplying, vs, old(BoxesOf(vs)), old(WidthsOf(vs)), precision, run)
      && At(vs, ok, ws, false, run[|run| - 1])
    ensures |run| <= 1 + Budget(Total(old(WidthsOf(vs))), precision)
  {
    ghost var b, widths := BoxesOf(vs), WidthsOf(vs);
    ok, ws, run := RunProduct(vs, precision);
    if ok {
      SettledProductTight(vs, BoxesOf(vs), precision);
      RunEndsNear(Multiplying, vs, b, widths, precision, run);
    }
  }

  // ---------------------------------------------------------------- an interval and a finite domain

  lemma Inhabited(s: set<int>)
    ensures s == {} || exists n :: n in s
  {
    if forall n :: n !in s { assert s == {}; }
  }

  class FiniteDomain {
    var elements: set<int>

    constructor (elements: set<int>)
      ensures this.elements == elements
    {
      this.elements := elements;
    }

    method MinElem() returns (m: int)
      requires elements != {}
      ensures m in elements && forall n :: n in elements ==> m <= n
    {
      Inhabited(elements);
      m :| m in elements;
      var rest := elements - {m};
      while rest != {}
        invariant m in elements && forall n :: n in elements && n !in rest ==> m <= n
        decreases rest
      {
        Inhabited(rest);
        var n :| n in rest;
        rest := rest - {n};
        if n < m { m := n; }
      }
    }

    method MaxElem() returns (m: int)
      requires elements != {}
      ensures m in elements && forall n :: n in elements ==> n <= m
    {
      Inhabited(elements);
      m :| m in elements;
      var rest := elements - {m};
      while rest != {}
        invariant m in elements && forall n :: n in elements && n !in rest ==> n <= m
        decreases rest
      {
        Inhabited(rest);
        var n :| n in rest;
        rest := rest - {n};
        if n > m { m := n; }
      }
    }

    // Keep the elements from n on; the result is how many are left.
    method AtLeast(n: int) returns (size: nat)
      modifies this
      ensures elements == (set m | m in old(elements) && m >= n) && size == |elements|
    {
      elements := set m | m in elements && m >= n;
      size := |elements|;
    }

    method AtMost(n: int) returns (size: nat)
      modifies this
      ensures elements == (set m | m in old(elements) && m <= n) && size == |elements|
    {
      elements := set m | m in elements && m <= n;
      size := |elements|;
    }
  }

  function Ceiling(v: real): int { -(-v).Floor }

  // The elements of d that lie in the interval from l to u.
  ghost function Shared(d: set<int>, l: real, u: real): set<int> { set n | n in d && l <= n as real <= u }

  lemma SharedInts(d: set<int>, l: real, u: real, lo: int, hi: int)
    requires forall n :: n in d ==> lo <= n <= hi
    ensures Shared(d, l, u) == set n | n in d && (if Ceiling(l) > lo then Ceiling(l) else lo) <= n <= (if u.Floor < hi
      then u.Floor else hi)
  {
    forall n | n in d ensures l <= n as real <= u <==> Ceiling(l) <= n <= u.Floor {
      assert l <= n as real <==> (-n) as real <= -l;
    }
  }

  // Keep the elements of the domain that lie in the interval, and make the interval no wider than the
  // elements; there is a second look when the domain has gaps at the ends.
  method IntBounds(ri: RI, d: FiniteDomain) returns (ok: bool)
    requires d.elements != {}
    modifies ri, d
    ensures ok <==> Shared(old(d.elements), old(ri.l), old(ri.u)) != {}
    ensures ok ==> d.elements == Shared(old(d.elements), old(ri.l), old(ri.u))
    ensures ok ==> forall n :: n in d.elements ==> ri.l <= n as real <= ri.u
    ensures ok ==> exists m, n :: m in d.elements && n in d.elements && ri.l == m as real && ri.u == n as real
  {
    ghost var all := Shared(d.elements, ri.l, ri.u);
    while true
      invariant d.elements != {} && ri.l == old(ri.l) && ri.u == old(ri.u) && Shared(d.elements, ri.l, ri.u) == all
      decreases d.elements
    {
      var lo := d.MinElem();
      var hi := d.MaxElem();
      SharedInts(d.elements, ri.l, ri.u, lo, hi);
      var lb := if Ceiling(ri.l) > lo then Ceiling(ri.l) else lo;
      var ub := if ri.u.Floor < hi then ri.u.Floor else hi;
      var size := d.AtLeast(lb);
      if size == 0 { return false; }
      size := d.AtMost(ub);
      assert d.elements == all;
      if size == 0 { return false; }
      var lo' := d.MinElem();
      var hi' := d.MaxElem();
      if lo' > lo || hi' < hi { continue; }
      var w := ri.AtLeast(lb as real);
      if w < 0.0 { return false; }
      w := ri.AtMost(ub as real);
      return w >= 0.0;
    }
  }
}

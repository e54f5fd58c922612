// Extracting the features from a list that may be cyclic, with a second pointer that follows at half
// the speed: the walk always ends, and it rejects a list of features exactly when it is cyclic or improper.
module ArityList {

  type Address = nat

  // Literal is any feature but nil, be it a literal or an integer.
  datatype Value = Nil | List(at: Address) | Unbound(x: nat) | Literal(name: int) | Pair(first: Value, second: Value)
    | Other

  datatype Cell = Cell(head: Value, tail: Value)

  type Heap = map<Address, Cell>

  ghost predicate InHeap(h: Heap, v: Value) { v.List? ==> v.at in h }

  // All list references lead to cells.
  ghost predicate Closed(h: Heap) { forall a {:trigger h[a]} :: a in h ==> InHeap(h, h[a].tail) }

  function IsFeature(v: Value): bool { v.Literal? || v.Nil? }

  // What an element contributes: a feature, a variable to wait for, or nothing acceptable.
  datatype Element = Feature(value: Value) | Wait(x: nat) | Wrong

  function ClassifyFeature(v: Value): Element {
    if v.Unbound? then Wait(v.x) else if IsFeature(v) then Feature(v) else Wrong
  }

  function Classify(v: Value, isPair: bool): Element {
    if !isPair then ClassifyFeature(v)
    else if v.Unbound? then Wait(v.x)
    else if v.Pair? then ClassifyFeature(v.first)
    else Wrong
  }

  datatype Result = Arity(features: seq<Value>) | Suspend(x: nat) | Reject

  // ---------------------------------------------------------------- walking a list

  // The n-th tail of v, as far as there is one.
  ghost function Walk(h: Heap, v: Value, n: nat): Value {
    if n == 0 then v
    else
      var u := Walk(h, v, n - 1);
      if u.List? && u.at in h then h[u.at].tail else u
  }

  lemma {:induction false} WalkInHeap(h: Heap, v: Value, n: nat)
    requires Closed(h) && InHeap(h, v)
    ensures InHeap(h, Walk(h, v, n))
  {
    if n > 0 { WalkInHeap(h, v, n - 1); }
  }

  // The element at position n is a feature.
  ghost predicate Good(h: Heap, v: Value, isPair: bool, n: nat) {
    var u := Walk(h, v, n);
    u.List? && u.at in h && Classify(h[u.at].head, isPair).Feature?
  }

  ghost function FeatureAt(h: Heap, v: Value, isPair: bool, n: nat): Value
    requires Good(h, v, isPair, n)
  {
    Classify(h[Walk(h, v, n).at].head, isPair).value
  }

  // On the heap: position n shows an element with the feature f, which for a list of pairs is their first component.
  ghost predicate Shown(h: Heap, v: Value, isPair: bool, n: nat, f: Value) {
    var u := Walk(h, v, n);
    && u.List? && u.at in h && (f.Nil? || f.Literal?)
    && (if isPair then h[u.at].head.Pair? && h[u.at].head.first == f else h[u.at].head == f)
  }

  // Position n is, or shows, the variable x, or a pair with x for its first component.
  ghost predicate Waits(h: Heap, v: Value, isPair: bool, n: nat, x: nat) {
    var u := Walk(h, v, n);
    || u == Unbound(x)
    || (u.List? && u.at in h && (h[u.at].head == Unbound(x)
                                 || (isPair && h[u.at].head.Pair? && h[u.at].head.first == Unbound(x))))
  }

  // Position n is the end, a feature or a variable to wait for, and only one of these; otherwise the list is rejected.
  lemma ElementExact(h: Heap, v: Value, isPair: bool, n: nat)
    ensures Good(h, v, isPair, n) <==> exists f :: Shown(h, v, isPair, n, f)
    ensures Good(h, v, isPair, n) ==> Shown(h, v, isPair, n, FeatureAt(h, v, isPair, n))
    ensures StopsAt(h, v, isPair, n) ==>
      && (Verdict(h, v, isPair, n).Arity? <==> Walk(h, v, n).Nil?)
      && forall x :: Verdict(h, v, isPair, n) == Suspend(x) <==> Waits(h, v, isPair, n, x)
  {
    if Good(h, v, isPair, n) { assert Shown(h, v, isPair, n, FeatureAt(h, v, isPair, n)); }
  }

  // Position n is the first one without a feature.
  ghost predicate StopsAt(h: Heap, v: Value, isPair: bool, n: nat) {
    !Good(h, v, isPair, n) && forall i: nat {:trigger Good(h, v, isPair, i)} :: i < n ==> Good(h, v, isPair, i)
  }

  // The result when position n is the first one without a feature.
  ghost function Verdict(h: Heap, v: Value, isPair: bool, n: nat): Result
    requires StopsAt(h, v, isPair, n)
  {
    match Walk(h, v, n)
    case Nil => Arity(seq(n, i requires 0 <= i < n => FeatureAt(h, v, isPair, i)))
    case Unbound(x) => Suspend(x)
    case List(a) => if a in h && Classify(h[a].head, isPair).Wait? then Suspend(Classify(h[a].head, isPair).x)
      else Reject
    case _ => Reject
  }

  lemma StopsOnce(h: Heap, v: Value, isPair: bool, m: nat, n: nat)
    requires StopsAt(h, v, isPair, m) && StopsAt(h, v, isPair, n)
    ensures m == n
  {
    assert m < n ==> Good(h, v, isPair, m);
    assert n < m ==> Good(h, v, isPair, n);
  }

  // ---------------------------------------------------------------- cycles

  // Two positions with the same cell.
  ghost predicate Meet(h: Heap, v: Value, i: nat, j: nat) {
    i < j && Walk(h, v, i).List? && Walk(h, v, i) == Walk(h, v, j)
  }

  ghost predicate Cyclic(h: Heap, v: Value) {
    exists i: nat, j: nat :: Meet(h, v, i, j)
  }

  // From i on, the walk repeats every j - i steps.
  lemma {:induction false} Repeats(h: Heap, v: Value, i: nat, j: nat, n: nat)
    requires Meet(h, v, i, j) && i <= n
    ensures Walk(h, v, n + (j - i)) == Walk(h, v, n)
  {
    if n > i { Repeats(h, v, i, j, n - 1); }
  }

  ghost function Times(k: nat, p: nat): nat { if k == 0 then 0 else Times(k - 1, p) + p }

  lemma {:induction false} RepeatsOften(h: Heap, v: Value, i: nat, j: nat, n: nat, k: nat)
    requires Meet(h, v, i, j) && i <= n
    ensures Walk(h, v, n + Times(k, j - i)) == Walk(h, v, n)
  {
    if k > 0 {
      RepeatsOften(h, v, i, j, n, k - 1);
      Repeats(h, v, i, j, n + Times(k - 1, j - i));
    }
  }

  // The first multiple of p greater than i.
  lemma {:induction false} NextMultiple(i: nat, p: nat) returns (m: nat)
    requires p > 0
    ensures i < Times(m, p) <= i + p
  {
    if i == 0 {
      m := 1;
      assert Times(1, p) == Times(0, p) + p;
    } else {
      m := NextMultiple(i - 1, p);
      if Times(m, p) == i { m := m + 1; }
    }
  }

  // Every position shows a value that occurs before j.
  lemma {:induction false} AllBefore(h: Heap, v: Value, i: nat, j: nat, n: nat) returns (m: nat)
    requires Meet(h, v, i, j)
    ensures m < j && Walk(h, v, m) == Walk(h, v, n)
    decreases n
  {
    if n < j {
      m := n;
    } else {
      Repeats(h, v, i, j, n - (j - i));
      m := AllBefore(h, v, i, j, n - (j - i));
    }
  }

  // On a cyclic list the half-speed pointer is met within twice the position where the list repeats.
  lemma Caught(h: Heap, v: Value, i: nat, j: nat) returns (k: nat)
    requires Meet(h, v, i, j)
    ensures k < j && Walk(h, v, 2 * k + 1) == Walk(h, v, k)
  {
    var m := NextMultiple(i, j - i);
    k := Times(m, j - i) - 1;
    RepeatsOften(h, v, i, j, k, m);
  }

  // Among more positions than there are cells, two show the same cell.
  lemma Pigeons(h: Heap, v: Value, n: nat) returns (i: nat, j: nat)
    requires n > |h| && forall k: nat {:trigger Walk(h, v, k)} :: k < n ==> Walk(h, v, k).List? && Walk(h, v, k).at in h
    ensures j < n && Meet(h, v, i, j)
  {
    i, j := Collision(h.Keys, seq(n, k requires 0 <= k < n => Walk(h, v, k).at));
  }

  lemma {:induction false} Collision(all: set<Address>, s: seq<Address>) returns (i: nat, j: nat)
    requires |s| > |all| && forall k :: 0 <= k < |s| ==> s[k] in all
    ensures i < j < |s| && s[i] == s[j]
    decreases |s|
  {
    var n := |s| - 1;
    if k :| 0 <= k < n && s[k] == s[n] {
      i, j := k, n;
    } else {
      i, j := Collision(all - {s[n]}, s[..n]);
    }
  }

  ghost predicate Endless(h: Heap, v: Value) {
    forall n: nat {:trigger Walk(h, v, n)} :: Walk(h, v, n).List?
  }

  lemma CyclicEndless(h: Heap, v: Value, i: nat, j: nat)
    requires Meet(h, v, i, j)
    ensures Endless(h, v)
  {
    forall n: nat ensures Walk(h, v, n).List? {
      var m := AllBefore(h, v, i, j, n);
      ListBefore(h, v, m, j);
    }
  }

  // A list is cyclic exactly when it has no end.
  lemma CyclicIff(h: Heap, v: Value)
    requires Closed(h) && InHeap(h, v)
    ensures Cyclic(h, v) <==> Endless(h, v)
  {
    if Cyclic(h, v) {
      var i: nat, j: nat :| Meet(h, v, i, j);
      CyclicEndless(h, v, i, j);
    }
    if Endless(h, v) {
      forall n: nat ensures Walk(h, v, n).List? && Walk(h, v, n).at in h { WalkInHeap(h, v, n); }
      var i, j := Pigeons(h, v, |h| + 1);
    }
  }

  // What precedes a cell is a cell.
  lemma {:induction false} ListBefore(h: Heap, v: Value, m: nat, j: nat)
    requires m <= j && Walk(h, v, j).List?
    ensures Walk(h, v, m).List?
  {
    if m < j { ListBefore(h, v, m, j - 1); }
  }

  // ---------------------------------------------------------------- the extraction

  // After step k the pointers are at the same cell.
  ghost predicate MetAt(h: Heap, v: Value, k: nat) { Walk(h, v, k + 1) == Walk(h, v, k / 2) }

  // Position n shows what position n / 2 showed: only features have been found, and there is nothing else.
  lemma MetOnlyFeatures(h: Heap, v: Value, isPair: bool, n: nat)
    requires MetAt(h, v, n) && forall i: nat {:trigger Good(h, v, isPair, i)} :: i <= n ==> Good(h, v, isPair, i)
    ensures Cyclic(h, v) && forall i: nat {:trigger Good(h, v, isPair, i)} :: Good(h, v, isPair, i)
  {
    assert Good(h, v, isPair, n / 2);
    assert Meet(h, v, n / 2, n + 1);
    forall i: nat ensures Good(h, v, isPair, i) {
      var m := AllBefore(h, v, n / 2, n + 1, i);
      assert Good(h, v, isPair, m);
    }
  }

  // As many cells in a row as this make the pointers meet.
  lemma MeetInTime(h: Heap, v: Value, n: nat) returns (k: nat)
    requires n >= 2 * (|h| + 1) && forall k: nat {:trigger Walk(h, v, k)} ::
      k <= n ==> Walk(h, v, k).List? && Walk(h, v, k).at in h
    ensures k < n && MetAt(h, v, k)
  {
    var i, j := Pigeons(h, v, |h| + 1);
    var c := Caught(h, v, i, j);
    k := 2 * c;
  }

  // If the pointers have not met yet, the list has fewer cells than that.
  lemma NotForever(h: Heap, v: Value, n: nat)
    requires forall k: nat {:trigger Walk(h, v, k)} :: k <= n ==> Walk(h, v, k).List? && Walk(h, v, k).at in h
    requires forall k: nat {:trigger MetAt(h, v, k)} :: k < n ==> !MetAt(h, v, k)
    ensures n < 2 * (|h| + 1)
  {
    if n >= 2 * (|h| + 1) { var k := MeetInTime(h, v, n); }
  }

  // The first position without a feature decides; without one the list is cyclic and rejected.
  ghost predicate Extracted(h: Heap, v: Value, isPair: bool, r: Result) {
    || (exists n: nat :: StopsAt(h, v, isPair, n) && r == Verdict(h, v, isPair, n))
    || (r.Reject? && Cyclic(h, v) && forall i: nat {:trigger Good(h, v, isPair, i)} :: Good(h, v, isPair, i))
  }

  lemma ExtractedOnce(h: Heap, v: Value, isPair: bool, r: Result, r': Result)
    requires Extracted(h, v, isPair, r) && Extracted(h, v, isPair, r')
    ensures r == r'
  {
    forall m: nat, n: nat | StopsAt(h, v, isPair, m) && StopsAt(h, v, isPair, n)
      ensures m == n { StopsOnce(h, v, isPair, m, n); }
  }

  // Of lists that have only features for elements, and nil at the end if there is one, exactly the
  // cyclic ones are rejected; of the others the features are returned in order.
  lemma RejectsCyclic(h: Heap, v: Value, isPair: bool, r: Result)
    requires Closed(h) && InHeap(h, v) && Extracted(h, v, isPair, r)
    requires forall n: nat {:trigger Walk(h, v, n)} :: Walk(h, v, n).Nil? || Good(h, v, isPair, n)
    ensures r.Reject? <==> Cyclic(h, v)
    ensures !Cyclic(h, v) ==> r.Arity? && Walk(h, v, |r.features|).Nil?
    ensures r.Arity? ==> forall i :: 0 <= i < |r.features| ==> Good(h, v, isPair, i) && r.features[i] == FeatureAt(h, v,
      isPair, i)
  {
    CyclicIff(h, v);
    if n: nat :| StopsAt(h, v, isPair, n) && r == Verdict(h, v, isPair, n) {
      assert !Walk(h, v, n).List?;
    }
  }

  lemma CellsSoFar(h: Heap, v: Value, isPair: bool, n: nat)
    requires Closed(h) && InHeap(h, v) && Walk(h, v, n).List?
    requires forall i: nat {:trigger Good(h, v, isPair, i)} :: i < n ==> Good(h, v, isPair, i)
    ensures forall k: nat {:trigger Walk(h, v, k)} :: k <= n ==> Walk(h, v, k).List? && Walk(h, v, k).at in h
  {
    forall k: nat | k <= n ensures Walk(h, v, k).List? && Walk(h, v, k).at in h {
      assert k < n ==> Good(h, v, isPair, k);
      WalkInHeap(h, v, k);
    }
  }

  // The result on the heap: features in the order of the list, or the first variable that is in the way.
  lemma ExtractedShown(h: Heap, v: Value, isPair: bool, r: Result)
    requires Extracted(h, v, isPair, r)
    ensures r.Arity? ==>
      && Walk(h, v, |r.features|).Nil?
      && forall i {:trigger r.features[i]} :: 0 <= i < |r.features| ==> Shown(h, v, isPair, i, r.features[i])
    ensures r.Suspend? ==> exists n: nat ::
      Waits(h, v, isPair, n, r.x) && forall i: nat {:trigger Good(h, v, isPair, i)} :: i < n ==> Good(h, v, isPair, i)
    ensures r.Reject? ==>
      Cyclic(h, v) || exists n: nat :: !Walk(h, v, n).Nil? && forall f, x ::
        !Shown(h, v, isPair, n, f) && !Waits(h, v, isPair, n, x)
  {
    if n: nat :| StopsAt(h, v, isPair, n) && r == Verdict(h, v, isPair, n) {
      ElementExact(h, v, isPair, n);
      if r.Arity? {
        forall i | 0 <= i < n ensures Shown(h, v, isPair, i, r.features[i]) {
          assert Good(h, v, isPair, i);
          ElementExact(h, v, isPair, i);
        }
      }
      if r.Reject? { assert !Walk(h, v, n).Nil?; }
    }
  }

  method GetArity(h: Heap, start: Value, isPair: bool) returns (r: Result)
    requires Closed(h) && InHeap(h, start)
    ensures Extracted(h, start, isPair, r)
    ensures r.Arity? ==> forall i {:trigger r.features[i]} ::
      0 <= i < |r.features| ==> Shown(h, start, isPair, i, r.features[i])
  {
    r := WalkList(h, start, isPair);
    ExtractedShown(h, start, isPair, r);
  }

  // The loop.
  method WalkList(h: Heap, start: Value, isPair: bool) returns (r: Result)
    requires Closed(h) && InHeap(h, start)
    ensures Extracted(h, start, isPair, r)
  {
    var list, old', update, arity := start, start, false, [];
    ghost var n := 0;
    if list.Unbound? {
      assert StopsAt(h, start, isPair, 0);
      return Suspend(list.x);
    }
    while list.List?
      invariant list == Walk(h, start, n) && InHeap(h, list) && !list.Unbound?
      invariant old' == Walk(h, start, n / 2) && update == (n % 2 == 1)
      invariant forall i: nat {:trigger Good(h, start, isPair, i)} :: i < n ==> Good(h, start, isPair, i)
      invariant forall k: nat {:trigger MetAt(h, start, k)} :: k < n ==> !MetAt(h, start, k)
      invariant |arity| == n && forall i :: 0 <= i < n ==> arity[i] == FeatureAt(h, start, isPair, i)
      decreases 2 * (|h| + 1) - n
    {
      CellsSoFar(h, start, isPair, n);
      NotForever(h, start, n);
      var fea := h[list.at].head;
      if isPair {
        if fea.Unbound? {
          assert StopsAt(h, start, isPair, n);
          return Suspend(fea.x);
        }
        if !fea.Pair? {
          assert StopsAt(h, start, isPair, n);
          return Reject;
        }
        fea := fea.first;
      }
      if fea.Unbound? {
        assert StopsAt(h, start, isPair, n);
        return Suspend(fea.x);
      }
      if !IsFeature(fea) {
        assert StopsAt(h, start, isPair, n);
        return Reject;
      }
      assert Good(h, start, isPair, n);
      arity := arity + [fea];
      list := h[list.at].tail;
      assert list == Walk(h, start, n + 1);
      WalkInHeap(h, start, n + 1);
      if list.Unbound? {
        assert StopsAt(h, start, isPair, n + 1);
        return Suspend(list.x);
      }
      // cycle check
      if list == old' {
        MetOnlyFeatures(h, start, isPair, n);
        return Reject;
      }
      if update {
        assert Good(h, start, isPair, n / 2);
        old' := h[old'.at].tail;
      }
      update := !update;
      n := n + 1;
    }
    assert StopsAt(h, start, isPair, n);
    if list.Nil? {
      return Arity(arity);
    }
    return Reject;
  }
}

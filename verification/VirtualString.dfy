// The length of a virtual string that may still be partial: the count suspends on an unbound
// variable, remembers what is left to count, and is resumed when the variable has been bound.
module VirtualString {

  datatype Term =
    | SmallInt(value: int)
    | BigInt(value: int)
    | Float(text: string)
    | Nil                     // the atom nil
    | Hash                    // the atom '#'
    | Atom(name: string)
    | Cons(head: Term, tail: Term)
    | Tuple(args: seq<Term>)  // with the label '#'
    | ByteString(bytes: string)
    | Unbound(x: nat)
    | Other

  // Done with a length, suspended on a variable with a rest and the length of what is not in it, or failed.
  datatype Outcome = Done(len: int) | Suspended(rest: Term, len: int, on: nat) | Failed

  // ---------------------------------------------------------------- integers in decimal

  function Digit(d: nat): char
    requires d < 10
  {
    "0123456789"[d]
  }

  function Decimal(v: nat): (s: string)
    ensures s != ""
  {
    if v < 10 then [Digit(v)] else Decimal(v / 10) + [Digit(v % 10)]
  }

  // What an integer prints as.
  function Text(v: int): (s: string)
    ensures s != ""
  {
    if v < 0 then ['~'] + Decimal(-v) else Decimal(v)
  }

  ghost function ReadNat(s: string): int {
    if s == "" then 0 else 10 * ReadNat(s[..|s| - 1]) + s[|s| - 1] as int - '0' as int
  }

  // The digits of a number, without leading zeros.
  ghost predicate IsDecimal(s: string, v: int) {
    && s != "" && (forall i :: 0 <= i < |s| ==> '0' <= s[i] <= '9') && (|s| > 1 ==> s[0] != '0') && ReadNat(s) == v
  }

  // The same with a sign for negative numbers.
  ghost predicate IsNumeral(s: string, v: int) {
    if v < 0 then s != "" && s[0] == '~' && IsDecimal(s[1..], -v) else IsDecimal(s, v)
  }

  lemma {:induction false} DecimalReads(v: nat)
    ensures IsDecimal(Decimal(v), v) && (v > 0 ==> Decimal(v)[0] != '0')
  {
    if v >= 10 {
      DecimalReads(v / 10);
      assert Decimal(v)[..|Decimal(v)| - 1] == Decimal(v / 10);
    }
  }

  lemma {:induction false} PositiveRead(s: string)
    requires s != "" && (forall i :: 0 <= i < |s| ==> '0' <= s[i] <= '9')
    ensures ReadNat(s) >= 0 && (s[0] != '0' ==> ReadNat(s) > 0)
  {
    if |s| > 1 { PositiveRead(s[..|s| - 1]); } else { assert s[..0] == ""; }
  }

  lemma {:induction false} DecimalUnique(s: string, v: int)
    requires IsDecimal(s, v)
    ensures v >= 0 && s == Decimal(v)
  {
    PositiveRead(s);
    if |s| > 1 {
      var less := s[..|s| - 1];
      LastDigit(s, v);
      DecimalUnique(less, v / 10);
      assert s == less + [s[|s| - 1]];
    } else {
      assert s[..0] == "" && s == [s[0]];
    }
  }

  // The last digit is v % 10, and the others are the numeral of v / 10.
  lemma LastDigit(s: string, v: int)
    requires IsDecimal(s, v) && |s| > 1
    ensures v >= 10 && IsDecimal(s[..|s| - 1], v / 10) && s[|s| - 1] == Digit(v % 10)
  {
    var less := s[..|s| - 1];
    PositiveRead(less);
    assert less[0] == s[0];
  }

  // An integer prints as its one numeral.
  lemma TextExact(s: string, v: int)
    ensures s == Text(v) <==> IsNumeral(s, v)
  {
    DecimalReads(if v < 0 then -v else v);
    if v < 0 && IsNumeral(s, v) {
      DecimalUnique(s[1..], -v);
      assert s == ['~'] + s[1..];
    }
    if v < 0 { assert Text(v)[1..] == Decimal(-v); }
    if v >= 0 && IsNumeral(s, v) { DecimalUnique(s, v); }
  }

  // ---------------------------------------------------------------- substitutions

  type Subst = map<nat, Term>

  function Apply(s: Subst, t: Term): Term {
    match t
    case Unbound(x) => if x in s then s[x] else t
    case Cons(h, tl) => Cons(Apply(s, h), Apply(s, tl))
    case Tuple(args) => Tuple(ApplyArgs(s, args))
    case _ => t
  }

  function ApplyArgs(s: Subst, args: seq<Term>): (r: seq<Term>)
    ensures |r| == |args| && forall i :: 0 <= i < |r| ==> r[i] == Apply(s, args[i])
  {
    if args == [] then [] else [Apply(s, args[0])] + ApplyArgs(s, args[1..])
  }

  function ApplyAll(ss: seq<Subst>, t: Term): Term {
    if ss == [] then t else ApplyAll(ss[1..], Apply(ss[0], t))
  }

  // Going down from t by the argument numbers in path leads to u; for a list cell these are 0 and 1.
  ghost predicate Leads(t: Term, path: seq<nat>, u: Term) {
    if path == [] then t == u
    else
      match t
      case Cons(h, tl) => if path[0] == 0 then Leads(h, path[1..], u) else path[0] == 1 && Leads(tl, path[1..], u)
      case Tuple(args) => path[0] < |args| && Leads(args[path[0]], path[1..], u)
      case _ => false
  }

  // A substitution puts its terms in the places of the variables, and leaves everything else where it is.
  lemma {:induction false} ApplyPlaces(s: Subst, t: Term, path: seq<nat>, u: Term)
    requires Leads(t, path, u)
    ensures match u
      case Unbound(x) => Leads(Apply(s, t), path, if x in s then s[x] else u)
      case Cons(_, _) => exists c: Term :: c.Cons? && Leads(Apply(s, t), path, c)
      case Tuple(args) => exists c: Term :: c.Tuple? && |c.args| == |args| && Leads(Apply(s, t), path, c)
      case _ => Leads(Apply(s, t), path, u)
  {
    if path == [] {
      assert Leads(Apply(s, t), [], Apply(s, t));
    } else {
      match t
      case Cons(h, tl) => ApplyPlaces(s, if path[0] == 0 then h else tl, path[1..], u);
      case Tuple(args) => ApplyPlaces(s, args[path[0]], path[1..], u);
    }
  }

  ghost predicate Ground(t: Term) {
    match t
    case Unbound(_) => false
    case Cons(h, tl) => Ground(h) && Ground(tl)
    case Tuple(args) => forall i :: 0 <= i < |args| ==> Ground(args[i])
    case _ => true
  }

  // ---------------------------------------------------------------- the count, as a function

  function IsChar(t: Term): bool { t.SmallInt? && 0 <= t.value <= 255 }

  // What is left of '#'(args) when argument i has rest r.
  function RestOf(args: seq<Term>, i: nat, r: Term): Term
    requires i < |args|
  {
    if i == |args| - 1 then r else Tuple([r] + args[i + 1..])
  }

  function Length(t: Term, len: int): Outcome
    decreases t, if t.Tuple? then |t.args| + 1 else 0
  {
    match t
    case Unbound(x) => Suspended(t, len, x)
    case SmallInt(v) => Done(len + |Text(v)|)
    case BigInt(v) => Done(len + |Text(v)|)
    case Float(text) => Done(len + |text|)
    case Nil => Done(len)
    case Hash => Done(len)
    case Atom(name) => Done(len + |name|)
    case Cons(_, _) => ListLength(t, t, len)
    case Tuple(args) => ArgsLength(t, 0, len)
    case ByteString(bytes) => Done(len + |bytes|)
    case Other => Failed
  }

  // The list cells from cdr on; prev is the cell before cdr, already counted.
  function ListLength(cdr: Term, prev: Term, len: int): Outcome {
    match cdr
    case Nil => Done(len)
    case Unbound(x) => Suspended(prev, len - 1, x)
    case Cons(car, tl) =>
      if car.Unbound? then Suspended(cdr, len, car.x)
      else if IsChar(car) then ListLength(tl, cdr, len + 1)
      else Failed
    case _ => Failed
  }

  function ArgsLength(t: Term, i: nat, len: int): Outcome
    requires t.Tuple? && i <= |t.args|
    decreases t, |t.args| - i
  {
    if i == |t.args| then Done(len)
    else
      match Length(t.args[i], len)
      case Done(n) => ArgsLength(t, i + 1, n)
      case Failed => Failed
      case Suspended(r, n, x) => Suspended(RestOf(t.args, i, r), n, x)
  }

  // ---------------------------------------------------------------- the count, as in the emulator

  method Suspend(args: seq<Term>, i: nat, argRest: Term) returns (r: Term)
    requires i < |args|
    ensures r == RestOf(args, i, argRest)
  {
    if i == |args| - 1 { return argRest; }
    var stuple := [argRest];
    var k := i + 1;
    while k < |args|
      invariant i + 1 <= k <= |args| && stuple == [argRest] + args[i + 1..k]
    {
      stuple := stuple + [args[k]];
      k := k + 1;
    }
    assert args[i + 1..k] == args[i + 1..];
    r := Tuple(stuple);
  }

  method CountLength(vs: Term, len: int) returns (o: Outcome)
    ensures o == Length(vs, len)
    decreases vs
  {
    match vs
    case Unbound(x) => o := Suspended(vs, len, x);
    case SmallInt(v) => o := Done(len + |Text(v)|);
    case BigInt(v) => o := Done(len + |Text(v)|);
    case Float(text) => o := Done(len + |text|);
    case Nil => o := Done(len);
    case Hash => o := Done(len);
    case Atom(name) => o := Done(len + |name|);
    case ByteString(bytes) => o := Done(len + |bytes|);
    case Other => o := Failed;
    case Cons(_, _) =>
      var cdr, prev, n := vs, vs, len;
      while true
        invariant ListLength(cdr, prev, n) == ListLength(vs, vs, len)
        decreases cdr
      {
        if cdr.Nil? { return Done(n); }
        if cdr.Unbound? { return Suspended(prev, n - 1, cdr.x); }
        if !cdr.Cons? { return Failed; }
        if cdr.head.Unbound? { return Suspended(cdr, n, cdr.head.x); }
        if !IsChar(cdr.head) { return Failed; }
        cdr, prev, n := cdr.tail, cdr, n + 1;
      }
    case Tuple(args) =>
      var i, n := 0, len;
      while i < |args|
        invariant 0 <= i <= |args| && ArgsLength(vs, i, n) == ArgsLength(vs, 0, len)
      {
        var status := CountLength(args[i], n);
        match status
        case Suspended(argRest, m, x) =>
          var rest := Suspend(args, i, argRest);
          return Suspended(rest, m, x);
        case Failed => return Failed;
        case Done(m) => n := m;
        i := i + 1;
      }
      o := Done(n);
  }

  // ---------------------------------------------------------------- binding and resuming

  // A finished count, or a failed one, is not changed by bindings.
  lemma {:induction false} FinalStays(s: Subst, t: Term, len: int)
    ensures !Length(t, len).Suspended? ==> Length(Apply(s, t), len) == Length(t, len)
    decreases t, if t.Tuple? then |t.args| + 1 else 0
  {
    match t
    case Cons(_, _) => FinalListStays(s, t, t, len);
    case Tuple(_) => FinalArgsStay(s, t, 0, len);
    case _ =>
  }

  lemma {:induction false} FinalListStays(s: Subst, cdr: Term, prev: Term, len: int)
    ensures !ListLength(cdr, prev, len).Suspended? ==>
      ListLength(Apply(s, cdr), Apply(s, prev), len) == ListLength(cdr, prev, len)
  {
    if cdr.Cons? && IsChar(cdr.head) { FinalListStays(s, cdr.tail, cdr, len + 1); }
  }

  lemma {:induction false} FinalArgsStay(s: Subst, t: Term, i: nat, len: int)
    requires t.Tuple? && i <= |t.args|
    ensures !ArgsLength(t, i, len).Suspended? ==> ArgsLength(Apply(s, t), i, len) == ArgsLength(t, i, len)
    decreases t, |t.args| - i
  {
    if i < |t.args| {
      FinalStays(s, t.args[i], len);
      var o := Length(t.args[i], len);
      if o.Done? { FinalArgsStay(s, t, i + 1, o.len); }
    }
  }

  // After a suspension, counting the rest from the length so far is as good as counting everything,
  // whatever the variables have been bound to.
  lemma {:induction false} Resumes(s: Subst, t: Term, len: int)
    ensures var o := Length(t, len); o.Suspended? ==> Length(Apply(s, t), len) == Length(Apply(s, o.rest), o.len)
    decreases t, if t.Tuple? then |t.args| + 1 else 0
  {
    match t
    case Cons(_, _) => ListResumes(s, t, t, len);
    case Tuple(_) => ArgsResume(s, t, 0, len);
    case _ =>
  }

  lemma {:induction false} ListResumes(s: Subst, cdr: Term, prev: Term, len: int)
    requires prev.Cons? && (cdr == prev || (prev.tail == cdr && IsChar(prev.head)))
    ensures var o := ListLength(cdr, prev, len);
      o.Suspended? ==> ListLength(Apply(s, cdr), Apply(s, prev), len) == Length(Apply(s, o.rest), o.len)
  {
    if cdr.Cons? && IsChar(cdr.head) { ListResumes(s, cdr.tail, cdr, len + 1); }
  }

  lemma {:induction false} ArgsResume(s: Subst, t: Term, i: nat, len: int)
    requires t.Tuple? && i <= |t.args|
    ensures var o := ArgsLength(t, i, len); o.Suspended? ==>
      ArgsLength(Apply(s, t), i, len) == Length(Apply(s, o.rest), o.len)
    decreases t, |t.args| - i
  {
    if i < |t.args| {
      var args, o := t.args, Length(t.args[i], len);
      var t' := Apply(s, t);
      match o
      case Done(n) =>
        FinalStays(s, args[i], len);
        ArgsResume(s, t, i + 1, n);
      case Failed =>
      case Suspended(r, n, x) =>
        Resumes(s, args[i], len);
        RestResumes(s, t, i, len, r, n);
    }
  }

  lemma RestResumes(s: Subst, t: Term, i: nat, len: int, r: Term, n: int)
    requires t.Tuple? && i < |t.args| && Length(Apply(s, t.args[i]), len) == Length(Apply(s, r), n)
    ensures ArgsLength(Apply(s, t), i, len) == Length(Apply(s, RestOf(t.args, i, r)), n)
  {
    var a := ApplyArgs(s, t.args);
    assert Apply(s, t) == Tuple(a);
    if i == |t.args| - 1 {
      OneArg(Tuple(a), i, len);
    } else {
      var tail := t.args[i + 1..];
      ApplyDrop(s, t.args, i + 1);
      ApplyFront(s, r, tail);
      SameRest(a, i, Apply(s, r), ApplyArgs(s, tail), len, n);
    }
  }

  lemma ApplyFront(s: Subst, r: Term, args: seq<Term>)
    ensures Apply(s, Tuple([r] + args)) == Tuple([Apply(s, r)] + ApplyArgs(s, args))
  {
    assert ([r] + args)[1..] == args;
  }

  lemma SameRest(a: seq<Term>, i: nat, r: Term, tail: seq<Term>, len: int, n: int)
    requires i < |a| - 1 && a[i + 1..] == tail && Length(a[i], len) == Length(r, n)
    ensures ArgsLength(Tuple(a), i, len) == Length(Tuple([r] + tail), n)
  {
    var u := Tuple([r] + tail);
    assert u.args[1..] == tail;
    SameTail(Tuple(a), i, u, 0, len, n);
  }

  lemma ApplyDrop(s: Subst, args: seq<Term>, i: nat)
    requires i <= |args|
    ensures ApplyArgs(s, args)[i..] == ApplyArgs(s, args[i..])
  {
  }

  // Two tuples whose remaining arguments agree, counted from arguments whose lengths agree.
  lemma SameTail(t: Term, i: nat, u: Term, j: nat, len: int, n: int)
    requires t.Tuple? && u.Tuple? && i < |t.args| && j < |u.args| && t.args[i + 1..] == u.args[j + 1..]
      && i < |t.args| - 1
    requires Length(t.args[i], len) == Length(u.args[j], n)
    ensures ArgsLength(t, i, len) == ArgsLength(u, j, n)
  {
    var o := Length(t.args[i], len);
    match o
    case Done(m) => SameArgs(t, i + 1, u, j + 1, m);
    case Failed =>
    case Suspended(r, m, x) =>
  }

  lemma {:induction false} SameArgs(t: Term, i: nat, u: Term, j: nat, len: int)
    requires t.Tuple? && u.Tuple? && i <= |t.args| && j <= |u.args| && t.args[i..] == u.args[j..]
    ensures ArgsLength(t, i, len) == ArgsLength(u, j, len)
    decreases |t.args| - i
  {
    assert |t.args[i..]| == |u.args[j..]|;
    if i < |t.args| {
      assert t.args[i] == t.args[i..][0] == u.args[j..][0] == u.args[j];
      assert t.args[i + 1..] == t.args[i..][1..] == u.args[j..][1..] == u.args[j + 1..];
      var o := Length(t.args[i], len);
      if o.Done? { SameArgs(t, i + 1, u, j + 1, o.len); }
    }
  }

  lemma OneArg(t: Term, i: nat, len: int)
    requires t.Tuple? && i == |t.args| - 1
    ensures ArgsLength(t, i, len) == Length(t.args[i], len)
  {
  }

  // ---------------------------------------------------------------- a series of bindings

  function Compose(s: Subst, s': Subst): Subst {
    map x | x in s.Keys + s'.Keys :: if x in s then Apply(s', s[x]) else s'[x]
  }

  lemma {:induction false} ApplyCompose(s: Subst, s': Subst, t: Term)
    ensures Apply(Compose(s, s'), t) == Apply(s', Apply(s, t))
  {
    match t
    case Cons(h, tl) =>
      ApplyCompose(s, s', h);
      ApplyCompose(s, s', tl);
    case Tuple(args) =>
      forall i | 0 <= i < |args| ensures Apply(Compose(s, s'), args[i]) == Apply(s', Apply(s, args[i])) {
        ApplyCompose(s, s', args[i]);
      }
      ArgsCompose(s, s', Compose(s, s'), args);
    case _ =>
  }

  lemma ArgsCompose(s: Subst, s': Subst, c: Subst, args: seq<Term>)
    requires forall i :: 0 <= i < |args| ==> Apply(c, args[i]) == Apply(s', Apply(s, args[i]))
    ensures ApplyArgs(c, args) == ApplyArgs(s', ApplyArgs(s, args))
  {
  }

  function ComposeAll(ss: seq<Subst>): Subst {
    if ss == [] then map[] else Compose(ss[0], ComposeAll(ss[1..]))
  }

  lemma {:induction false} ApplyNone(t: Term)
    ensures Apply(map[], t) == t
  {
    match t
    case Cons(h, tl) =>
      ApplyNone(h);
      ApplyNone(tl);
    case Tuple(args) =>
      forall i | 0 <= i < |args| ensures Apply(map[], args[i]) == args[i] { ApplyNone(args[i]); }
      assert ApplyArgs(map[], args) == args;
    case _ =>
  }

  lemma {:induction false} ApplyComposeAll(ss: seq<Subst>, t: Term)
    ensures Apply(ComposeAll(ss), t) == ApplyAll(ss, t)
  {
    if ss == [] {
      ApplyNone(t);
    } else {
      ApplyCompose(ss[0], ComposeAll(ss[1..]), t);
      ApplyComposeAll(ss[1..], Apply(ss[0], t));
    }
  }

  // The rest and the length so far stand for the whole string under any series of bindings.
  lemma ResumesAll(ss: seq<Subst>, t: Term, len: int)
    ensures var o := Length(t, len);
      Length(ApplyAll(ss, t), len) == if o.Suspended? then Length(ApplyAll(ss, o.rest), o.len) else o
  {
    var s := ComposeAll(ss);
    var o := Length(t, len);
    ApplyComposeAll(ss, t);
    if o.Suspended? {
      Resumes(s, t, len);
      ApplyComposeAll(ss, o.rest);
    } else {
      FinalStays(s, t, len);
    }
  }

  // ---------------------------------------------------------------- what the count is

  ghost predicate Occurs(x: nat, t: Term) {
    match t
    case Unbound(y) => x == y
    case Cons(h, tl) => Occurs(x, h) || Occurs(x, tl)
    case Tuple(args) => exists i :: 0 <= i < |args| && Occurs(x, args[i])
    case _ => false
  }

  // A suspension waits for a variable of the rest, and the length never goes down.
  lemma {:induction false} SuspendsOn(t: Term, len: int)
    ensures var o := Length(t, len);
      && (o.Suspended? ==> Occurs(o.on, t) && Occurs(o.on, o.rest))
      && (!o.Failed? ==> o.len >= len)
    decreases t, if t.Tuple? then |t.args| + 1 else 0
  {
    match t
    case Cons(_, _) => ListSuspendsOn(t, t, len);
    case Tuple(_) => ArgsSuspendOn(t, 0, len);
    case _ =>
  }

  lemma {:induction false} ListSuspendsOn(cdr: Term, prev: Term, len: int)
    requires prev.Cons? && (cdr == prev || (prev.tail == cdr && IsChar(prev.head)))
    ensures var o := ListLength(cdr, prev, len);
      && (o.Suspended? ==> Occurs(o.on, cdr) && Occurs(o.on, o.rest))
      && (!o.Failed? ==> o.len >= if cdr.Cons? then len else len - 1)
  {
    if cdr.Cons? && IsChar(cdr.head) { ListSuspendsOn(cdr.tail, cdr, len + 1); }
  }

  lemma {:induction false} ArgsSuspendOn(t: Term, i: nat, len: int)
    requires t.Tuple? && i <= |t.args|
    ensures var o := ArgsLength(t, i, len);
      && (o.Suspended? ==> Occurs(o.on, t) && Occurs(o.on, o.rest))
      && (!o.Failed? ==> o.len >= len)
    decreases t, |t.args| - i
  {
    if i < |t.args| {
      SuspendsOn(t.args[i], len);
      var o := Length(t.args[i], len);
      if o.Done? { ArgsSuspendOn(t, i + 1, o.len); }
      if o.Suspended? && i < |t.args| - 1 { assert RestOf(t.args, i, o.rest).args[0] == o.rest; }
    }
  }

  datatype Characters = Chars(text: string) | NotAString

  // The characters that a virtual string without variables stands for, one part after the other.
  function Contents(t: Term): Characters
    decreases t, 0
  {
    match t
    case SmallInt(v) => Chars(Text(v))
    case BigInt(v) => Chars(Text(v))
    case Float(text) => Chars(text)
    case Nil => Chars("")
    case Hash => Chars("")
    case Atom(name) => Chars(name)
    case ByteString(bytes) => Chars(bytes)
    case Cons(h, tl) => if IsCodes(t) then Chars(Codes(t)) else NotAString
    case Tuple(args) => ArgsContents(args)
    case _ => NotAString
  }

  function ArgsContents(args: seq<Term>): Characters
    decreases args, 1
  {
    if args == [] then Chars("")
    else
      match Contents(args[0])
      case NotAString => NotAString
      case Chars(first) => match ArgsContents(args[1..])
        case NotAString => NotAString
        case Chars(rest) => Chars(first + rest)
  }

  // A complete list of character codes.
  predicate IsCodes(t: Term) {
    t.Nil? || (t.Cons? && t.head.SmallInt? && 0 <= t.head.value < 256 && IsCodes(t.tail))
  }

  // The characters of such a list.
  function Codes(t: Term): string
    requires IsCodes(t)
  {
    if t.Cons? then [t.head.value as char] + Codes(t.tail) else ""
  }

  // Without variables the count finishes, with the sum, or fails because there is no sum.
  lemma {:induction false} GroundLength(t: Term, len: int)
    requires Ground(t)
    ensures Length(t, len) == match Contents(t) case Chars(text) => Done(len + |text|) case NotAString => Failed
    decreases t, if t.Tuple? then |t.args| + 1 else 0
  {
    match t
    case Cons(_, _) => GroundListLength(t, t, len);
    case Tuple(args) =>
      GroundArgsLength(t, 0, len);
      assert args[0..] == args;
    case _ =>
  }

  lemma {:induction false} GroundListLength(cdr: Term, prev: Term, len: int)
    requires Ground(cdr)
    ensures ListLength(cdr, prev, len) == if IsCodes(cdr) then Done(len + |Codes(cdr)|) else Failed
  {
    if cdr.Cons? && IsChar(cdr.head) { GroundListLength(cdr.tail, cdr, len + 1); }
  }

  lemma {:induction false} GroundArgsLength(t: Term, i: nat, len: int)
    requires t.Tuple? && Ground(t) && i <= |t.args|
    ensures ArgsLength(t, i, len) ==
      match ArgsContents(t.args[i..]) case Chars(text) => Done(len + |text|) case NotAString => Failed
    decreases t, |t.args| - i
  {
    if i < |t.args| {
      assert t.args[i..][0] == t.args[i] && t.args[i..][1..] == t.args[i + 1..];
      GroundLength(t.args[i], len);
      var o := Length(t.args[i], len);
      if o.Done? { GroundArgsLength(t, i + 1, o.len); }
    }
  }

  // ---------------------------------------------------------------- the builtin

  datatype Status = Proceed(len: int) | Suspend(on: nat) | TypeError

  // A call of the length builtin: its two arguments are overwritten when it suspends.
  class LengthCall {
    var vs: Term
    var len: int

    constructor (vs: Term)
      ensures this.vs == vs && len == 0
    {
      this.vs, len := vs, 0;
    }

    method Attempt() returns (status: Status)
      requires len >= 0
      modifies this
      ensures len >= old(len)
      ensures var o := Length(old(vs), old(len));
        match o
        case Done(n) => status == Proceed(n) && vs == old(vs) && len == old(len)
        case Failed => status == TypeError && vs == old(vs) && len == old(len)
        case Suspended(r, n, x) => status == Status.Suspend(x) && vs == r && len == n
    {
      var o := CountLength(vs, len);
      SuspendsOn(vs, len);
      match o
      case Done(n) => status := Proceed(n);
      case Failed => status := TypeError;
      case Suspended(r, n, x) =>
        vs, len := r, n;
        status := Status.Suspend(x);
    }
  }

  ghost function StatusOf(o: Outcome): Status {
    match o case Done(n) => Proceed(n) case Failed => TypeError case Suspended(_, _, x) => Status.Suspend(x)
  }

  // Each suspension is followed by the next of a series of bindings and another attempt.  The final
  // status is that of one attempt on the string with all bindings made.
  method Run(vs: Term, bindings: seq<Subst>) returns (status: Status)
    ensures status == StatusOf(Length(ApplyAll(bindings, vs), 0))
    ensures Ground(ApplyAll(bindings, vs)) ==>
      status == match Contents(ApplyAll(bindings, vs)) case Chars(text) => Proceed(|text|) case NotAString => TypeError
  {
    if Ground(ApplyAll(bindings, vs)) { GroundLength(ApplyAll(bindings, vs), 0); }
    var call := new LengthCall(vs);
    var i := 0;
    while true
      invariant 0 <= i <= |bindings| && call.len >= 0
      invariant Length(ApplyAll(bindings[i..], call.vs), call.len) == Length(ApplyAll(bindings, vs), 0)
      decreases |bindings| - i
    {
      ResumesAll(bindings[i..], call.vs, call.len);
      status := call.Attempt();
      if !status.Suspend? || i == |bindings| { return; }
      call.vs := Apply(bindings[i], call.vs);
      assert bindings[i..][1..] == bindings[i + 1..];
      i := i + 1;
    }
  }
}

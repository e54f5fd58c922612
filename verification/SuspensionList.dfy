// Copying suspension lists during collection: the copy of a list holds the forwards of the live
// suspendables in the same order; when lists are compressed, a mark in the copies makes each occur once.
module SuspensionList {

  class Suspendable {
    const isThread: bool
    const payload: int
    const dead: bool
    const boardAlive: bool         // the space it belongs to is still alive
    var multi: bool                // set while it is in the list under construction
    var forward: Suspendable?      // its copy, once there is one
    ghost const origin: Suspendable?

    constructor (isThread: bool, payload: int, dead: bool, boardAlive: bool)
      ensures forward == null && !multi && origin == null
      ensures this.isThread == isThread && this.payload == payload && this.dead == dead && this.boardAlive == boardAlive
    {
      this.isThread, this.payload, this.dead, this.boardAlive := isThread, payload, dead, boardAlive;
      multi, forward, origin := false, null, null;
    }

    constructor Copy(s: Suspendable, multi: bool)
      ensures origin == s && this.multi == multi && forward == null
      ensures isThread == s.isThread && payload == s.payload && dead == s.dead && boardAlive == s.boardAlive
    {
      isThread, payload, dead, boardAlive := s.isThread, s.payload, s.dead, s.boardAlive;
      this.multi, forward, origin := multi, null, s;
    }
  }

  // The members of `live` in s in order, each at its first occurrence.
  ghost function Firsts(s: seq<Suspendable>, live: set<Suspendable>): seq<Suspendable> {
    if s == [] then []
    else
      var n := |s| - 1;
      Firsts(s[..n], live) + if s[n] in live && s[n] !in s[..n] then [s[n]] else []
  }

  // The members of `live` in s in order.
  ghost function Those(s: seq<Suspendable>, live: set<Suspendable>): seq<Suspendable> {
    if s == [] then []
    else
      var n := |s| - 1;
      Those(s[..n], live) + if s[n] in live then [s[n]] else []
  }

  // What a list of suspendables is reduced to.
  ghost function Chosen(s: seq<Suspendable>, live: set<Suspendable>, compress: bool): seq<Suspendable> {
    if compress then Firsts(s, live) else Those(s, live)
  }

  lemma {:induction false} FirstsMembers(s: seq<Suspendable>, live: set<Suspendable>, x: Suspendable)
    ensures x in Firsts(s, live) <==> x in s && x in live
  {
    if s != [] {
      FirstsMembers(s[..|s| - 1], live, x);
      assert s == s[..|s| - 1] + [s[|s| - 1]];
    }
  }

  lemma {:induction false} FirstsOnce(s: seq<Suspendable>, live: set<Suspendable>, i: nat, j: nat)
    requires i < j < |Firsts(s, live)|
    ensures Firsts(s, live)[i] != Firsts(s, live)[j]
  {
    var n := |s| - 1;
    var f := Firsts(s[..n], live);
    FirstsMembers(s[..n], live, s[n]);
    if j < |f| { FirstsOnce(s[..n], live, i, j); } else { assert f[i] in f; }
  }

  // The members keep their order: of two of them, the one that occurs first comes first.
  lemma {:induction false} FirstsInOrder(s: seq<Suspendable>, live: set<Suspendable>, i: nat) returns (p: nat)
    requires i < |Firsts(s, live)|
    ensures p < |s| && s[p] == Firsts(s, live)[i] && s[p] !in s[..p] && |Firsts(s[..p], live)| == i
  {
    var n := |s| - 1;
    if i < |Firsts(s[..n], live)| {
      p := FirstsInOrder(s[..n], live, i);
      assert s[..n][..p] == s[..p];
    } else {
      p := n;
    }
  }

  // Without compression each live member is taken as often as it occurs, in the order of the list; ks are the
  // positions.
  lemma {:induction false} ThoseInOrder(s: seq<Suspendable>, live: set<Suspendable>) returns (ks: seq<nat>)
    ensures |ks| == |Those(s, live)| && forall i :: 0 <= i < |ks| ==> ks[i] < |s| && s[ks[i]] == Those(s, live)[i]
    ensures forall i, j :: 0 <= i < j < |ks| ==> ks[i] < ks[j]
    ensures forall k: nat {:trigger s[k]} :: k < |s| ==> (s[k] in live <==> k in ks)
  {
    if s == [] {
      ks := [];
    } else {
      var n := |s| - 1;
      ks := ThoseInOrder(s[..n], live);
      PositionsMore(s, live, ks);
      if s[n] in live { ks := ks + [n]; }
    }
  }

  // ks are the positions of the live members but for the last member.
  lemma PositionsMore(s: seq<Suspendable>, live: set<Suspendable>, ks: seq<nat>)
    requires s != [] && (forall i :: 0 <= i < |ks| ==> ks[i] < |s| - 1)
    requires forall k: nat {:trigger s[k]} :: k < |s| - 1 ==> (s[..|s| - 1][k] in live <==> k in ks)
    ensures var ks' := if s[|s| - 1] in live then ks + [|s| - 1] else ks;
      forall k: nat {:trigger s[k]} :: k < |s| ==> (s[k] in live <==> k in ks')
  {
    forall k: nat | k < |s| - 1 ensures s[..|s| - 1][k] == s[k] {}
    assert |s| - 1 !in ks;
  }

  lemma {:induction false} ChosenFrom(s: seq<Suspendable>, live: set<Suspendable>, compress: bool, i: nat)
    requires i < |Chosen(s, live, compress)|
    ensures Chosen(s, live, compress)[i] in s && Chosen(s, live, compress)[i] in live
  {
    var n := |s| - 1;
    if i < |Chosen(s[..n], live, compress)| { ChosenFrom(s[..n], live, compress, i); }
  }

  class Collector {
    ghost const from: set<Suspendable>
    ghost var copies: set<Suspendable>

    ghost constructor (from: set<Suspendable>)
      requires forall s :: s in from ==> s.forward == null && !s.multi
      ensures this.from == from && copies == {} && Valid()
    {
      this.from, copies := from, {};
    }

    ghost predicate Forwarded(s: Suspendable)
      reads this`copies, s`forward
    {
      s.forward != null ==>
        s.forward in copies && s.forward.origin == s && s.forward.isThread == s.isThread
          && s.forward.payload == s.payload
    }

    ghost predicate Copies()
      reads this`copies, from`forward
    {
      from !! copies && forall s {:trigger Forwarded(s)} :: s in from ==> Forwarded(s)
    }

    // Between two lists no mark is set.
    ghost predicate Valid()
      reads this`copies, from`forward, copies`multi
    {
      Copies() && forall c :: c in copies ==> !c.multi
    }

    ghost predicate Lives(s: Suspendable)
      reads s`forward
    {
      s.forward != null || (!s.dead && s.boardAlive)
    }

    ghost function Live(): set<Suspendable>
      reads from`forward
    {
      set s | s in from && Lives(s)
    }

    // What is put into the list for s: its copy, or nothing if it is dead or, when compressing, in the list already.
    method CacSuspendable(s: Suspendable, compress: bool) returns (to: Suspendable?)
      requires Copies() && s in from
      modifies this`copies, s`forward, copies`multi
      ensures Copies() && Live() == old(Live()) && old(copies) <= copies && fresh(copies - old(copies))
      ensures old(s.forward) != null ==> s.forward == old(s.forward) && copies == old(copies)
      ensures s.forward != null <==> old(s.forward != null || (!s.dead && s.boardAlive))
      ensures s.forward != null <==> old(Lives(s))
      ensures to == if !old(Lives(s)) || (compress && old(s.forward) != null && old(s.forward.multi)) then null
        else s.forward
      ensures forall c :: c in copies ==> (c.multi <==>
        (c in old(copies) && old(c.multi)) || (compress && c == s.forward))
    {
      if s.forward != null {
        assert Forwarded(s);
        var t := s.forward;
        if !compress { return t; }
        if t.multi { return null; }
        t.multi := true;
        return t;
      }
      if s.dead || !s.boardAlive { return null; }
      var c := new Suspendable.Copy(s, compress);
      copies := copies + {c};
      s.forward := c;
      forall x | x in from ensures Forwarded(x) { assert x != s ==> old(Forwarded(x)); }
      assert forall x :: x in from ==> (Lives(x) <==> old(Lives(x)));
      return c;
    }
  
    // out holds the forwards of the members of f.
    ghost predicate Forwards(f: seq<Suspendable>, out: seq<Suspendable>)
      reads f`forward
    {
      |out| == |f| && forall i {:trigger ForwardAt(f, out, i)} :: 0 <= i < |f| ==> ForwardAt(f, out, i)
    }

    ghost predicate ForwardAt(f: seq<Suspendable>, out: seq<Suspendable>, i: int)
      reads f`forward
    {
      0 <= i < |f| && i < |out| && f[i].forward == out[i]
    }

    // A copy is marked if it is in the list under construction.
    ghost predicate MarkIs(out: seq<Suspendable>, compress: bool, c: Suspendable)
      reads c`multi
    {
      c.multi <==> compress && c in out
    }

    ghost predicate MarksAre(out: seq<Suspendable>, compress: bool)
      reads this`copies, copies`multi
    {
      forall c {:trigger MarkIs(out, compress, c)} :: c in copies ==> MarkIs(out, compress, c)
    }

    // The members of a list that its copy stands for.
    ghost function Kept(list: seq<Suspendable>, compress: bool): seq<Suspendable>
      reads from`forward
    {
      Chosen(list, Live(), compress)
    }

    // One more member of the list, after those in `seen`.
    method Extend(ghost seen: seq<Suspendable>, s: Suspendable, compress: bool, ghost live: set<Suspendable>,
                  out: seq<Suspendable>) returns (out': seq<Suspendable>)
      requires Copies() && live == Live() && s in from && forall i :: 0 <= i < |seen| ==> seen[i] in from
      requires Forwards(Chosen(seen, live, compress), out) && MarksAre(out, compress) && forall k ::
        0 <= k < |out| ==> out[k] in copies
      modifies this`copies, s`forward, copies`multi
      ensures Copies() && Live() == live && old(copies) <= copies && fresh(copies - old(copies))
      ensures old(s.forward) != null ==> s.forward == old(s.forward)
      ensures Forwards(Chosen(seen + [s], live, compress), out') && MarksAre(out', compress) && forall k ::
        0 <= k < |out'| ==> out'[k] in copies
    {
      if compress { InList(seen, live, out, s); }
      assert Forwarded(s) && (s.forward != null ==> MarkIs(out, compress, s.forward));
      var to := CacSuspendable(s, compress);
      assert Forwarded(s);
      ghost var f, f' := Chosen(seen, live, compress), Chosen(seen + [s], live, compress);
      assert (seen + [s])[..|seen|] == seen;
      assert f' == if to == null then f else f + [s];
      out' := if to == null then out else out + [to];
      forall c | c in copies ensures MarkIs(out', compress, c) {
        assert c in old(copies) ==> old(MarkIs(out, compress, c));
        assert c in out' <==> c in out || c == to;
      }
      forall k | 0 <= k < |f'| ensures ForwardAt(f', out', k) {
        if k < |f| { assert old(ForwardAt(f, out, k)); }
      }
    }

    method CacList(list: seq<Suspendable>, compress: bool) returns (out: seq<Suspendable>)
      requires Valid() && forall i :: 0 <= i < |list| ==> list[i] in from
      modifies this`copies, from`forward, copies`multi
      ensures Valid() && Live() == old(Live()) && old(copies) <= copies && fresh(copies - old(copies))
      ensures forall s :: s in from && old(s.forward) != null ==> s.forward == old(s.forward)
      ensures Forwards(Kept(list, compress), out)
    {
      ghost var live := Live();
      out := [];
      var i := 0;
      while i < |list|
        invariant 0 <= i <= |list| && Copies() && Live() == live && old(copies) <= copies && fresh(copies - old(copies))
        invariant forall s :: s in from && old(s.forward) != null ==> s.forward == old(s.forward)
        invariant Forwards(Chosen(list[..i], live, compress), out)
        invariant MarksAre(out, compress)
        invariant forall k :: 0 <= k < |out| ==> out[k] in copies
      {
        assert list[..i + 1][..i] == list[..i];
        assert list[..i + 1][i] == list[i];
        out := Extend(list[..i], list[i], compress, live, out);
        assert list[..i] + [list[i]] == list[..i + 1];
        i := i + 1;
      }
      assert list[..i] == list;
      assert Forwards(Kept(list, compress), out);
      if compress { ResetMarks(out); } else { forall c | c in copies
        ensures !c.multi { assert MarkIs(out, compress, c); } }
    }

    // List after list: what was live at the beginning decides, and the forwards stay.
    method CacLists(lists: seq<seq<Suspendable>>, compress: bool) returns (outs: seq<seq<Suspendable>>)
      requires Valid() && forall k, i :: 0 <= k < |lists| && 0 <= i < |lists[k]| ==> lists[k][i] in from
      modifies this`copies, from`forward, copies`multi
      ensures Valid() && Live() == old(Live()) && |outs| == |lists|
      ensures forall k {:trigger ListAt(lists, old(Live()), compress, outs, k)} ::
        0 <= k < |lists| ==> ListAt(lists, old(Live()), compress, outs, k)
    {
      ghost var live := Live();
      outs := [];
      var k := 0;
      while k < |lists|
        invariant 0 <= k <= |lists| && Valid() && Live() == live && |outs| == k && old(copies) <= copies
          && fresh(copies - old(copies))
        invariant forall m {:trigger ListAt(lists, live, compress, outs, m)} ::
          0 <= m < k ==> ListAt(lists, live, compress, outs, m)
      {
        label L:
        var out := CacList(lists[k], compress);
        ghost var outs0 := outs;
        outs := outs + [out];
        forall m | 0 <= m < k + 1 ensures ListAt(lists, live, compress, outs, m) {
          if m < k {
            assert old@L(ListAt(lists, live, compress, outs0, m));
            ghost var f := Chosen(lists[m], live, compress);
            forall i | 0 <= i < |f| ensures ForwardAt(f, outs[m], i) {
              assert old@L(ForwardAt(f, outs[m], i));
              ChosenFrom(lists[m], live, compress, i);
            }
          }
        }
        k := k + 1;
      }
    }

    ghost predicate ListAt(lists: seq<seq<Suspendable>>, live: set<Suspendable>, compress: bool,
                           outs: seq<seq<Suspendable>>, k: int)
      reads if 0 <= k < |lists| then set s | s in Chosen(lists[k], live, compress) else {}
    {
      0 <= k < |lists| && k < |outs| && Forwards(Chosen(lists[k], live, compress), outs[k])
    }

    // Reset the marks of the members of out, which are the only ones.
    method ResetMarks(out: seq<Suspendable>)
      requires forall i :: 0 <= i < |out| ==> out[i] in copies
      requires MarksAre(out, true)
      modifies copies`multi
      ensures forall c :: c in copies ==> !c.multi
    {
      var i := 0;
      forall c | c in copies ensures c.multi ==> c in out { assert MarkIs(out, true, c); }
      while i < |out|
        invariant 0 <= i <= |out|
        invariant forall c :: c in copies ==> (c.multi ==> c in out[i..])
      {
        out[i].multi := false;
        i := i + 1;
      }
    }

    // A copy is in the list under construction exactly when its original is among those looked at.
    lemma InList(seen: seq<Suspendable>, live: set<Suspendable>, out: seq<Suspendable>, s: Suspendable)
      requires Copies() && s in from && Forwards(Firsts(seen, live), out) && forall i ::
        0 <= i < |seen| ==> seen[i] in from
      ensures (s.forward != null && s.forward in out) <==> (s in seen && s in live)
    {
      var f := Firsts(seen, live);
      FirstsMembers(seen, live, s);
      if s in f {
        var k :| 0 <= k < |f| && f[k] == s;
        assert ForwardAt(f, out, k);
      }
      if s.forward != null && s.forward in out {
        var k :| 0 <= k < |out| && out[k] == s.forward;
        assert ForwardAt(f, out, k);
        FirstsMembers(seen, live, f[k]);
        assert Forwarded(f[k]) && Forwarded(s);
      }
    }
  }
}

// A heap on which the collector goes wrong: the list 1|X with X = X|nil.  The machine is followed from the roots to
// the point where it reads a slot that was never written.
module SelfHeadedTail {
  import opened CollectorHeap
  import opened CollectorMachine
  import opened LostCollection
  import opened Runs

  // Cell 0 holds the one root, cell 1 the pair 1|X, cell 2 the pair X.
  ghost function Heap(): FromSpace {
    FromSpace(map[Slot(0, 0) := LTuple(1), Slot(1, 0) := SmallInt(1), Slot(1, 1) := LTuple(2),
                  Slot(2, 0) := LTuple(2), Slot(2, 1) := Atom(0)],
              map[0 := Block(1), 1 := Pair, 2 := Pair],
              map[Slot(0, 0) := 0, Slot(1, 0) := 0, Slot(1, 1) := 0, Slot(2, 0) := 0, Slot(2, 1) := 0],
              map[], 0, 3)
  }

  lemma HeapValid()
    ensures Heap().Valid() && forall s :: Heap().Data(s) <==> s in Heap().words
  {
    var F := Heap();
    forall s | F.Data(s) ensures F.Good(s) {}
  }

  lemma HeapUnsafe()
    ensures Heap().Valid() && Unsafe(Heap())
  {
    HeapValid();
    var F := Heap();
    assert F.Value(Slot(0, 0)) == LTuple(1) && F.Value(Slot(1, 1)) == LTuple(2) && F.Value(Slot(2, 0)) == LTuple(2);
    assert F.Data(Slot(0, 0)) && F.Data(Slot(1, 1)) && F.Data(Slot(2, 0));
  }

  // From-space when the heads of the pairs 1 and 2 hold v and w.
  ghost function Old(v: Word, w: Word): map<Slot, Word> {
    map[Slot(0, 0) := LTuple(1), Slot(1, 0) := v, Slot(1, 1) := LTuple(2), Slot(2, 0) := w, Slot(2, 1) := Atom(0)]
  }

  // The root's block is cell 3.  Cell 4 is the copy of cell 1, cell 5 the first copy of cell 2, cell 6 the second one;
  // cell 7 is the copy of cell 6.

  // The root is copied: cell 1 waits on the stack.
  ghost function Rooted(): Memory {
    Memory(Old(Mark(Slot(4, 0)), LTuple(2)), map[Slot(4, 0) := SmallInt(1), Slot(3, 0) := LTuple(4)], 5,
           [PtrLTuple(1)], [], map[])
  }

  // Cell 1 is visited; its head is copied.
  ghost function Headed1(): Memory { Rooted().(stack := []) }

  // Its tail is copied: cell 2 is copied twice and waits on the stack.
  ghost function Twice(): Memory {
    Memory(Old(Mark(Slot(4, 0)), Mark(Slot(5, 0))),
           map[Slot(4, 0) := SmallInt(1), Slot(3, 0) := LTuple(4), Slot(4, 1) := LTuple(5), Slot(6, 0) := LTuple(2),
               Slot(5, 0) := LTuple(6)], 7, [PtrLTuple(2)], [], map[])
  }

  // The tail of cell 2 is copied.
  ghost function Walked(): Memory { Twice().Fill(Slot(5, 1), Atom(0)) }

  // Cell 2 is visited: the head of its first copy is copied once more, and cell 6 waits on the stack.
  ghost function Again(): Memory {
    Memory(Old(Mark(Slot(4, 0)), Mark(Slot(5, 0))),
           map[Slot(4, 0) := SmallInt(1), Slot(3, 0) := LTuple(4), Slot(4, 1) := LTuple(5),
               Slot(6, 0) := Mark(Slot(7, 0)), Slot(5, 0) := LTuple(7), Slot(5, 1) := Atom(0),
               Slot(7, 0) := LTuple(2)], 8, [PtrLTuple(6)], [], map[])
  }

  // Cell 6 is visited: its head is copied, and its tail is next.
  ghost function Last(): Memory { Again().(stack := []).Fill(Slot(7, 0), LTuple(5)) }

  lemma CopyRoot()
    ensures Steps(Begin(Heap(), 1), Config(Rooted(), Words(0, 3, 1, 1)))
  {
    var m := Begin(Heap(), 1).m;
    assert m.from == Old(SmallInt(1), LTuple(2));
    assert Ends(m, Slot(0, 0), 0, Slot(0, 0));
    var m' := PairMarked(m, 1).Fill(Slot(3, 0), LTuple(4));
    assert m'.from == Rooted().from && m'.to == Rooted().to;
    assert WordCopied(m, Slot(0, 0), Slot(3, 0), Slot(0, 0)) == Now(m');
  }

  lemma VisitFirst()
    ensures Steps(Config(Rooted(), Idle), Config(Headed1(), Tail(1, 4)))
  {
    var m := Rest(Rooted());
    var f, t := Slot(1, 0), Slot(4, 0);
    var m0 := m.Overwrite(f, SmallInt(1));
    assert m == Headed1() && Ends(m, t, 0, t) && Ends(m0, f, 0, f);
    var m1 := m0.Fill(t, SmallInt(1));
    assert Copies(m0, f, t, m1) && m1.Overwrite(f, Mark(t)) == m by {
      assert WordCopied(m0, f, t, f) == Now(m1);
      assert m1.to == m.to && m1.Overwrite(f, Mark(t)).from == m.from;
    }
    assert HeadCopied(m, 1, 4, m);
  }

  lemma WalkTwice()
    ensures Steps(Config(Headed1(), Tail(1, 4)), Config(Twice(), Tail(2, 5)))
  {
    var m := Headed1();
    var m0 := m.Fill(Slot(4, 1), LTuple(5)).(next := 6);
    var f, t := Slot(2, 0), Slot(5, 0);
    assert Ends(m, Slot(1, 1), 0, Slot(1, 1)) && Ends(m0, f, 0, f);
    var m1 := PairMarked(m0, 2).Fill(t, LTuple(6));
    assert Copies(m0, f, t, m1) by { assert WordCopied(m0, f, t, f) == Now(m1); }
    assert m1.Overwrite(f, Mark(t)) == Twice() by {
      assert m1.to == Twice().to && m1.Overwrite(f, Mark(t)).from == Twice().from;
    }
    assert MarksAfter(m0, f, t, Twice());
  }

  lemma WalkAtom(m: Memory)
    requires m.from == Old(Mark(Slot(4, 0)), Mark(Slot(5, 0)))
    ensures Steps(Config(m, Tail(2, 5)), Config(m.Fill(Slot(5, 1), Atom(0)), Idle))
  {
    var s := Slot(2, 1);
    assert Ends(m, s, 0, s) && m.Read(s) == Atom(0);
    assert WordCopied(m, s, Slot(5, 1), s) == Now(m.Fill(Slot(5, 1), Atom(0)));
    assert Copies(m, s, Slot(5, 1), m.Fill(Slot(5, 1), Atom(0)));
  }

  lemma VisitTwice()
    ensures Steps(Config(Walked(), Idle), Config(Again(), Tail(2, 5)))
  {
    var m := Rest(Walked());
    var f, t := Slot(2, 0), Slot(5, 0);
    var m0 := m.Overwrite(f, LTuple(6));
    assert Ends(m, t, 0, t) && Ends(m0, f, 0, f);
    var m1 := PairMarked(m0, 6).Fill(t, LTuple(7));
    assert Copies(m0, f, t, m1) by { assert WordCopied(m0, f, t, f) == Now(m1); }
    assert m1.Overwrite(f, Mark(t)) == Again() by {
      assert m1.to == Again().to && m1.Overwrite(f, Mark(t)).from == Again().from;
    }
    assert HeadCopied(m, 2, 5, Again());
  }

  lemma VisitSecond()
    ensures Steps(Config(Again(), Idle), Config(Last(), Tail(6, 7)))
  {
    var m := Rest(Again());
    var f, t := Slot(6, 0), Slot(7, 0);
    var m0 := m.Overwrite(f, LTuple(2));
    assert Ends(m, t, 0, t) && Ends(m0, f, 0, f);
    var m1 := m0.Fill(t, LTuple(5));
    assert Copies(m0, f, t, m1) by { assert WordCopied(m0, f, t, f) == Now(m1); }
    assert m1.Overwrite(f, Mark(t)) == Last() by { assert m1.Overwrite(f, Mark(t)).to == Last().to; }
    assert HeadCopied(m, 6, 7, Last());
  }

  lemma ToTwice()
    ensures Gets(Begin(Heap(), 1), Config(Twice(), Tail(2, 5)))
  {
    var x := Begin(Heap(), 1);
    CopyRoot();
    GetsOne(x, Config(Rooted(), Words(0, 3, 1, 1)));
    WordsDone(x, Rooted(), 0, 3, 1, 1);
    VisitFirst();
    GetsStep(x, Config(Rooted(), Idle), Config(Headed1(), Tail(1, 4)));
    WalkTwice();
    GetsStep(x, Config(Headed1(), Tail(1, 4)), Config(Twice(), Tail(2, 5)));
  }

  lemma ToLast()
    ensures Gets(Config(Twice(), Tail(2, 5)), Config(Last(), Tail(6, 7)))
  {
    var x := Config(Twice(), Tail(2, 5));
    WalkAtom(Twice());
    GetsOne(x, Config(Walked(), Idle));
    VisitTwice();
    GetsStep(x, Config(Walked(), Idle), Config(Again(), Tail(2, 5)));
    WalkAtom(Again());
    assert Again().Fill(Slot(5, 1), Atom(0)).to == Again().to;
    GetsStep(x, Config(Again(), Tail(2, 5)), Config(Again(), Idle));
    VisitSecond();
    GetsStep(x, Config(Again(), Idle), Config(Last(), Tail(6, 7)));
  }

  // The collection of this heap does not complete: it gets to the tail of the second copy of cell 2, which was never
  // written.
  lemma SelfHeadedTailFails()
    ensures Heap().Valid() && Unsafe(Heap())
    ensures Gets(Begin(Heap(), 1), Config(Last(), Tail(6, 7)))
    ensures !Last().Written(Slot(6, 1)) && forall y :: !Steps(Config(Last(), Tail(6, 7)), y)
    ensures !Completes(Heap(), 1)
  {
    HeapUnsafe();
    ToTwice();
    ToLast();
    var last := Config(Last(), Tail(6, 7));
    GetsJoin(Begin(Heap(), 1), Config(Twice(), Tail(2, 5)), last);
    StuckThere();
    forall k: nat, y | Reaches(last, k, y) ensures !Finished(y) { RunStops(STEP, last, k, y); }
    LostForever(Heap(), 1, last);
  }

  lemma StuckThere()
    ensures !Last().Written(Slot(6, 1)) && forall y :: !Steps(Config(Last(), Tail(6, 7)), y)
  {
  }
}

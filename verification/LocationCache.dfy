// Operand locations are built from a register mapping under construction; small ones are cached by a
// fingerprint and shared, and a cached one is never freed or changed.
module LocationCache {

  const MAX_LOC_HOPELESS := 8
  const MAX_LOC_HASH := 61
  const LOC_FP_SIZES := 16        // the size takes the low four bits of a fingerprint
  const NUMBER_OF_X_REGISTERS := 4096

  // The weighted sum of the register numbers, the first one with the smallest weight.
  function Sum(m: seq<nat>): nat {
    if m == [] then 0 else m[0] + 2 * Sum(m[1..])
  }

  // The fingerprint contains the size literally.
  function Fingerprint(m: seq<nat>): nat { Sum(m) * LOC_FP_SIZES + |m| }

  ghost predicate Registers(m: seq<nat>) { forall i :: 0 <= i < |m| ==> m[i] < NUMBER_OF_X_REGISTERS }

  function Twos(n: nat): nat { if n == 0 then 1 else 2 * Twos(n - 1) }

  // Register i has weight 2 to the power i.
  lemma {:induction false} SumWeights(m: seq<nat>, i: nat)
    requires i < |m|
    ensures Sum(m) == Sum(m[i := 0]) + Twos(i) * m[i]
    ensures (forall k :: 0 <= k < |m| ==> m[k] == 0) ==> Sum(m) == 0
  {
    if i > 0 {
      assert m[i := 0][1..] == m[1..][i - 1 := 0];
      SumWeights(m[1..], i - 1);
      assert 2 * (Twos(i - 1) * m[i]) == Twos(i) * m[i];
    } else {
      assert m[0 := 0][1..] == m[1..];
      if |m| > 1 { SumWeights(m[1..], 0); }
    }
  }

  lemma {:induction false} SumBound(m: seq<nat>)
    requires Registers(m)
    ensures Sum(m) <= (Twos(|m|) - 1) * (NUMBER_OF_X_REGISTERS - 1)
  {
    if m != [] { SumBound(m[1..]); }
  }

  // The fingerprint of a cached location is positive in an integer of 32 bits.
  lemma FingerprintFits(m: seq<nat>)
    requires Registers(m) && |m| <= MAX_LOC_HOPELESS
    ensures Fingerprint(m) < 0x8000_0000
  {
    SumBound(m);
    assert Twos(0) == 1 && Twos(1) == 2 && Twos(2) == 4 && Twos(3) == 8 && Twos(4) == 16;
    assert Twos(5) == 32 && Twos(6) == 64 && Twos(7) == 128 && Twos(8) == 256;
    assert |m| in {0, 1, 2, 3, 4, 5, 6, 7, 8};
  }

  // The two parts of a fingerprint.
  lemma FingerprintParts(m: seq<nat>)
    requires |m| < LOC_FP_SIZES
    ensures Fingerprint(m) / LOC_FP_SIZES == Sum(m) && Fingerprint(m) % LOC_FP_SIZES == |m|
  {
  }

  class Location {
    var fingerprint: int
    const regs: array<nat>
    var freed: bool               // given back to the allocator

    // Room for n registers.
    constructor Alloc(n: nat)
      ensures regs.Length == n && fresh(regs) && !freed
    {
      regs := new nat[n];
      fingerprint, freed := 0, false;
    }

    // Only a location that is not cached is given back.
    method Deallocate()
      requires !freed
      modifies this`freed
      ensures freed <==> fingerprint == -1
    {
      if fingerprint == -1 { freed := true; }
    }
  }

  // The mapping that start-up sets.
  ghost function Identity(): seq<nat> { seq(NUMBER_OF_X_REGISTERS, i => i) }

  class Locations {
    const newMap: array<nat>
    const cache: array<seq<Location>>   // lists of locations by hash value

    constructor ()
      ensures Valid() && fresh(newMap) && fresh(cache) && newMap[..] == Identity()
      ensures forall b :: 0 <= b < MAX_LOC_HASH ==> cache[b] == []
    {
      newMap := new nat[NUMBER_OF_X_REGISTERS](i => i);
      cache := new seq<Location>[MAX_LOC_HASH](_ => []);
    }

    // A cached location carries its own fingerprint.
    ghost predicate Entry(l: Location, b: nat)
      reads l, l.regs
    {
      && l.regs.Length <= MAX_LOC_HOPELESS && l.fingerprint == Fingerprint(l.regs[..])
      && Sum(l.regs[..]) % MAX_LOC_HASH == b
      && !l.freed && l.regs != newMap
    }

    ghost predicate Bucket(b: nat)
      requires b < cache.Length
      reads cache, cache[b], set l | l in cache[b] :: l.regs
    {
      forall i {:trigger cache[b][i]} :: 0 <= i < |cache[b]| ==> Entry(cache[b][i], b)
    }

    ghost function Cached(): set<Location>
      reads cache
    {
      set b, i | 0 <= b < cache.Length && 0 <= i < |cache[b]| :: cache[b][i]
    }

    ghost predicate Valid()
      reads newMap, cache, Cached(), set l | l in Cached() :: l.regs
    {
      && cache.Length == MAX_LOC_HASH && newMap.Length == NUMBER_OF_X_REGISTERS && Registers(newMap[..])
      && forall b: nat {:trigger Bucket(b)} :: b < cache.Length ==> Bucket(b)
    }

    method Set(n: nat, i: nat)
      requires Valid() && n < newMap.Length && i < NUMBER_OF_X_REGISTERS
      modifies newMap
      ensures Valid() && newMap[..] == old(newMap[..])[n := i]
    {
      newMap[n] := i;
      forall b: nat | b < cache.Length ensures Bucket(b) {
        assert old(Bucket(b));
        forall i | 0 <= i < |cache[b]| ensures Entry(cache[b][i], b) { assert old(Entry(cache[b][i], b)); }
      }
    }
  
    // The location can stand for the first n registers of the mapping.
    ghost predicate Hit(l: Location, m: seq<nat>)
      reads l, l.regs
    {
      l.regs.Length >= |m| && Sum(l.regs[..]) == Sum(m) && l.regs[..|m|] == m
    }

    // Compare the first n registers, the last one first; they are all there.
    method SameRegs(l: Location, n: nat) returns (same: bool)
      requires n <= l.regs.Length && n <= newMap.Length
      ensures same <==> l.regs[..n] == newMap[..n]
    {
      var i := n;
      while i > 0
        invariant 0 <= i <= n && forall k :: i <= k < n ==> l.regs[k] == newMap[k]
      {
        i := i - 1;
        if l.regs[i] != newMap[i] {
          assert l.regs[..n][i] != newMap[..n][i];
          return false;
        }
      }
      return true;
    }

    // Look for a location in the list for the hash value b.
    method Lookup(b: nat, n: nat, fp: int) returns (found: Location?, ghost k: nat)
      requires Valid() && b < MAX_LOC_HASH && n <= MAX_LOC_HOPELESS && fp == Fingerprint(newMap[..n])
      ensures k <= |cache[b]| && forall i :: 0 <= i < k ==> !Hit(cache[b][i], newMap[..n])
      ensures found == null ==> forall i :: 0 <= i < |cache[b]| ==> !Hit(cache[b][i], newMap[..n])
      ensures found != null ==> found in cache[b] && Hit(found, newMap[..n])
      ensures if found == null then k == |cache[b]|
        else k < |cache[b]| && found == cache[b][k] && Entry(found, b) && Hit(found, newMap[..n])
    {
      ghost var m := newMap[..n];
      var ll := cache[b];
      k := 0;
      var j := 0;
      assert Bucket(b);
      FingerprintParts(m);
      while j < |ll|
        invariant 0 <= j == k <= |ll| && forall i :: 0 <= i < k ==> !Hit(cache[b][i], m)
      {
        var loc := ll[j];
        assert Entry(cache[b][j], b);
        FingerprintParts(loc.regs[..]);
        if loc.fingerprint / LOC_FP_SIZES == fp / LOC_FP_SIZES && loc.fingerprint % LOC_FP_SIZES >= n {
          assert loc.regs.Length >= n;
          var same := SameRegs(loc, n);
          if same { return loc, k; }
        }
        j := j + 1;
        k := k + 1;
      }
      found := null;
    }

    // A new location with the first n registers of the mapping.
    method Make(n: nat, fp: int) returns (l: Location)
      requires n <= newMap.Length
      ensures fresh(l) && fresh(l.regs) && l.regs.Length == n && l.regs[..] == newMap[..n] && l.fingerprint == fp
        && !l.freed
    {
      l := new Location.Alloc(n);
      l.fingerprint := fp;
      var i := n;
      while i > 0
        invariant 0 <= i <= n && forall k :: i <= k < n ==> l.regs[k] == newMap[k]
        invariant l.fingerprint == fp && !l.freed
      {
        i := i - 1;
        l.regs[i] := newMap[i];
      }
    }

    method WeightedSum(n: nat) returns (sum: nat)
      requires n <= newMap.Length
      ensures sum == Sum(newMap[..n])
    {
      sum := 0;
      var i := n;
      assert newMap[n..n] == [];
      while i > 0
        invariant 0 <= i <= n && sum == Sum(newMap[i..n])
      {
        i := i - 1;
        assert newMap[i..n][0] == newMap[i] && newMap[i..n][1..] == newMap[i + 1..n];
        sum := sum * 2 + newMap[i];
      }
      assert newMap[0..n] == newMap[..n];
    }

    // The location for the first n registers of the mapping.
    method GetLocation(n: nat) returns (l: Location, ghost hit: bool)
      requires Valid() && n <= newMap.Length
      modifies cache
      ensures Valid() && !l.freed && l.regs.Length >= n && l.regs[..n] == newMap[..n]
      ensures l.regs != newMap && (n <= MAX_LOC_HOPELESS ==>
        l.fingerprint >= 0 && l in cache[Sum(newMap[..n]) % MAX_LOC_HASH])
      ensures n > MAX_LOC_HOPELESS ==> fresh(l) && fresh(l.regs) && l.fingerprint == -1 && cache[..] == old(cache[..])
      ensures n <= MAX_LOC_HOPELESS ==>
        var b := Sum(newMap[..n]) % MAX_LOC_HASH;
        if hit then
          cache[..] == old(cache[..]) && Hit(l, newMap[..n])
        else
          && fresh(l) && fresh(l.regs) && Hit(l, newMap[..n]) && cache[..] == old(cache[..])[b := [l] + old(cache[b])]
          && forall i :: 0 <= i < |old(cache[b])| ==> !old(Hit(cache[b][i], newMap[..n]))
    {
      hit := false;
      if n > MAX_LOC_HOPELESS {
        l := Make(n, -1);
        return;
      }
      var sum := WeightedSum(n);
      var fp, sfp := sum * LOC_FP_SIZES + n, sum % MAX_LOC_HASH;
      var found, k := Lookup(sfp, n, fp);
      if found != null {
        assert found in cache[sfp];
        return found, true;
      }
      l := Make(n, fp);
      Insert(l, sfp);
      assert l == cache[sfp][0];
    }

    // Put a new location at the front of its list.
    method Insert(l: Location, b: nat)
      requires Valid() && b < cache.Length && Entry(l, b)
      modifies cache
      ensures Valid() && cache[..] == old(cache[..])[b := [l] + old(cache[b])]
    {
      cache[b] := [l] + cache[b];
      forall c: nat | c < cache.Length ensures Bucket(c) {
        assert old(Bucket(c));
        forall i | 0 <= i < |cache[c]| ensures Entry(cache[c][i], c) {
          if c == b && i > 0 { assert cache[c][i] == old(cache[c])[i - 1]; }
        }
      }
    }
  
    // Give back a location that is not in use any more; a cached one stays.
    method Release(l: Location)
      requires Valid() && !l.freed
      modifies l`freed
      ensures Valid() && (l.freed <==> l.fingerprint == -1)
    {
      l.Deallocate();
      forall b: nat | b < cache.Length ensures Bucket(b) {
        assert old(Bucket(b));
        forall i | 0 <= i < |cache[b]| ensures Entry(cache[b][i], b) { assert old(Entry(cache[b][i], b)); }
      }
    }
  }

  // ---------------------------------------------------------------- runs

  datatype Op = SetReg(n: nat, i: nat) | Request(n: nat) | Release(k: nat)

  ghost predicate OpOk(op: Op) {
    match op
    case SetReg(n, i) => n < NUMBER_OF_X_REGISTERS && i < NUMBER_OF_X_REGISTERS
    case Request(n) => n <= NUMBER_OF_X_REGISTERS
    case Release(_) => true
  }

  // What a run amounts to: the mapping, the mappings asked for so far, and which answers have been freed.
  datatype History = History(mapping: seq<nat>, asked: seq<seq<nat>>, freed: set<nat>)

  ghost function Next(h: History, op: Op): History {
    match op
    case SetReg(n, i) => if n < |h.mapping| then h.(mapping := h.mapping[n := i]) else h
    case Request(n) => if n <= |h.mapping| then h.(asked := h.asked + [h.mapping[..n]]) else h
    case Release(k) => if k < |h.asked| && |h.asked[k]| > MAX_LOC_HOPELESS then h.(freed := h.freed + {k}) else h
  }

  ghost function Past(ops: seq<Op>): History {
    if ops == [] then History(Identity(), [], {}) else Next(Past(ops[..|ops| - 1]), ops[|ops| - 1])
  }

  // The k-th answer: a location that was not freed has the mapping it was asked for, and only those too
  // large for the cache are freed, when they are given back.
  ghost predicate Answer(h: History, got: seq<Location>, k: int)
    reads set l | l in got, set l | l in got :: l.regs
  {
    && 0 <= k < |got| && k < |h.asked|
    && (got[k].freed <==> k in h.freed)
    && (!got[k].freed ==> got[k].regs.Length >= |h.asked[k]| && got[k].regs[..|h.asked[k]|] == h.asked[k])
  }

  // Any run of requests and releases, starting with an empty cache.
  method Run(ops: seq<Op>) returns (s: Locations, got: seq<Location>)
    requires forall i :: 0 <= i < |ops| ==> OpOk(ops[i])
    ensures s.Valid() && |got| == |Past(ops).asked|
    ensures forall k {:trigger Answer(Past(ops), got, k)} :: 0 <= k < |got| ==> Answer(Past(ops), got, k)
  {
    s := new Locations();
    got := [];
    ghost var mine: set<Location> := {};
    var i := 0;
    while i < |ops|
      decreases |ops| - i
      invariant 0 <= i <= |ops| && fresh(s) && fresh(s.cache) && fresh(s.newMap) && fresh(mine)
      invariant Running(s, Past(ops[..i]), got, mine)
    {
      assert ops[..i + 1][..i] == ops[..i];
      got, mine := Perform(s, ops[i], Past(ops[..i]), got, mine);
      i := i + 1;
    }
    assert ops[..i] == ops;
    forall k | 0 <= k < |got| ensures Answer(Past(ops), got, k) { assert Good(s, Past(ops), got, mine, k); }
  }

  // Whatever is asked for, a location of up to MAX_LOC_HOPELESS registers stays for ever.
  lemma {:induction false} CachedStay(ops: seq<Op>)
    ensures forall k :: k in Past(ops).freed ==> k < |Past(ops).asked| && |Past(ops).asked[k]| > MAX_LOC_HOPELESS
  {
    if ops != [] { CachedStay(ops[..|ops| - 1]); }
  }

  ghost predicate CachedIn(s: Locations, b: nat, mine: set<Location>)
    requires b < s.cache.Length
    reads s.cache
  {
    forall i {:trigger s.cache[b][i]} :: 0 <= i < |s.cache[b]| ==> s.cache[b][i] in mine
  }

  ghost predicate Good(s: Locations, h: History, got: seq<Location>, mine: set<Location>, k: int)
    reads set l | l in got, set l | l in got :: l.regs
  {
    && Answer(h, got, k) && got[k] in mine && got[k].regs != s.newMap
    && (got[k].fingerprint == -1 <==> |h.asked[k]| > MAX_LOC_HOPELESS)
    && (k in h.freed ==> |h.asked[k]| > MAX_LOC_HOPELESS)
  }

  // Locations outside the cache are not shared.
  ghost predicate Unshared(h: History, got: seq<Location>) {
    |got| == |h.asked| && forall j, k {:trigger got[j], got[k]} ::
      0 <= j < |got| && 0 <= k < |got| && |h.asked[k]| > MAX_LOC_HOPELESS && got[j] == got[k] ==> j == k
  }

  ghost predicate Running(s: Locations, h: History, got: seq<Location>, mine: set<Location>)
    reads s, s.newMap, s.cache, s.Cached(), set l | l in s.Cached() :: l.regs, set l | l in got, set l | l in got ::
      l.regs
  {
    && s.Valid() && s.newMap[..] == h.mapping && Unshared(h, got)
    && (forall b: nat {:trigger CachedIn(s, b, mine)} :: b < s.cache.Length ==> CachedIn(s, b, mine))
    && (forall k {:trigger Good(s, h, got, mine, k)} :: 0 <= k < |got| ==> Good(s, h, got, mine, k))
    && (forall k :: k in h.freed ==> k < |got|)
  }

  // One operation of a run.
  method Perform(s: Locations, op: Op, ghost h: History, got: seq<Location>, ghost mine: set<Location>)
    returns (got': seq<Location>, ghost mine': set<Location>)
    requires OpOk(op) && Running(s, h, got, mine)
    modifies s.newMap, s.cache, mine
    ensures Running(s, Next(h, op), got', mine') && mine <= mine' && fresh(mine' - mine)
  {
    got', mine' := got, mine;
    ghost var h' := Next(h, op);
    match op
    case SetReg(n, v) =>
      s.Set(n, v);
      forall k | 0 <= k < |got| ensures Good(s, h', got, mine, k) { assert old(Good(s, h, got, mine, k)); }
      forall b: nat | b < s.cache.Length ensures CachedIn(s, b, mine) { assert old(CachedIn(s, b, mine)); }
    case Request(n) =>
      got', mine' := Ask(s, n, h, got, mine);
    case Release(k) =>
      if k < |got| {
        assert Good(s, h, got, mine, k);
        if !got[k].freed { s.Release(got[k]); }
        forall m | 0 <= m < |got| ensures Good(s, h', got, mine, m) { assert old(Good(s, h, got, mine, m)); }
        forall b: nat | b < s.cache.Length ensures CachedIn(s, b, mine) { assert old(CachedIn(s, b, mine)); }
      }
  }

  method Ask(s: Locations, n: nat, ghost h: History, got: seq<Location>, ghost mine: set<Location>)
    returns (got': seq<Location>, ghost mine': set<Location>)
    requires n <= NUMBER_OF_X_REGISTERS && Running(s, h, got, mine)
    modifies s.cache
    ensures Running(s, Next(h, Request(n)), got', mine') && mine <= mine' && fresh(mine' - mine)
    ensures |got'| == |got| + 1 && got'[..|got|] == got
  {
    forall k | 0 <= k < |got| ensures got[k] in mine { assert Good(s, h, got, mine, k); }
    var l, hit := s.GetLocation(n);
    got', mine' := got + [l], mine + {l};
    ghost var h' := Next(h, Request(n));
    ghost var c := Sum(s.newMap[..n]) % MAX_LOC_HASH;
    assert old(CachedIn(s, c, mine));
    assert hit ==> s.cache[..][c] == s.cache[c] && old(s.cache[..])[c] == old(s.cache[c]);
    forall b: nat | b < s.cache.Length ensures CachedIn(s, b, mine') {
      assert old(CachedIn(s, b, mine));
      assert s.cache[..][b] == s.cache[b] && old(s.cache[..])[b] == old(s.cache[b]);
      forall i | 0 <= i < |s.cache[b]| ensures s.cache[b][i] in mine' {}
    }
    forall k | 0 <= k < |got'| ensures Good(s, h', got', mine', k) {
      if k < |got| { assert old(Good(s, h, got, mine, k)); }
    }
    forall k | 0 <= k < |got| && |h.asked[k]| > MAX_LOC_HOPELESS
      ensures got[k] != l { assert old(Good(s, h, got, mine, k)); }
    assert n > MAX_LOC_HOPELESS ==> l !in got;
  }
}

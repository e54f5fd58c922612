// Base 64 as in section 4 of RFC 4648, with '-' for the last symbol of the alphabet: what is encoded is
// decoded again, for every length.
module Base64 {

  type Byte = x: int | 0 <= x < 256

  type Sextet = x: int | 0 <= x < 64

  const FILL := '='

  // A table of 64 different characters, none of them the fill character.
  ghost predicate Alphabet(cvt: seq<char>) {
    && |cvt| == 64
    && (forall j, k {:trigger cvt[j], cvt[k]} :: 0 <= j < k < 64 ==> cvt[j] != cvt[k])
    && (forall k {:trigger cvt[k]} :: 0 <= k < 64 ==> cvt[k] != FILL)
  }

  // Upper case, lower case, digits, '+' and '-'.
  function Symbol(k: Sextet): char {
    if k < 26 then ('A' as int + k) as char
    else if k < 52 then ('a' as int + (k - 26)) as char
    else if k < 62 then ('0' as int + (k - 52)) as char
    else if k == 62 then '+'
    else '-'
  }

  const CVT: seq<char> := seq(64, k requires 0 <= k < 64 => Symbol(k))

  lemma CvtIsAlphabet()
    ensures Alphabet(CVT)
  {
  }

  // The emulator's table, in the order of RFC 4648: each symbol but four is followed by the next character.
  lemma CvtInOrder()
    ensures CVT[0] == 'A' && CVT[25] == 'Z' && CVT[26] == 'a' && CVT[51] == 'z' && CVT[52] == '0' && CVT[61] == '9'
    ensures CVT[62] == '+' && CVT[63] == '-'
    ensures forall k {:trigger CVT[k]} :: 0 <= k < 62 && k !in {25, 51, 61} ==> CVT[k + 1] as int == CVT[k] as int + 1
  {
  }

  ghost predicate InAlphabet(cvt: seq<char>, c: char) { c in cvt }

  // The position of a symbol in the alphabet.
  method Find(cvt: seq<char>, c: char) returns (ans: Sextet)
    requires Alphabet(cvt) && InAlphabet(cvt, c)
    ensures cvt[ans] == c
  {
    var i := 0;
    while cvt[i] != c
      invariant 0 <= i < 64 && c !in cvt[..i]
      decreases 64 - i
    {
      assert c in cvt[i + 1..] by { assert cvt == cvt[..i + 1] + cvt[i + 1..]; }
      i := i + 1;
    }
    ans := i;
  }

  // ---------------------------------------------------------------- the code of the standard

  // The sextets of three bytes.
  function S0(a: Byte): Sextet { a / 4 }

  function S1(a: Byte, b: Byte): Sextet { a % 4 * 16 + b / 16 }

  function S2(b: Byte, c: Byte): Sextet { b % 16 * 4 + c / 64 }

  function S3(c: Byte): Sextet { c % 64 }

  // The bytes of four sextets.
  function B0(p: Sextet, q: Sextet): Byte { p as int * 4 + q / 16 }

  function B1(q: Sextet, r: Sextet): Byte { q as int % 16 * 16 + r / 4 }

  function B2(r: Sextet, t: Sextet): Byte { r as int % 4 * 64 + t }

  // The sextets are the 24 bits of the bytes in groups of six, and the bytes are those of the sextets in groups of
  // eight.
  lemma SameBits(a: Byte, b: Byte, c: Byte)
    ensures (a as int * 256 + b) * 256 + c == ((S0(a) as int * 64 + S1(a, b)) * 64 + S2(b, c)) * 64 + S3(c)
  {
    var h, l := a as int / 4, a as int % 4;
    assert a as int == h * 4 + l;
    var u, v := b as int / 16, b as int % 16;
    assert b as int == u * 16 + v;
    var x, y := c as int / 64, c as int % 64;
    assert c as int == x * 64 + y;
  }

  // Sextets are determined by the number they make.
  lemma SextetsUnique(p: Sextet, q: Sextet, r: Sextet, t: Sextet, p': Sextet, q': Sextet, r': Sextet, t': Sextet)
    requires ((p as int * 64 + q) * 64 + r) * 64 + t == ((p' as int * 64 + q') * 64 + r') * 64 + t'
    ensures p == p' && q == q' && r == r' && t == t'
  {
  }

  lemma BytesBack(a: Byte, b: Byte, c: Byte)
    ensures B0(S0(a), S1(a, b)) == a && B1(S1(a, b), S2(b, c)) == b && B2(S2(b, c), S3(c)) == c
  {
  }

  lemma TopByteBack(a: Byte, b: Byte)
    ensures B0(S0(a), S1(a, b)) == a
  {
  }

  // Three bytes are four symbols; a last byte or two are filled up with zero bits and '='.
  function Encoded(cvt: seq<char>, d: seq<Byte>): seq<char>
    requires |cvt| == 64
  {
    if d == [] then []
    else if |d| == 1 then [cvt[S0(d[0])], cvt[S1(d[0], 0)], FILL, FILL]
    else if |d| == 2 then [cvt[S0(d[0])], cvt[S1(d[0], d[1])], cvt[S2(d[1], 0)], FILL]
    else [cvt[S0(d[0])], cvt[S1(d[0], d[1])], cvt[S2(d[1], d[2])], cvt[S3(d[2])]] + Encoded(cvt, d[3..])
  }

  // Groups of four symbols up to the end or to a fill character, behind which nothing is looked at; the last group may
  // also lack its fill characters.
  ghost predicate WellFormed(cvt: seq<char>, s: seq<char>) {
    s == [] ||
    (|s| >= 2 && InAlphabet(cvt, s[0]) && InAlphabet(cvt, s[1]) &&
     (Ends(s, 2) || (InAlphabet(cvt, s[2]) && (Ends(s, 3) || (InAlphabet(cvt, s[3]) && WellFormed(cvt, s[4..]))))))
  }

  // Nothing follows the first i symbols.
  predicate Ends(s: seq<char>, i: nat)
    requires i <= |s|
  {
    |s| == i || s[i] == FILL
  }

  ghost function Value(cvt: seq<char>, c: char): Sextet
    requires Alphabet(cvt) && InAlphabet(cvt, c)
  {
    var k: Sextet :| cvt[k] == c; k
  }

  lemma ValueSymbol(cvt: seq<char>, k: Sextet)
    requires Alphabet(cvt)
    ensures InAlphabet(cvt, cvt[k]) && Value(cvt, cvt[k]) == k && cvt[k] != FILL
  {
  }

  // The bytes that groups of symbols stand for; a group that is filled up or cut short stands for one or two bytes.
  ghost function Decoded(cvt: seq<char>, s: seq<char>): seq<Byte>
    requires Alphabet(cvt) && WellFormed(cvt, s)
  {
    if s == [] then []
    else
      var p, q := Value(cvt, s[0]), Value(cvt, s[1]);
      if Ends(s, 2) then [B0(p, q)]
      else
        var r := Value(cvt, s[2]);
        if Ends(s, 3) then [B0(p, q), B1(q, r)] else [B0(p, q), B1(q, r), B2(r, Value(cvt, s[3]))] + Decoded(cvt,
          s[4..])
  }

  // What groups of symbols stand for.
  lemma FullGroup(cvt: seq<char>, p: Sextet, q: Sextet, r: Sextet, t: Sextet, s: seq<char>)
    requires Alphabet(cvt) && WellFormed(cvt, s)
    ensures var g := [cvt[p], cvt[q], cvt[r], cvt[t]] + s;
      WellFormed(cvt, g) && Decoded(cvt, g) == [B0(p, q), B1(q, r), B2(r, t)] + Decoded(cvt, s)
  {
    ValueSymbol(cvt, p);
    ValueSymbol(cvt, q);
    ValueSymbol(cvt, r);
    ValueSymbol(cvt, t);
    var g := [cvt[p], cvt[q], cvt[r], cvt[t]] + s;
    assert g[4..] == s;
  }

  // With or without the fill characters, whatever follows them.
  lemma LastGroups(cvt: seq<char>, p: Sextet, q: Sextet, r: Sextet, rest: seq<char>)
    requires Alphabet(cvt) && (rest == [] || rest[0] == FILL)
    ensures var g := [cvt[p], cvt[q]] + rest; WellFormed(cvt, g) && Decoded(cvt, g) == [B0(p, q)]
    ensures var g := [cvt[p], cvt[q], cvt[r]] + rest; WellFormed(cvt, g) && Decoded(cvt, g) == [B0(p, q), B1(q, r)]
  {
    ValueSymbol(cvt, p);
    ValueSymbol(cvt, q);
    ValueSymbol(cvt, r);
  }

  lemma {:induction false} EncodedLength(cvt: seq<char>, d: seq<Byte>)
    requires |cvt| == 64
    ensures |Encoded(cvt, d)| == (|d| + 2) / 3 * 4
  {
    if |d| >= 3 { EncodedLength(cvt, d[3..]); }
  }

  // Bit k of a byte, bit 7 being the highest one.
  ghost function ByteBit(a: Byte, k: nat): int
    requires k < 8
  {
    match k
    case 0 => a % 2
    case 1 => a / 2 % 2
    case 2 => a / 4 % 2
    case 3 => a / 8 % 2
    case 4 => a / 16 % 2
    case 5 => a / 32 % 2
    case 6 => a / 64 % 2
    case _ => a / 128
  }

  // The bits of a byte string one after the other, and zeros behind them.
  ghost function Bit(d: seq<Byte>, i: nat): int {
    if d == [] then 0 else if i < 8 then ByteBit(d[0], 7 - i) else Bit(d[1..], i - 8)
  }

  // Six of them as a number, from bit i on.
  ghost function SixBits(d: seq<Byte>, i: nat): int {
    32 * Bit(d, i) + 16 * Bit(d, i + 1) + 8 * Bit(d, i + 2) + 4 * Bit(d, i + 3) + 2 * Bit(d, i + 4) + Bit(d, i + 5)
  }

  lemma Half(x: int)
    ensures x == 2 * (x / 2) + x % 2
  {
  }

  lemma HalvedOften(x: int)
    requires x >= 0
    ensures x / 2 / 2 == x / 4 && x / 4 / 2 == x / 8 && x / 8 / 2 == x / 16 && x / 16 / 2 == x / 32
    ensures x / 32 / 2 == x / 64 && x / 64 / 2 == x / 128
  {
  }

  lemma Halves(a: Byte)
    ensures a == 2 * (a / 2) + a % 2 && a / 2 == 2 * (a / 4) + a / 2 % 2 && a / 4 == 2 * (a / 8) + a / 4 % 2
    ensures a / 8 == 2 * (a / 16) + a / 8 % 2 && a / 16 == 2 * (a / 32) + a / 16 % 2
    ensures a / 32 == 2 * (a / 64) + a / 32 % 2 && a / 64 == 2 * (a / 128) + a / 64 % 2
  {
    HalvedOften(a);
    Half(a);
    Half(a / 2);
    Half(a / 4);
    Half(a / 8);
    Half(a / 16);
    Half(a / 32);
    Half(a / 64);
  }

  lemma HighBits(a: Byte)
    ensures a / 64 == 2 * ByteBit(a, 7) + ByteBit(a, 6)
    ensures a / 16 == 4 * (a / 64) + 2 * ByteBit(a, 5) + ByteBit(a, 4)
    ensures a / 4 == 4 * (a / 16) + 2 * ByteBit(a, 3) + ByteBit(a, 2)
    ensures a == 4 * (a / 4) + 2 * ByteBit(a, 1) + ByteBit(a, 0)
  {
    Halves(a);
  }

  lemma LowBits(a: Byte)
    ensures a % 4 == 2 * ByteBit(a, 1) + ByteBit(a, 0)
    ensures a % 16 == 8 * ByteBit(a, 3) + 4 * ByteBit(a, 2) + 2 * ByteBit(a, 1) + ByteBit(a, 0)
    ensures a % 64 == 32 * ByteBit(a, 5) + 16 * ByteBit(a, 4) + a % 16
  {
    HighBits(a);
    assert a == 4 * (a / 4) + a % 4;
    assert a == 16 * (a / 16) + a % 16;
    assert a == 64 * (a / 64) + a % 64;
  }

  // The sextets of the group that three bytes make.
  lemma SextetBits(a: Byte, b: Byte, c: Byte)
    ensures S0(a) == 32 * ByteBit(a, 7) + 16 * ByteBit(a, 6) + 8 * ByteBit(a, 5) + 4 * ByteBit(a, 4)
      + 2 * ByteBit(a, 3) + ByteBit(a, 2)
    ensures S1(a, b) == 32 * ByteBit(a, 1) + 16 * ByteBit(a, 0) + 8 * ByteBit(b, 7) + 4 * ByteBit(b, 6)
      + 2 * ByteBit(b, 5) + ByteBit(b, 4)
    ensures S2(b, c) == 32 * ByteBit(b, 3) + 16 * ByteBit(b, 2) + 8 * ByteBit(b, 1) + 4 * ByteBit(b, 0)
      + 2 * ByteBit(c, 7) + ByteBit(c, 6)
    ensures S3(c) == 32 * ByteBit(c, 5) + 16 * ByteBit(c, 4) + 8 * ByteBit(c, 3) + 4 * ByteBit(c, 2)
      + 2 * ByteBit(c, 1) + ByteBit(c, 0)
  {
    HighBits(a);
    LowBits(a);
    HighBits(b);
    LowBits(b);
    HighBits(c);
    LowBits(c);
  }

  lemma FirstBits(d: seq<Byte>)
    ensures Bit(d, 0) == ByteBit(At(d, 0), 7) && Bit(d, 1) == ByteBit(At(d, 0), 6)
    ensures Bit(d, 2) == ByteBit(At(d, 0), 5) && Bit(d, 3) == ByteBit(At(d, 0), 4)
    ensures Bit(d, 4) == ByteBit(At(d, 0), 3) && Bit(d, 5) == ByteBit(At(d, 0), 2)
    ensures Bit(d, 6) == ByteBit(At(d, 0), 1) && Bit(d, 7) == ByteBit(At(d, 0), 0)
  {
  }

  lemma BitBehind(d: seq<Byte>, i: nat)
    ensures Bit(d, i + 8) == Bit(From(d, 1), i)
  {
  }

  // The eight bits from i + 8 on.
  lemma NextByte(d: seq<Byte>, i: nat)
    ensures Bit(d, i + 8) == Bit(From(d, 1), i) && Bit(d, i + 9) == Bit(From(d, 1), i + 1)
    ensures Bit(d, i + 10) == Bit(From(d, 1), i + 2) && Bit(d, i + 11) == Bit(From(d, 1), i + 3)
    ensures Bit(d, i + 12) == Bit(From(d, 1), i + 4) && Bit(d, i + 13) == Bit(From(d, 1), i + 5)
    ensures Bit(d, i + 14) == Bit(From(d, 1), i + 6) && Bit(d, i + 15) == Bit(From(d, 1), i + 7)
  {
    BitBehind(d, i);
    BitBehind(d, i + 1);
    BitBehind(d, i + 2);
    BitBehind(d, i + 3);
    BitBehind(d, i + 4);
    BitBehind(d, i + 5);
    BitBehind(d, i + 6);
    BitBehind(d, i + 7);
  }

  lemma SixBehind(d: seq<Byte>, i: nat)
    requires |d| >= 3
    ensures SixBits(d, i + 24) == SixBits(d[3..], i)
  {
    ThreeBytes(d, i);
    ThreeBytes(d, i + 1);
    ThreeBytes(d, i + 2);
    ThreeBytes(d, i + 3);
    ThreeBytes(d, i + 4);
    ThreeBytes(d, i + 5);
  }

  lemma ThreeBytes(d: seq<Byte>, i: nat)
    requires |d| >= 3
    ensures Bit(d, i + 24) == Bit(d[3..], i)
  {
    BitBehind(d, i + 16);
    BitBehind(d[1..], i + 8);
    BitBehind(d[2..], i);
    assert d[1..][1..] == d[2..] && d[2..][1..] == d[3..];
  }

  // A byte behind the end counts as zero.
  lemma GroupBits(d: seq<Byte>)
    requires d != []
    ensures S0(d[0]) == SixBits(d, 0) && S1(d[0], At(d, 1)) == SixBits(d, 6)
    ensures S2(At(d, 1), At(d, 2)) == SixBits(d, 12) && S3(At(d, 2)) == SixBits(d, 18)
  {
    SextetBits(d[0], At(d, 1), At(d, 2));
    var e, f := From(d, 1), From(From(d, 1), 1);
    FirstBits(d);
    FirstBits(e);
    FirstBits(f);
    NextByte(d, 0);
    NextByte(e, 0);
    NextByte(d, 8);
  }

  // Symbol j stands for the six bits from 6 * j on, as long as there are any; then come fill characters.
  lemma {:induction false} EncodedBits(cvt: seq<char>, d: seq<Byte>, j: nat)
    requires |cvt| == 64 && j < |Encoded(cvt, d)|
    ensures 0 <= SixBits(d, 6 * j) < 64
    ensures Encoded(cvt, d)[j] == if 6 * j < 8 * |d| then cvt[SixBits(d, 6 * j)] else FILL
  {
    EncodedRest(cvt, d, j);
    if j < 4 {
      FirstSymbols(cvt, d, j);
    } else {
      EncodedBits(cvt, d[3..], j - 4);
      LaterSymbols(cvt, d, j);
    }
  }

  lemma LaterSymbols(cvt: seq<char>, d: seq<Byte>, j: nat)
    requires |cvt| == 64 && |d| >= 3 && j >= 4
    ensures SixBits(d, 6 * j) == SixBits(d[3..], 6 * (j - 4))
    ensures 6 * j < 8 * |d| <==> 6 * (j - 4) < 8 * |d[3..]|
  {
    var i: nat := j - 4;
    SixBehind(d, 6 * i);
    assert 6 * j == 6 * i + 24;
  }

  lemma EncodedRest(cvt: seq<char>, d: seq<Byte>, j: nat)
    requires |cvt| == 64 && j < |Encoded(cvt, d)|
    ensures d != [] && (j < 4 ==> Encoded(cvt, d)[j] == GroupAt(cvt, d, 0)[j])
    ensures j >= 4 ==>
      |d| >= 3 && j - 4 < |Encoded(cvt, d[3..])| && Encoded(cvt, d)[j] == Encoded(cvt, d[3..])[j - 4]
  {
    EncodedAt(cvt, d, 0);
    assert d[0..] == d;
  }

  lemma FirstSymbols(cvt: seq<char>, d: seq<Byte>, j: nat)
    requires |cvt| == 64 && d != [] && j < 4
    ensures 0 <= SixBits(d, 6 * j) < 64
    ensures GroupAt(cvt, d, 0)[j] == if 6 * j < 8 * |d| then cvt[SixBits(d, 6 * j)] else FILL
  {
    GroupBits(d);
    assert j in {0, 1, 2, 3};
  }

  // The first group of an encoding and the rest of it.
  lemma FirstGroup(cvt: seq<char>, d: seq<Byte>) returns (p: Sextet, q: Sextet, r: Sextet, t: Sextet)
    requires Alphabet(cvt) && |d| >= 3
    ensures Encoded(cvt, d) == [cvt[p], cvt[q], cvt[r], cvt[t]] + Encoded(cvt, d[3..])
    ensures [B0(p, q), B1(q, r), B2(r, t)] == d[..3]
  {
    p, q, r, t := S0(d[0]), S1(d[0], d[1]), S2(d[1], d[2]), S3(d[2]);
    BytesBack(d[0], d[1], d[2]);
  }

  lemma LastByte(cvt: seq<char>, d: seq<Byte>) returns (p: Sextet, q: Sextet)
    requires Alphabet(cvt) && |d| == 1
    ensures Encoded(cvt, d) == [cvt[p], cvt[q], FILL, FILL] && [B0(p, q)] == d
  {
    p, q := S0(d[0]), S1(d[0], 0);
    TopByteBack(d[0], 0);
  }

  lemma LastTwo(cvt: seq<char>, d: seq<Byte>) returns (p: Sextet, q: Sextet, r: Sextet)
    requires Alphabet(cvt) && |d| == 2
    ensures Encoded(cvt, d) == [cvt[p], cvt[q], cvt[r], FILL] && [B0(p, q), B1(q, r)] == d
  {
    p, q, r := S0(d[0]), S1(d[0], d[1]), S2(d[1], 0);
    BytesBack(d[0], d[1], 0);
  }

  // Decoding what has been encoded gives the same bytes.
  lemma {:induction false} RoundTrip(cvt: seq<char>, d: seq<Byte>)
    requires Alphabet(cvt)
    ensures WellFormed(cvt, Encoded(cvt, d)) && Decoded(cvt, Encoded(cvt, d)) == d
  {
    if |d| >= 3 {
      var p, q, r, t := FirstGroup(cvt, d);
      RoundTrip(cvt, d[3..]);
      FullGroup(cvt, p, q, r, t, Encoded(cvt, d[3..]));
      assert d == d[..3] + d[3..];
    } else if |d| == 2 {
      var p, q, r := LastTwo(cvt, d);
      LastGroups(cvt, p, q, r, [FILL]);
      assert Encoded(cvt, d) == [cvt[p], cvt[q], cvt[r]] + [FILL];
    } else if |d| == 1 {
      var p, q := LastByte(cvt, d);
      LastGroups(cvt, p, q, 0, [FILL, FILL]);
      assert Encoded(cvt, d) == [cvt[p], cvt[q]] + [FILL, FILL];
    }
  }

  // The symbols before the first fill character.
  function Unfilled(s: seq<char>): (r: seq<char>)
    ensures r <= s && FILL !in r && (|r| < |s| ==> s[|r|] == FILL)
  {
    if s == [] || s[0] == FILL then [] else [s[0]] + Unfilled(s[1..])
  }

  // The fill characters are not needed.
  lemma {:induction false} RoundTripUnfilled(cvt: seq<char>, d: seq<Byte>)
    requires Alphabet(cvt)
    ensures var s := Unfilled(Encoded(cvt, d)); WellFormed(cvt, s) && Decoded(cvt, s) == d
  {
    if |d| >= 3 {
      var p, q, r, t := FirstGroup(cvt, d);
      var rest := Encoded(cvt, d[3..]);
      RoundTripUnfilled(cvt, d[3..]);
      FullGroup(cvt, p, q, r, t, Unfilled(rest));
      UnfilledGroup(cvt, [cvt[p], cvt[q], cvt[r], cvt[t]], rest);
      assert d == d[..3] + d[3..];
    } else if d != [] {
      ShortUnfilled(cvt, d);
    }
  }

  lemma ShortUnfilled(cvt: seq<char>, d: seq<Byte>)
    requires Alphabet(cvt) && 0 < |d| < 3
    ensures var s := Unfilled(Encoded(cvt, d)); WellFormed(cvt, s) && Decoded(cvt, s) == d
  {
    if |d| == 2 {
      var p, q, r := LastTwo(cvt, d);
      LastGroups(cvt, p, q, r, []);
      UnfilledGroup(cvt, [cvt[p], cvt[q], cvt[r]], [FILL]);
      assert Encoded(cvt, d) == [cvt[p], cvt[q], cvt[r]] + [FILL];
      assert Unfilled(Encoded(cvt, d)) == [cvt[p], cvt[q], cvt[r]] + [];
    } else {
      var p, q := LastByte(cvt, d);
      LastGroups(cvt, p, q, 0, []);
      UnfilledGroup(cvt, [cvt[p], cvt[q]], [FILL, FILL]);
      assert Encoded(cvt, d) == [cvt[p], cvt[q]] + [FILL, FILL];
      assert Unfilled(Encoded(cvt, d)) == [cvt[p], cvt[q]] + [];
    }
  }

  lemma {:induction false} UnfilledGroup(cvt: seq<char>, g: seq<char>, s: seq<char>)
    requires Alphabet(cvt) && forall i :: 0 <= i < |g| ==> g[i] in cvt
    ensures Unfilled(g + s) == g + Unfilled(s)
  {
    if g == [] {
      assert g + s == s;
    } else {
      var k :| 0 <= k < |cvt| && cvt[k] == g[0];
      ValueSymbol(cvt, k);
      assert (g + s)[1..] == g[1..] + s;
      UnfilledGroup(cvt, g[1..], s);
    }
  }

  // ---------------------------------------------------------------- the emulator's encoder and decoder

  ghost function From<T>(s: seq<T>, i: nat): seq<T> { if i <= |s| then s[i..] else [] }

  // Byte i, or zero behind the end.
  function At(d: seq<Byte>, i: nat): Byte { if i < |d| then d[i] else 0 }

  // The symbols of the group that begins at index i.
  function GroupAt(cvt: seq<char>, d: seq<Byte>, i: nat): seq<char>
    requires |cvt| == 64 && i < |d|
  {
    [cvt[S0(d[i])], cvt[S1(d[i], At(d, i + 1))],
     if i + 1 < |d| then cvt[S2(d[i + 1], At(d, i + 2))] else FILL,
     if i + 2 < |d| then cvt[S3(d[i + 2])] else FILL]
  }

  lemma EncodedAt(cvt: seq<char>, d: seq<Byte>, i: nat)
    requires |cvt| == 64 && i < |d|
    ensures Encoded(cvt, d[i..]) == GroupAt(cvt, d, i) + Encoded(cvt, From(d, i + 3))
  {
    var e := d[i..];
    assert e[0] == d[i] && (|e| > 1 ==> e[1] == d[i + 1]) && (|e| > 2 ==> e[2] == d[i + 2] && e[3..] == d[i + 3..]);
  }

  // Shifts and masks are written as multiplications, divisions and remainders.
  method EncodeB64(cvt: seq<char>, data: seq<Byte>) returns (ret: seq<char>)
    requires Alphabet(cvt)
    ensures ret == Encoded(cvt, data)
  {
    ret := [];
    var i := 0;
    while i < |data|
      invariant ret + Encoded(cvt, From(data, i)) == Encoded(cvt, data)
      decreases |data| - i
    {
      var g;
      g, i := EncodeNext(cvt, data, i);
      ret := ret + g;
    }
  }

  method EncodeNext(cvt: seq<char>, data: seq<Byte>, start: nat) returns (g: seq<char>, i: nat)
    requires Alphabet(cvt) && start < |data|
    ensures Encoded(cvt, From(data, start)) == g + Encoded(cvt, From(data, i)) && i == start + 3
  {
    EncodedAt(cvt, data, start);
    g, i := EncodeGroup(cvt, data, start);
  }

  method EncodeGroup(cvt: seq<char>, data: seq<Byte>, start: nat) returns (g: seq<char>, i: nat)
    requires Alphabet(cvt) && start < |data|
    ensures g == GroupAt(cvt, data, start) && i == start + 3
  {
    i := start;
    var c: int := data[i] / 4;
    g := [cvt[c]];
    c := data[i] % 4 * 16;
    i := i + 1;
    if i < |data| { c := c + data[i] / 16; }
    g := g + [cvt[c]];
    if i < |data| {
      c := data[i] % 16 * 4;
      i := i + 1;
      if i < |data| { c := c + data[i] / 64; }
      g := g + [cvt[c]];
    } else {
      i := i + 1;
      g := g + [FILL];
    }
    if i < |data| {
      g := g + [cvt[data[i] % 64]];
    } else {
      g := g + [FILL];
    }
    i := i + 1;
  }

  method DecodeB64(cvt: seq<char>, data: seq<char>) returns (ret: seq<Byte>)
    requires Alphabet(cvt) && WellFormed(cvt, data)
    ensures ret == Decoded(cvt, data)
  {
    ret := [];
    var i := 0;
    while i < |data|
      invariant WellFormed(cvt, From(data, i)) && ret + Decoded(cvt, From(data, i)) == Decoded(cvt, data)
      decreases |data| - i
    {
      var g, filled;
      g, i, filled := DecodeGroup(cvt, data, i);
      ret := ret + g;
      if filled { break; }
    }
  }

  // One group, up to a fill character if there is one.
  method DecodeGroup(cvt: seq<char>, data: seq<char>, start: nat) returns (g: seq<Byte>, i: nat, filled: bool)
    requires Alphabet(cvt) && start < |data| && WellFormed(cvt, data[start..])
    ensures i > start && WellFormed(cvt, From(data, i))
    ensures Decoded(cvt, data[start..]) == if filled then g else g + Decoded(cvt, From(data, i))
  {
    ghost var rest := data[start..];
    i := start;
    var p := Find(cvt, data[i]);
    i := i + 1;
    var q := Find(cvt, data[i]);
    ValueSymbol(cvt, p);
    ValueSymbol(cvt, q);
    g := [B0(p, q)];
    var r: Sextet := 0;
    i := i + 1;
    if i < |data| {
      if data[i] == FILL { return g, |data|, true; }
      r := Find(cvt, data[i]);
      ValueSymbol(cvt, r);
      g := g + [B1(q, r)];
    }
    i := i + 1;
    if i < |data| {
      if data[i] == FILL { return g, |data|, true; }
      var t := Find(cvt, data[i]);
      ValueSymbol(cvt, t);
      g := g + [B2(r, t)];
    }
    i := i + 1;
    filled := false;
    assert i <= |data| ==> rest[4..] == data[i..];
  }

  method EncodeAndDecode(data: seq<Byte>) returns (back: seq<Byte>)
    ensures back == data
  {
    CvtIsAlphabet();
    var s := EncodeB64(CVT, data);
    RoundTrip(CVT, data);
    back := DecodeB64(CVT, s);
  }
}

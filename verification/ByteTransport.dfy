// Sending a byte string in fragments through buffers of any size: the receiver gets the same bytes,
// and both sides agree after each fragment on whether more is to come.
module ByteTransport {

  type Byte = x: int | 0 <= x < 256

  const S_BIT := 128
  const NUMBER_MAX_SIZE := 5
  const DIF_MAX_SIZE := 1
  const DIF_EXT_CONT: Byte := 50
  const EXT_BYTE_STRING := 3
  const UINT_LIMIT := 0x1_0000_0000

  // ---------------------------------------------------------------- numbers

  // Seven bits a byte, the low ones first; the high bit says that more follow.
  function Encode(n: nat): (r: seq<Byte>)
    ensures |r| > 0
  {
    if n < S_BIT then [n] else [n % S_BIT + S_BIT] + Encode(n / S_BIT)
  }

  function Power(k: nat): (p: nat)
    ensures p > 0
  {
    if k == 0 then 1 else S_BIT * Power(k - 1)
  }

  // Byte i has the digit of weight 128^i, and says whether it is the last one; the highest digit is not zero, unless
  // it is the only one.
  lemma {:induction false} EncodeDigits(n: nat, i: nat)
    requires i < |Encode(n)|
    ensures Encode(n)[i] % 128 == n / Power(i) % 128
    ensures Encode(n)[i] >= 128 <==> i + 1 < |Encode(n)|
    ensures |Encode(n)| > 1 ==> Encode(n)[|Encode(n)| - 1] > 0
  {
    if n >= 128 {
      assert Encode(n)[1..] == Encode(n / 128);
      if i > 0 {
        EncodeDigits(n / 128, i - 1);
        DivideTwice(n, Power(i - 1));
      } else {
        EncodeDigits(n / 128, 0);
      }
    }
  }

  lemma DivideTwice(n: nat, p: nat)
    requires p > 0
    ensures n / 128 / p == n / (128 * p)
  {
    var q, r := n / 128 / p, n / 128 % p;
    assert n / 128 == q * p + r;
    var s := n % 128;
    assert n == 128 * (q * p + r) + s == (128 * p) * q + (128 * r + s);
    assert 128 * r + s < 128 * p;
    QuotientIs(n, 128 * p, q, 128 * r + s);
  }

  lemma QuotientIs(n: nat, m: nat, q: nat, r: nat)
    requires n == m * q + r && r < m
    ensures n / m == q
  {
    var k := n / m;
    assert m * k <= n < m * k + m;
    if k < q {
      Multiples(m, k, q);
    } else if k > q {
      Multiples(m, q, k);
    }
  }

  lemma Multiples(m: nat, k: nat, q: nat)
    requires k < q
    ensures m * q >= m * k + m
  {
    Multiple(m, q - k);
    assert m * q == m * k + m * (q - k);
  }

  lemma Multiple(m: nat, k: nat)
    requires k > 0
    ensures m * k >= m
  {
  }

  lemma {:induction false} EncodeLength(n: nat, k: nat)
    requires k > 0 && n < Power(k)
    ensures |Encode(n)| <= k
  {
    if n >= S_BIT {
      assert k > 1 by { assert Power(1) == S_BIT * Power(0); }
      assert Power(k) == S_BIT * Power(k - 1);
      EncodeLength(n / S_BIT, k - 1);
    }
  }

  // A number of 32 bits takes at most five bytes.
  lemma NumberFits(n: nat)
    requires n < UINT_LIMIT
    ensures |Encode(n)| <= NUMBER_MAX_SIZE
  {
    assert Power(1) == 128 && Power(2) == 16384 && Power(3) == 2097152 && Power(4) == 268435456
      && Power(5) == 34359738368;
    EncodeLength(n, 5);
  }

  // ---------------------------------------------------------------- buffers

  class ByteBuffer {
    var bytes: seq<Byte>
    var pos: nat          // of the next byte to read
    const room: nat

    constructor (room: nat)
      ensures bytes == [] && pos == 0 && this.room == room
    {
      bytes, pos, this.room := [], 0, room;
    }

    function AvailableSpace(): int
      reads this
    {
      room - |bytes|
    }

    method Put(b: Byte)
      requires AvailableSpace() > 0
      modifies this`bytes
      ensures bytes == old(bytes) + [b]
    {
      bytes := bytes + [b];
    }

    // What is still to be read.
    ghost function Ahead(): seq<Byte>
      reads this
    {
      if pos <= |bytes| then bytes[pos..] else []
    }

    method Get() returns (b: Byte)
      requires |Ahead()| > 0
      modifies this`pos
      ensures b == old(Ahead())[0] && Ahead() == old(Ahead())[1..] && bytes == old(bytes)
    {
      b := bytes[pos];
      pos := pos + 1;
    }

    method MarshalNumber(n: nat)
      requires AvailableSpace() >= |Encode(n)|
      modifies this`bytes
      ensures bytes == old(bytes) + Encode(n)
    {
      var i: nat := n;
      ghost var goal := bytes + Encode(n);
      while i >= S_BIT
        invariant bytes + Encode(i) == goal && AvailableSpace() >= |Encode(i)|
      {
        assert bytes + Encode(i) == (bytes + [i % S_BIT + S_BIT]) + Encode(i / S_BIT);
        var low: Byte := i % S_BIT + S_BIT;
        Put(low);
        i := i / S_BIT;
      }
      Put(i);
    }

    method UnmarshalNumber(ghost n: nat, ghost rest: seq<Byte>) returns (r: nat)
      requires Ahead() == Encode(n) + rest
      modifies this`pos
      ensures r == n && Ahead() == rest
    {
      ghost var m: nat := n;
      var weight: nat := 1;
      r := 0;
      First(m, rest);
      assert Rest(0, 1, m, n);
      var c := Get();
      while c >= S_BIT
        invariant Rest(r, weight, m, n) && c == Encode(m)[0] && Ahead() == Encode(m)[1..] + rest
        decreases m
      {
        First(m / S_BIT, rest);
        r, weight := AddDigit(r, weight, c, m, n);
        m := m / S_BIT;
        c := Get();
      }
      r := AddLast(r, weight, c, n);
    }

    // Seven more bits.
    static method AddDigit(r: nat, weight: nat, c: Byte, ghost m: nat, ghost n: nat) returns (r': nat, weight': nat)
      requires Rest(r, weight, m, n) && c == m % S_BIT + S_BIT
      ensures Rest(r', weight', m / S_BIT, n)
    {
      Digit(r, weight, m, n);
      r' := r + (c - S_BIT) * weight;
      weight' := weight * S_BIT;
    }

    static method AddLast(r: nat, weight: nat, c: Byte, ghost n: nat) returns (r': nat)
      requires Rest(r, weight, c, n)
      ensures r' == n
    {
      r' := r + c * weight;
    }
  }

  lemma First(m: nat, rest: seq<Byte>)
    ensures var s := Encode(m) + rest; |s| > 0 && s[0] == Encode(m)[0] && s[1..] == Encode(m)[1..] + rest
  {
  }

  // n is r and m of the given weight.
  ghost predicate Rest(r: nat, weight: nat, m: nat, n: nat) { r + weight * m == n }

  lemma Digit(r: nat, w: nat, m: nat, n: nat)
    requires r + w * m == n
    ensures (r + (m % S_BIT) * w) + (w * S_BIT) * (m / S_BIT) == n
  {
    var q, d := m / S_BIT, m % S_BIT;
    assert m == S_BIT * q + d;
    assert w * m == w * (S_BIT * q) + w * d;
    assert w * (S_BIT * q) == (w * S_BIT) * q;
  }

  // ---------------------------------------------------------------- descriptors

  // A byte string that is being sent or received.  The current size is what is still to be sent, or
  // what has been received; the index leads to the next byte.
  class ByteStringDesc {
    const data: array<Byte>
    var totalSize: nat
    var currentSize: nat
    var index: nat

    constructor (data: array<Byte>)
      ensures this.data == data && totalSize == 0 && currentSize == 0 && index == 0
    {
      this.data := data;
      totalSize, currentSize, index := 0, 0, 0;
    }

    ghost predicate Sending()
      reads this
    {
      totalSize == data.Length && index + currentSize == totalSize
    }

    ghost predicate Receiving()
      reads this
    {
      totalSize == data.Length && index == currentSize <= totalSize
    }

    // One fragment: its length and its bytes.  The result is whether more has to follow.
    method Marshal(mb: ByteBuffer) returns (suspended: bool)
      requires Sending() && data.Length < UINT_LIMIT && mb.AvailableSpace() > NUMBER_MAX_SIZE
      modifies this`currentSize, this`index, mb`bytes
      ensures Sending() && suspended == (currentSize > 0)
      ensures index - old(index) == if old(currentSize) < old(mb.AvailableSpace()) - NUMBER_MAX_SIZE
        then old(currentSize)
                                    else old(mb.AvailableSpace()) - NUMBER_MAX_SIZE
      ensures mb.bytes == old(mb.bytes) + Encode(index - old(index)) + data[old(index)..index]
    {
      var size := currentSize;
      var availSpace := mb.AvailableSpace() - NUMBER_MAX_SIZE;
      var ms: nat := if availSpace < size then availSpace else size;
      currentSize := currentSize - ms;
      NumberFits(ms);
      mb.MarshalNumber(ms);
      ghost var head, start := mb.bytes, index;
      while ms > 0
        invariant 0 <= ms && index + ms + currentSize == totalSize && index >= start && totalSize == data.Length
        invariant index + ms == start + (if availSpace < size then availSpace else size)
        invariant mb.bytes == head + data[start..index] && mb.AvailableSpace() >= ms
      {
        mb.Put(data[index]);
        index := index + 1;
        ms := ms - 1;
      }
      suspended := size > availSpace;
    }

    // One fragment is read.  The result is whether the byte string is complete.
    method Unmarshal(mb: ByteBuffer, ghost fragment: seq<Byte>, ghost rest: seq<Byte>) returns (complete: bool)
      requires Receiving() && mb.Ahead() == Encode(|fragment|) + (fragment + rest)
        && currentSize + |fragment| <= totalSize
      modifies this`currentSize, this`index, data, mb`pos
      ensures Receiving() && complete == (currentSize == totalSize) && index == old(index) + |fragment|
      ensures data[..index] == old(data[..index]) + fragment && mb.Ahead() == rest
    {
      var cWidth := mb.UnmarshalNumber(|fragment|, fragment + rest);
      currentSize := currentSize + cWidth;
      ghost var start, before := index, data[..index];
      while cWidth > 0
        invariant 0 <= cWidth <= |fragment| && index + cWidth == currentSize == start + |fragment|
          && totalSize == data.Length
        invariant data[..index] == before + fragment[..index - start] && mb.Ahead() == fragment[index - start..] + rest
      {
        ReadByte(mb, before, fragment, index - start, rest);
        cWidth := cWidth - 1;
      }
      complete := currentSize == totalSize;
    }

    // The k-th byte of a fragment.
    method ReadByte(mb: ByteBuffer, ghost before: seq<Byte>, ghost fragment: seq<Byte>, ghost k: nat,
                    ghost rest: seq<Byte>)
      requires index < data.Length && k < |fragment| && data[..index] == before + fragment[..k]
        && mb.Ahead() == fragment[k..] + rest
      modifies this`index, data, mb`pos
      ensures index == old(index) + 1 && data[..index] == before + fragment[..k + 1]
        && mb.Ahead() == fragment[k + 1..] + rest
    {
      NextByte(fragment, rest, k);
      var b := mb.Get();
      ghost var got := data[..index];
      data[index] := b;
      index := index + 1;
      assert data[..index] == got + [b];
    }
  }

  lemma NextByte(fragment: seq<Byte>, rest: seq<Byte>, k: nat)
    requires k < |fragment|
    ensures var s := fragment[k..] + rest; |s| > 0 && s[0] == fragment[k] && s[1..] == fragment[k + 1..] + rest
    ensures fragment[..k + 1] == fragment[..k] + [fragment[k]]
  {
  }

  // ---------------------------------------------------------------- sender and receiver

  // The first fragment, behind the width of the byte string.
  method MarshalSusp(data: array<Byte>, bs: ByteBuffer) returns (desc: ByteStringDesc, suspended: bool)
    requires data.Length < UINT_LIMIT && bs.AvailableSpace() > 2 * NUMBER_MAX_SIZE
    modifies bs`bytes
    ensures fresh(desc) && desc.data == data && desc.Sending() && suspended == (desc.currentSize > 0)
    ensures bs.bytes == old(bs.bytes) + Encode(data.Length) + (Encode(desc.index) + data[..desc.index])
    ensures data.Length > 0 ==> desc.index > 0
  {
    NumberFits(data.Length);
    bs.MarshalNumber(data.Length);
    desc := new ByteStringDesc(data);
    desc.totalSize, desc.currentSize := data.Length, data.Length;
    suspended := desc.Marshal(bs);
    assert data[0..desc.index] == data[..desc.index];
  }

  // A further fragment, behind a marker and the kind of data that is continued.
  method MarshalCont(desc: ByteStringDesc, bs: ByteBuffer) returns (suspended: bool)
    requires desc.Sending() && desc.currentSize > 0 && desc.data.Length < UINT_LIMIT
    requires bs.AvailableSpace() > DIF_MAX_SIZE + 2 * NUMBER_MAX_SIZE
    modifies desc`currentSize, desc`index, bs`bytes
    ensures desc.Sending() && suspended == (desc.currentSize > 0) && desc.index > old(desc.index)
    ensures bs.bytes == old(bs.bytes) + [DIF_EXT_CONT] + Encode(EXT_BYTE_STRING)
                        + (Encode(desc.index - old(desc.index)) + desc.data[old(desc.index)..desc.index])
  {
    bs.Put(DIF_EXT_CONT);
    NumberFits(EXT_BYTE_STRING);
    bs.MarshalNumber(EXT_BYTE_STRING);
    suspended := desc.Marshal(bs);
  }

  // The receiver's side of the first fragment.
  method UnmarshalSusp(mb: ByteBuffer, ghost width: nat, ghost fragment: seq<Byte>, ghost rest: seq<Byte>)
    returns (desc: ByteStringDesc, complete: bool)
    requires mb.Ahead() == Encode(width) + (Encode(|fragment|) + (fragment + rest)) && |fragment| <= width
    modifies mb`pos
    ensures fresh(desc) && fresh(desc.data) && desc.data.Length == width && desc.Receiving()
      && complete == (desc.currentSize == width)
    ensures desc.index == |fragment| && desc.data[..desc.index] == fragment && mb.Ahead() == rest
  {
    var w := mb.UnmarshalNumber(width, Encode(|fragment|) + (fragment + rest));
    var data := new Byte[w];
    desc := new ByteStringDesc(data);
    desc.totalSize := w;
    complete := desc.Unmarshal(mb, fragment, rest);
  }

  // The receiver's side of a further fragment; the marker and the kind lead to the descriptor.
  method UnmarshalCont(desc: ByteStringDesc, mb: ByteBuffer, ghost fragment: seq<Byte>, ghost rest: seq<Byte>)
    returns (complete: bool)
    requires desc.Receiving() && desc.currentSize + |fragment| <= desc.totalSize
    requires mb.Ahead() == [DIF_EXT_CONT] + (Encode(EXT_BYTE_STRING) + (Encode(|fragment|) + (fragment + rest)))
    modifies desc`currentSize, desc`index, desc.data, mb`pos
    ensures desc.Receiving() && complete == (desc.currentSize == desc.totalSize)
      && desc.index == old(desc.index) + |fragment|
    ensures desc.data[..desc.index] == old(desc.data[..desc.index]) + fragment && mb.Ahead() == rest
  {
    var tag := mb.Get();
    var kind := mb.UnmarshalNumber(EXT_BYTE_STRING, Encode(|fragment|) + (fragment + rest));
    assert tag == DIF_EXT_CONT && kind == EXT_BYTE_STRING;
    complete := desc.Unmarshal(mb, fragment, rest);
  }

  // Both sides have got equally far, with the same bytes.
  ghost predicate Agree(s: ByteStringDesc, r: ByteStringDesc)
    reads s, r, s.data, r.data
  {
    && s.Sending() && r.Receiving() && r.data.Length == s.data.Length && r.index == s.index
    && r.data[..r.index] == s.data[..s.index]
  }

  // The first buffer, on both sides.
  method FirstFragment(data: array<Byte>, room: nat)
    returns (s: ByteStringDesc, r: ByteStringDesc, suspended: bool, complete: bool)
    requires data.Length < UINT_LIMIT && room > 2 * NUMBER_MAX_SIZE
    ensures fresh(s) && fresh(r) && fresh(r.data) && s.data == data && s != r && Agree(s, r)
    ensures suspended == (s.currentSize > 0) && complete == !suspended && (suspended ==> s.index > 0)
  {
    var bs := new ByteBuffer(room);
    s, suspended := MarshalSusp(data, bs);
    ghost var fragment := data[..s.index];
    Framed([], Encode(data.Length), Encode(|fragment|), fragment);
    r, complete := UnmarshalSusp(bs, data.Length, fragment, []);
  }

  // How the parts of a buffer are grouped does not matter.
  lemma Framed(a: seq<Byte>, b: seq<Byte>, c: seq<Byte>, d: seq<Byte>)
    ensures [] + a + b + (c + d) == a + (b + (c + (d + [])))
    ensures b + (c + d) == b + (c + (d + []))
  {
    assert d + [] == d;
    assert a + b + (c + d) == a + (b + (c + d));
  }

  // Another buffer, on the sender's side.
  method SendCont(s: ByteStringDesc, room: nat) returns (bs: ByteBuffer, suspended: bool)
    requires s.Sending() && s.currentSize > 0 && s.data.Length < UINT_LIMIT && room > DIF_MAX_SIZE + 2 * NUMBER_MAX_SIZE
    modifies s`currentSize, s`index
    ensures fresh(bs) && s.Sending() && suspended == (s.currentSize > 0) && s.index > old(s.index)
    ensures var fragment := s.data[..][old(s.index)..s.index];
      bs.Ahead() == [DIF_EXT_CONT] + (Encode(EXT_BYTE_STRING) + (Encode(|fragment|) + (fragment + [])))
  {
    bs := new ByteBuffer(room);
    ghost var from := s.index;
    suspended := MarshalCont(s, bs);
    ghost var fragment := s.data[..][from..s.index];
    assert s.data[from..s.index] == fragment && bs.bytes[0..] == bs.bytes;
    Framed([DIF_EXT_CONT], Encode(EXT_BYTE_STRING), Encode(|fragment|), fragment);
  }

  // Another buffer, on both sides.
  method NextFragment(s: ByteStringDesc, r: ByteStringDesc, room: nat) returns (suspended: bool, complete: bool)
    requires Agree(s, r) && s.currentSize > 0 && s.data.Length < UINT_LIMIT && s != r && s.data != r.data
    requires room > DIF_MAX_SIZE + 2 * NUMBER_MAX_SIZE
    modifies s`currentSize, s`index, r`currentSize, r`index, r.data
    ensures Agree(s, r) && suspended == (s.currentSize > 0) && complete == !suspended && s.index > old(s.index)
  {
    ghost var from, whole := s.index, s.data[..];
    assert r.data[..r.index] == whole[..from];
    var bs;
    bs, suspended := SendCont(s, room);
    ghost var fragment := whole[from..s.index];
    complete := UnmarshalCont(r, bs, fragment, []);
    assert s.data[..s.index] == whole[..from] + fragment;
  }

  // Fragments through buffers with the given room, one buffer after the other.
  method Transfer(data: array<Byte>, rooms: seq<nat>) returns (r: ByteStringDesc, sent: bool, received: bool, used: nat)
    requires data.Length < UINT_LIMIT && |rooms| > 0 && rooms[0] > 2 * NUMBER_MAX_SIZE
    requires forall i :: 0 < i < |rooms| ==> rooms[i] > DIF_MAX_SIZE + 2 * NUMBER_MAX_SIZE
    ensures sent == received && 0 < used <= |rooms|
    ensures r.Receiving() && r.data.Length == data.Length && r.data[..r.index] == data[..r.index]
    ensures received ==> r.data[..] == data[..]
    ensures !received ==> used == |rooms| <= r.index < data.Length
  {
    var s, suspended, complete;
    s, r, suspended, complete := FirstFragment(data, rooms[0]);
    used := 1;
    while suspended && used < |rooms|
      invariant 0 < used <= |rooms| && Agree(s, r) && fresh(s) && fresh(r) && fresh(r.data) && s.data == data && s != r
      invariant suspended == (s.currentSize > 0) && complete == !suspended && (suspended ==> s.index >= used)
    {
      suspended, complete := NextFragment(s, r, rooms[used]);
      used := used + 1;
    }
    sent, received := !suspended, complete;
    if received { assert data[..s.index] == data[..] && r.data[..r.index] == r.data[..]; }
  }

  // With a buffer more than there are bytes the transfer is complete.
  method TransferAll(data: array<Byte>, rooms: seq<nat>) returns (copy: array<Byte>)
    requires data.Length < UINT_LIMIT && |rooms| > data.Length && rooms[0] > 2 * NUMBER_MAX_SIZE
    requires forall i :: 0 < i < |rooms| ==> rooms[i] > DIF_MAX_SIZE + 2 * NUMBER_MAX_SIZE
    ensures copy[..] == data[..]
  {
    var r, _, received, _ := Transfer(data, rooms);
    copy := r.data;
  }
}

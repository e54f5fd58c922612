// The chunked buffer of the pickler: bytes are marshaled into a chain of chunks, accessed for a
// checksum, written out chunk by chunk, and read back from a datum into a chain of chunks again.
module PickleBuffers {

  type Byte = x: int | 0 <= x < 256

  const SIZE := 4096   // of a chunk

  class Chunk {
    var buf: seq<Byte>
    var next: Chunk?

    constructor ()
      ensures |buf| == SIZE && next == null
    {
      buf, next := seq(SIZE, _ => 0), null;
    }
  }

  // How many bytes of a content of length n are in chunk j.
  function Part(n: nat, j: nat): (k: nat)
    ensures k <= SIZE
  {
    if n <= j * SIZE then 0 else if n >= (j + 1) * SIZE then SIZE else n - j * SIZE
  }

  class PickleBuffer {
    var first: Chunk?
    var last: Chunk?
    var current: Chunk?
    var lastChunkSize: int
    var posMB: nat                  // within the chunk that is written or read
    ghost var chunks: seq<Chunk>    // from first to last
    ghost var content: seq<Byte>
    ghost var at: nat               // the index of current

    constructor ()
      ensures Empty() && lastChunkSize == -1 && fresh(Repr())
    {
      first, last, current, lastChunkSize, posMB := null, null, null, -1, 0;
      chunks, content, at := [], [], 0;
    }

    ghost function Repr(): set<Chunk>
      reads `chunks
    {
      set c | c in chunks
    }

    ghost predicate Empty()
      reads this
    {
      first == null && last == null && chunks == [] && content == []
    }

    ghost predicate LinkAt(j: nat)
      reads `chunks, Repr()`buf, Repr()`next
    {
      j < |chunks| && |chunks[j].buf| == SIZE && chunks[j].next == if j + 1 < |chunks| then chunks[j + 1] else null
    }

    // Chunk j has its part of the content.
    ghost predicate PartAt(j: nat)
      reads `chunks, `content, Repr()`buf
    {
      && j < |chunks| && |chunks[j].buf| == SIZE
      && (j * SIZE < |content| ==> chunks[j].buf[..Part(|content|, j)] == content[j * SIZE..j * SIZE
        + Part(|content|, j)])
    }

    ghost predicate Linked()
      reads `chunks, `first, `last, Repr()`buf, Repr()`next
    {
      && |chunks| > 0 && first == chunks[0] && last == chunks[|chunks| - 1]
      && (forall j: nat {:trigger LinkAt(j)} :: j < |chunks| ==> LinkAt(j))
      && (forall i, j {:trigger chunks[i], chunks[j]} :: 0 <= i < j < |chunks| ==> chunks[i] != chunks[j])
    }

    ghost predicate Held()
      reads `chunks, `content, `first, `last, Repr()`buf, Repr()`next
    {
      Linked() && |content| <= |chunks| * SIZE && forall j: nat {:trigger PartAt(j)} :: j < |chunks| ==> PartAt(j)
    }

    // ------------------------------------------------------------ marshaling

    ghost predicate Marshaling()
      reads `chunks, `content, `first, `last, `lastChunkSize, `posMB, Repr()`buf, Repr()`next
    {
      Held() && posMB <= SIZE && |content| == (|chunks| - 1) * SIZE + posMB && lastChunkSize == -1
        && (|chunks| > 1 ==> posMB > 0)
    }

    method MarshalBegin()
      requires Empty() && lastChunkSize == -1
      modifies this
      ensures Marshaling() && content == [] && fresh(Repr())
    {
      first := new Chunk();
      last := first;
      posMB := 0;
      chunks := [first];
      assert LinkAt(0) && PartAt(0);
    }

    method Put(b: Byte)
      requires Marshaling()
      modifies this, Repr()
      ensures Marshaling() && content == old(content) + [b] && fresh(Repr() - old(Repr()))
    {
      if posMB < SIZE {
        PutHere(b);
      } else {
        PutNext(b);
      }
    }

    method PutHere(b: Byte)
      requires Marshaling() && posMB < SIZE
      modifies this`posMB, this`content, last`buf
      ensures Marshaling() && content == old(content) + [b]
    {
      ghost var n := |chunks| - 1;
      assert PartAt(n) && LinkAt(n);
      last.buf := last.buf[posMB := b];
      posMB := posMB + 1;
      content := content + [b];
      forall j: nat | j < |chunks| ensures LinkAt(j) && PartAt(j) { assert old(LinkAt(j)) && old(PartAt(j)); }
    }

    method PutNext(b: Byte)
      requires Marshaling() && posMB == SIZE
      modifies this, last
      ensures Marshaling() && content == old(content) + [b] && chunks == old(chunks) + [last] && fresh(last)
    {
      ghost var n := |chunks| - 1;
      assert LinkAt(n) && PartAt(n);
      var nb := new Chunk();
      nb.buf := nb.buf[0 := b];
      last.next := nb;
      last := nb;
      posMB := 1;
      chunks := chunks + [nb];
      content := content + [b];
      forall j: nat | j < |chunks| ensures LinkAt(j) && PartAt(j) {
        if j < |old(chunks)| {
          assert old(LinkAt(j)) && old(PartAt(j));
          assert Part(|content|, j) == Part(|old(content)|, j) == SIZE;
          assert content[j * SIZE..j * SIZE + SIZE] == old(content)[j * SIZE..j * SIZE + SIZE];
        } else {
          assert content[j * SIZE..j * SIZE + 1] == [b];
        }
      }
    }
  
    method MarshalEnd()
      requires Marshaling()
      modifies this`lastChunkSize
      ensures Full() && content == old(content)
    {
      lastChunkSize := posMB;
    }

    // ------------------------------------------------------------ accessing and writing out

    // Everything is in place, and the size of the last chunk's part is known.
    ghost predicate Full()
      reads `chunks, `content, `first, `last, `lastChunkSize, Repr()`buf, Repr()`next
    {
      Held() && 0 <= lastChunkSize <= SIZE && |content| == (|chunks| - 1) * SIZE + lastChunkSize
    }

    ghost predicate Cursor()
      reads `chunks, `current, `at
    {
      at <= |chunks| && current == if at < |chunks| then chunks[at] else null
    }

    // The size of the current chunk's part.
    method CurrentSize() returns (size: nat)
      requires Full() && Cursor() && at < |chunks|
      ensures Full() && Cursor()
      ensures size == Part(|content|, at) && |current.buf| == SIZE
        && current.buf[..size] == content[at * SIZE..at * SIZE + size]
    {
      assert PartAt(at);
      if current == last {
        size := lastChunkSize;
      } else {
        size := SIZE;
      }
    }

    method AccessFirst() returns (pos: Chunk, size: nat)
      requires Full()
      modifies this`current, this`at
      ensures Full() && Cursor() && at == 0 && pos == chunks[0] && size == Part(|content|, 0) && |pos.buf| == SIZE
        && pos.buf[..size] == content[..size]
    {
      current := first;
      at := 0;
      forall j: nat | j < |chunks| ensures LinkAt(j) && PartAt(j) { assert old(LinkAt(j)) && old(PartAt(j)); }
      pos := current;
      size := CurrentSize();
    }

    method AccessNext() returns (pos: Chunk?, size: nat)
      requires Full() && Cursor()
      ensures Full() && Cursor()
      ensures pos == current
      ensures pos != null ==>
        size == Part(|content|, at) && |pos.buf| == SIZE && pos.buf[..size] == content[at * SIZE..at * SIZE + size]
    {
      pos, size := current, 0;
      if current != null { size := CurrentSize(); }
    }

    method ChunkDone()
      requires Full() && Cursor() && at < |chunks|
      modifies this`current, this`at
      ensures Full() && Cursor() && at == old(at) + 1
    {
      assert LinkAt(at);
      current := current.next;
      at := at + 1;
    }

    // What is still to be written is in the chunks that are left.
    ghost predicate Draining()
      reads `chunks, `content, `first, `last, `lastChunkSize, `current, Repr()`buf, Repr()`next
    {
      if chunks == [] then first == null && current == null && content == []
        else Full() && current == first && lastChunkSize > 0
    }

    method UnlinkFirst() returns (pos: Chunk, size: nat)
      requires Full() && lastChunkSize > 0
      modifies this`current, this`at
      ensures Draining() && at == 0 && pos == chunks[0] && size == Part(|content|, 0) && size > 0 && |pos.buf| == SIZE
        && pos.buf[..size] == content[..size]
    {
      pos, size := AccessFirst();
    }

    method UnlinkNext() returns (pos: Chunk?, size: nat)
      requires Draining() && at == 0
      ensures Draining()
      ensures pos == current && (pos == null <==> content == [])
      ensures pos != null ==>
        size == Part(|content|, 0) && size > 0 && |pos.buf| == SIZE && pos.buf[..size] == content[..size]
    {
      pos, size := current, 0;
      if current != null { size := CurrentSize(); }
    }

    // The first chunk is gone, and with it its part of the content.
    method ChunkWritten()
      requires Draining() && chunks != [] && at == 0
      modifies this`first, this`current, this`chunks, this`content
      ensures Draining() && content == old(content)[Part(old(|content|), 0)..] && chunks == old(chunks)[1..]
    {
      assert LinkAt(0);
      var nb := current.next;
      first, current := nb, nb;
      ghost var k := Part(|content|, 0);
      content := content[k..];
      chunks := chunks[1..];
      forall j: nat | j < |chunks| ensures LinkAt(j) && PartAt(j) {
        assert old(LinkAt(j + 1)) && old(PartAt(j + 1));
        assert k == SIZE;
        assert content[j * SIZE..j * SIZE + Part(|content|, j)] ==
          old(content)[(j + 1) * SIZE..(j + 1) * SIZE + Part(|content|, j)];
      }
    }
  
    // ------------------------------------------------------------ loading

    // All chunks but the last one are full, and the last one waits to be filled.
    ghost predicate Loading()
      reads `chunks, `content, `first, `last, Repr()`buf, Repr()`next
    {
      Held() && |content| == (|chunks| - 1) * SIZE
    }

    method AllocateFirst() returns (pos: Chunk, size: nat)
      requires Empty()
      modifies this
      ensures Loading() && content == [] && pos == last && size == SIZE && chunks == [pos] && fresh(pos)
    {
      first := new Chunk();
      last := first;
      chunks := [first];
      assert LinkAt(0) && PartAt(0);
      pos, size := first, SIZE;
    }

    method AllocateNext() returns (pos: Chunk, size: nat)
      requires Full() && lastChunkSize == SIZE
      modifies this, last
      ensures Loading() && content == old(content) && pos == last && size == SIZE && chunks == old(chunks) + [last]
        && fresh(last)
      ensures fresh(Repr() - old(Repr()))
    {
      ghost var n := |chunks| - 1;
      assert LinkAt(n) && PartAt(n);
      var nb := new Chunk();
      last.next := nb;
      last := nb;
      chunks := chunks + [nb];
      forall j: nat | j < |chunks| ensures LinkAt(j) && PartAt(j) {
        assert j < |old(chunks)| ==> old(LinkAt(j)) && old(PartAt(j));
      }
      pos, size := nb, SIZE;
    }

    // The last chunk has been filled with `got`, which becomes part of the content.
    method ChunkRead(sizeReadIn: nat, ghost got: seq<Byte>)
      requires Linked() && |content| == (|chunks| - 1) * SIZE && sizeReadIn == |got| <= SIZE && |last.buf| == SIZE
        && last.buf[..sizeReadIn] == got
      requires forall j: nat {:trigger PartAt(j)} :: j < |chunks| - 1 ==> PartAt(j)
      modifies this`lastChunkSize, this`content
      ensures Full() && content == old(content) + got && lastChunkSize == sizeReadIn
    {
      lastChunkSize := sizeReadIn;
      content := content + got;
      forall j: nat | j < |chunks| ensures LinkAt(j) && PartAt(j) {
        assert old(LinkAt(j));
        if j < |chunks| - 1 {
          assert old(PartAt(j));
          assert content[j * SIZE..j * SIZE + SIZE] == old(content)[j * SIZE..j * SIZE + SIZE];
        } else {
          assert content[j * SIZE..j * SIZE + |got|] == got;
        }
      }
    }

    // ------------------------------------------------------------ unmarshaling

    ghost predicate Reading()
      reads `chunks, `content, `first, `last, `current, `at, `posMB, Repr()`buf, Repr()`next
    {
      Held() && at < |chunks| && current == chunks[at] && posMB <= SIZE
    }

    ghost function ReadPos(): nat
      reads `at, `posMB
    {
      at * SIZE + posMB
    }

    method UnmarshalBegin()
      requires Held()
      modifies this`current, this`posMB, this`at
      ensures Reading() && ReadPos() == 0
    {
      current := first;
      posMB := 0;
      at := 0;
      forall j: nat | j < |chunks| ensures LinkAt(j) && PartAt(j) { assert old(LinkAt(j)) && old(PartAt(j)); }
    }

    method Get() returns (b: Byte)
      requires Reading()
      modifies this, last
      ensures Reading() && content == old(content) && ReadPos() == old(ReadPos()) + 1 && fresh(Repr() - old(Repr()))
      ensures old(ReadPos()) < |content| ==> b == content[old(ReadPos())] && chunks == old(chunks)
    {
      if posMB < SIZE {
        assert PartAt(at);
        assert ReadPos() < |content| ==> current.buf[posMB] == current.buf[..Part(|content|, at)][posMB];
        b := current.buf[posMB];
        posMB := posMB + 1;
        forall j: nat | j < |chunks| ensures LinkAt(j) && PartAt(j) { assert old(LinkAt(j)) && old(PartAt(j)); }
      } else {
        b := GetNext();
      }
    }

    // Behind the last chunk another one, with zeroes.
    method Extend() returns (c: Chunk)
      requires Held()
      modifies this`chunks, this`last, last
      ensures Held() && chunks == old(chunks) + [c] && last == c && fresh(c)
    {
      ghost var n := |chunks| - 1;
      assert LinkAt(n) && PartAt(n);
      c := new Chunk();
      last.next := c;
      last := c;
      chunks := chunks + [c];
      forall j: nat | j < |chunks| ensures LinkAt(j) && PartAt(j) {
        assert j < |old(chunks)| ==> old(LinkAt(j)) && old(PartAt(j));
      }
    }

    // The next chunk, an extra one if need be.
    method GetNext() returns (b: Byte)
      requires Reading() && posMB == SIZE
      modifies this, last
      ensures Reading() && content == old(content) && ReadPos() == old(ReadPos()) + 1 && fresh(Repr() - old(Repr()))
      ensures old(ReadPos()) < |content| ==> b == content[old(ReadPos())] && chunks == old(chunks)
    {
      assert LinkAt(at);
      var c := current.next;
      if c == null { c := Extend(); }
      b := EnterChunk(c);
    }

    method EnterChunk(c: Chunk) returns (b: Byte)
      requires Reading() && posMB == SIZE && at + 1 < |chunks| && c == chunks[at + 1]
      modifies this`current, this`at, this`posMB
      ensures Reading() && ReadPos() == old(ReadPos()) + 1
        && (old(ReadPos()) < |content| ==> b == content[old(ReadPos())])
    {
      assert LinkAt(at + 1) && PartAt(at + 1);
      current := c;
      at := at + 1;
      b := current.buf[0];
      posMB := 1;
      assert at * SIZE < |content| ==> b == current.buf[..Part(|content|, at)][0];
      forall j: nat | j < |chunks| ensures LinkAt(j) && PartAt(j) { assert old(LinkAt(j)) && old(PartAt(j)); }
    }
  }

  // ---------------------------------------------------------------- sinks and sources

  class ByteSinkDatum {
    var data: array<Byte>
    var idx: nat

    constructor ()
      ensures idx == 0 && fresh(data)
    {
      data, idx := new Byte[0], 0;
    }

    ghost function Written(): seq<Byte>
      requires idx <= data.Length
      reads this, data
    {
      data[..idx]
    }

    method AllocateBytes(n: nat)
      requires idx == 0
      modifies this`data
      ensures fresh(data) && data.Length == n && Written() == []
    {
      data := new Byte[n];
    }

    method PutBytes(pos: Chunk, len: nat)
      requires len <= |pos.buf| && idx + len <= data.Length
      modifies this`idx, data
      ensures idx == old(idx) + len && Written() == old(Written()) + pos.buf[..len]
    {
      ghost var before := Written();
      var i := 0;
      while i < len
        invariant 0 <= i <= len && idx == old(idx) && data[..idx + i] == before + pos.buf[..i]
      {
        data[idx + i] := pos.buf[i];
        i := i + 1;
      }
      idx := idx + len;
    }
  }

  // How one byte changes a checksum.
  type Update = (int, Byte) -> int

  const INIT_CRC := 0

  // The checksum crc after more bytes.
  function UpdateCrc(update: Update, crc: int, bytes: seq<Byte>): int {
    if bytes == [] then crc else update(UpdateCrc(update, crc, bytes[..|bytes| - 1]), bytes[|bytes| - 1])
  }

  // Each byte changes the checksum once, the first one first.
  lemma UpdateStep(update: Update, crc: int, bytes: seq<Byte>, i: nat)
    requires i < |bytes|
    ensures UpdateCrc(update, crc, bytes[..i + 1]) == update(UpdateCrc(update, crc, bytes[..i]), bytes[i])
    ensures UpdateCrc(update, crc, []) == crc
  {
    assert bytes[..i + 1][..i] == bytes[..i];
  }

  // It does not matter how the bytes are cut into chunks.
  lemma {:induction false} UpdateTwice(update: Update, crc: int, s: seq<Byte>, t: seq<Byte>)
    ensures UpdateCrc(update, UpdateCrc(update, crc, s), t) == UpdateCrc(update, crc, s + t)
  {
    if t == [] {
      assert s + t == s;
    } else {
      UpdateTwice(update, crc, s, t[..|t| - 1]);
      assert (s + t)[..|s + t| - 1] == s + t[..|t| - 1];
    }
  }

  // Marshal the bytes into a buffer.
  method MarshalBytes(bytes: seq<Byte>) returns (pb: PickleBuffer)
    requires bytes != []
    ensures pb.Full() && pb.lastChunkSize > 0 && pb.content == bytes && fresh(pb) && fresh(pb.Repr())
  {
    pb := new PickleBuffer();
    pb.MarshalBegin();
    var i := 0;
    while i < |bytes|
      invariant 0 <= i <= |bytes| && pb.Marshaling() && pb.content == bytes[..i] && fresh(pb) && fresh(pb.Repr())
    {
      pb.Put(bytes[i]);
      i := i + 1;
    }
    pb.MarshalEnd();
    assert bytes[..i] == bytes;
  }

  // Marshal the bytes, compute the checksum, and write them out.
  method PutTerm(bytes: seq<Byte>, sink: ByteSinkDatum, update: Update) returns (crc: int)
    requires bytes != [] && sink.idx == 0
    modifies sink
    ensures crc == UpdateCrc(update, INIT_CRC, bytes) && sink.data[..] == bytes && fresh(sink.data)
  {
    var pb := MarshalBytes(bytes);
    var total;
    total, crc := Checksum(pb, update);
    sink.AllocateBytes(total);
    WriteOut(pb, sink, total);
    assert sink.data[..] == sink.data[..sink.idx];
  }

  // The checksum of the chunks, and how many bytes there are.
  method Checksum(pb: PickleBuffer, update: Update) returns (total: nat, crc: int)
    requires pb.Full()
    modifies pb`current, pb`at
    ensures pb.Full() && total == |pb.content| && crc == UpdateCrc(update, INIT_CRC, pb.content)
  {
    ghost var all := pb.content;
    total, crc := 0, INIT_CRC;
    ghost var summed := [];
    var pos: Chunk?, len := pb.AccessFirst();
    while true
      invariant pb.Full() && pb.Cursor() && pb.at < |pb.chunks| && pos == pb.current && pos != null
      invariant len == Part(|all|, pb.at) && |pos.buf| == SIZE
        && pos.buf[..len] == all[pb.at * SIZE..pb.at * SIZE + len]
      invariant summed == all[..pb.at * SIZE] && total == |summed| && crc == UpdateCrc(update, INIT_CRC, summed)
      decreases |pb.chunks| - pb.at
    {
      total := total + len;
      UpdateTwice(update, INIT_CRC, summed, pos.buf[..len]);
      crc := UpdateCrc(update, crc, pos.buf[..len]);
      summed := summed + pos.buf[..len];
      pb.ChunkDone();
      pos, len := pb.AccessNext();
      if pos == null { break; }
    }
    assert summed == all;
  }

  // Chunk after chunk is written out and deleted.
  method WriteOut(pb: PickleBuffer, sink: ByteSinkDatum, size: nat)
    requires pb.Full() && pb.lastChunkSize > 0 && size == |pb.content| && sink.data.Length == size && sink.idx == 0
    modifies pb`current, pb`at, pb`first, pb`chunks, pb`content, sink`idx, sink.data
    ensures sink.idx == size && sink.Written() == old(pb.content) && pb.chunks == [] && pb.first == null
  {
    ghost var all := pb.content;
    var total := size;
    var pos: Chunk?, len := pb.UnlinkFirst();
    while true
      invariant pb.Draining() && pb.at == 0 && pb.chunks != [] && pos == pb.current && pos != null
        && total == |pb.content|
      invariant len == Part(total, 0) && len > 0 && |pos.buf| == SIZE && pos.buf[..len] == pb.content[..len]
      invariant sink.idx + total == size == sink.data.Length && sink.data == old(sink.data)
        && sink.Written() + pb.content == all
      decreases total
    {
      total := total - len;
      WriteChunk(pb, sink, pos, len);
      pos, len := pb.UnlinkNext();
      if total == 0 { break; }
    }
  }

  // The first chunk is written out and deleted.
  method WriteChunk(pb: PickleBuffer, sink: ByteSinkDatum, pos: Chunk, len: nat)
    requires pb.Draining() && pb.at == 0 && pb.chunks != [] && pos == pb.current && len == Part(|pb.content|, 0)
    requires |pos.buf| == SIZE && len <= |pb.content| && pos.buf[..len] == pb.content[..len]
      && sink.idx + len <= sink.data.Length
    modifies pb`current, pb`first, pb`chunks, pb`content, sink`idx, sink.data
    ensures pb.Draining() && sink.idx == old(sink.idx) + len && |pb.content| == old(|pb.content|) - len
    ensures sink.Written() + pb.content == old(sink.Written()) + old(pb.content)
  {
    ghost var rest := pb.content;
    sink.PutBytes(pos, len);
    forall j: nat | j < |pb.chunks| ensures pb.LinkAt(j)
      && pb.PartAt(j) { assert old(pb.LinkAt(j)) && old(pb.PartAt(j)); }
    pb.ChunkWritten();
    assert rest == rest[..len] + pb.content;
  }

  // A file gives the checksum in its header, a datum gives none.
  datatype CheckSum = Given(crc: int) | NotGiven

  class ByteSource {
    const dat: seq<Byte>
    const checkSum: CheckSum
    var idx: nat

    constructor (dat: seq<Byte>, checkSum: CheckSum)
      ensures this.dat == dat && this.checkSum == checkSum && idx == 0
    {
      this.dat, this.checkSum, idx := dat, checkSum, 0;
    }

    predicate CheckChecksum(crc: int) { checkSum.Given? ==> checkSum.crc == crc }

    // The next bytes, as many as there are and fit.
    method GetBytes(pos: Chunk, max: nat) returns (got: nat)
      requires max <= |pos.buf| == SIZE
      modifies this`idx, pos`buf
      ensures got <= max && |pos.buf| == SIZE && idx == old(idx) + got
      ensures old(idx) <= |dat| ==> idx <= |dat| && (got < max ==> idx == |dat|) && pos.buf[..got] == dat[old(idx)..idx]
    {
      if idx >= |dat| { return 0; }
      got := |dat| - idx;
      if got >= max { got := max; }
      pos.buf := dat[idx..idx + got] + pos.buf[got..];
      idx := idx + got;
    }
  }

  datatype LoadResult = Loaded(buffer: PickleBuffer) | EmptySource | ChecksumMismatch

  // Read the source into a buffer, chunk by chunk.
  method LoadPickleBuffer(source: ByteSource, update: Update) returns (r: LoadResult)
    requires source.idx == 0
    modifies source
    ensures r.EmptySource? <==> source.dat == []
    ensures r.ChecksumMismatch? <==>
      source.dat != [] && source.checkSum.Given? && source.checkSum.crc != UpdateCrc(update, INIT_CRC, source.dat)
    ensures r.Loaded? ==> r.buffer.Full() && r.buffer.content == source.dat && fresh(r.buffer) && fresh(r.buffer.Repr())
  {
    var buffer := new PickleBuffer();
    var total, crc := 0, INIT_CRC;
    ghost var summed := [];
    var pos, max := buffer.AllocateFirst();
    while true
      invariant buffer.Loading() && pos == buffer.last && max == SIZE && fresh(buffer) && fresh(buffer.Repr())
        && fresh(pos)
      invariant source.idx <= |source.dat| && buffer.content == source.dat[..source.idx] == summed && total == |summed|
      invariant crc == UpdateCrc(update, INIT_CRC, summed)
      decreases |source.dat| - source.idx
    {
      var got := Fill(buffer, source, pos, max);
      total := total + got;
      UpdateTwice(update, INIT_CRC, summed, pos.buf[..got]);
      crc := UpdateCrc(update, crc, pos.buf[..got]);
      summed := summed + pos.buf[..got];
      if got < max { break; }
      pos, max := buffer.AllocateNext();
    }
    assert summed == source.dat;
    if total == 0 { return EmptySource; }
    if !source.CheckChecksum(crc) { return ChecksumMismatch; }
    return Loaded(buffer);
  }

  // Read one chunk.
  method Fill(buffer: PickleBuffer, source: ByteSource, pos: Chunk, max: nat) returns (got: nat)
    requires buffer.Loading() && pos == buffer.last && max == SIZE && source.idx <= |source.dat|
      && buffer.content == source.dat[..source.idx]
    modifies source`idx, pos`buf, buffer`lastChunkSize, buffer`content
    ensures source.idx == old(source.idx) + got <= |source.dat| && buffer.content == source.dat[..source.idx]
      && (got < max ==> source.idx == |source.dat|)
    ensures buffer.Full() && buffer.lastChunkSize == got <= max && |pos.buf| == SIZE
      && pos.buf[..got] == source.dat[old(source.idx)..source.idx]
  {
    ghost var n := |buffer.chunks| - 1;
    assert buffer.LinkAt(n);
    got := source.GetBytes(pos, max);
    forall j: nat | j < |buffer.chunks| ensures buffer.LinkAt(j) && (j < n ==> buffer.PartAt(j)) {
      assert old(buffer.LinkAt(j)) && old(buffer.PartAt(j));
    }
    buffer.ChunkRead(got, source.dat[old(source.idx)..source.idx]);
  }

  // Read the n bytes of a buffer.
  method GetAll(pb: PickleBuffer, n: nat) returns (back: seq<Byte>)
    requires pb.Reading() && pb.ReadPos() == 0 && n == |pb.content|
    modifies pb, pb.Repr()
    ensures back == pb.content == old(pb.content)
  {
    back := [];
    while |back| < n
      invariant |back| <= n == |pb.content| && pb.content == old(pb.content) && pb.Repr() == old(pb.Repr())
      invariant pb.Reading() && pb.ReadPos() == |back| && back == pb.content[..|back|]
    {
      assert pb.last == pb.chunks[|pb.chunks| - 1] && pb.last in pb.Repr();
      var b := pb.Get();
      back := back + [b];
    }
  }

  // What was pickled is unpickled, whatever the checksum is, and whether the source comes with the checksum or without.
  method SaveAndLoad(bytes: seq<Byte>, update: Update, withChecksum: bool) returns (back: seq<Byte>)
    requires bytes != []
    ensures back == bytes
  {
    var sink := new ByteSinkDatum();
    var crc := PutTerm(bytes, sink, update);
    var source := new ByteSource(sink.data[..], if withChecksum then Given(crc) else NotGiven);
    var r := LoadPickleBuffer(source, update);
    var pb := r.buffer;
    pb.UnmarshalBegin();
    back := GetAll(pb, |bytes|);
  }
}

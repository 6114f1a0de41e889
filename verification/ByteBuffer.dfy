/** The sliding-window byte buffer of src/net/include/buffer.hh and src/net/source/buffer.cc.

    Two models stand side by side.  RawBuffer follows the code as it is written, with size_t
    arithmetic and source assertions.  Buffer is the class with the repairs listed in README.md;
    it refines a FIFO byte queue.  The lemmas about RawBuffer say for exactly which calls the
    code as written already does what Buffer does. */
module ByteBuffer {
  import opened Common

  const PRETEND_SIZE: nat := 8
  const INIT_SIZE: nat := 1024
  const EXTRA_SIZE: nat := 65536
  const SIZE_T: nat := 0x1_0000_0000_0000_0000
  const MAX_SIZE: nat := 0x7FFF_FFFF_FFFF_FFFF   // max_size() of a vector of char

  /** Addition of two size_t values. */
  function SizeAdd(a: nat, b: nat): (r: nat)
    requires a < SIZE_T && b < SIZE_T
    ensures r < SIZE_T && (a + b < SIZE_T ==> r == a + b) && (a + b >= SIZE_T ==> r == a + b - SIZE_T)
  {
    if a + b < SIZE_T then a + b else a + b - SIZE_T
  }

  /** Subtraction of two size_t values. */
  function SizeSub(a: nat, b: nat): (r: nat)
    requires a < SIZE_T && b < SIZE_T
    ensures r < SIZE_T && (b <= a ==> r == a - b) && (a < b ==> r == SIZE_T + a - b)
  {
    if b <= a then a - b else SIZE_T + a - b
  }

  // ------------------------------------------------------------------
  // The code as written
  // ------------------------------------------------------------------

  datatype RawBuffer = RawBuffer(bytes: seq<byte>, readIdx: nat, writeIdx: nat) {
    predicate WellFormed() {
      PRETEND_SIZE <= readIdx <= writeIdx <= |bytes|
    }

    /** A vector's size, and any argument. */
    predicate Fits(size: nat) {
      |bytes| <= MAX_SIZE && size < SIZE_T
    }

    function Contents(): seq<byte>
      requires WellFormed()
    {
      bytes[readIdx..writeIdx]
    }

    function Writeable(): nat
      requires |bytes| < SIZE_T && writeIdx < SIZE_T
    {
      SizeSub(|bytes|, writeIdx)
    }
  }

  /** std::vector::resize. */
  function Resized(bytes: seq<byte>, n: nat): (r: seq<byte>)
    ensures |r| == n
  {
    if n <= |bytes| then bytes[..n] else bytes + seq(n - |bytes|, _ => 0)
  }

  /** std::move of [from, to) down to PRETEND_SIZE. */
  function MovedLeft(bytes: seq<byte>, from: nat, to: nat): (r: seq<byte>)
    requires PRETEND_SIZE <= from <= to <= |bytes|
    ensures |r| == |bytes|
    ensures r[PRETEND_SIZE..PRETEND_SIZE + to - from] == bytes[from..to]
  {
    bytes[..PRETEND_SIZE] + bytes[from..to] + bytes[PRETEND_SIZE + to - from..]
  }

  function MakeSpaceAsWritten(b: RawBuffer, size: nat): Outcome<RawBuffer>
    requires b.WellFormed() && b.Fits(size)
  {
    var wanted := SizeAdd(size, PRETEND_SIZE);
    if SizeAdd(b.readIdx, b.Writeable()) < wanted then
      if wanted <= MAX_SIZE then Done(b.(bytes := Resized(b.bytes, wanted))) else Throws
    else
      var writeable := b.Writeable();
      var moved := RawBuffer(MovedLeft(b.bytes, b.readIdx, b.writeIdx), PRETEND_SIZE, PRETEND_SIZE + writeable);
      if moved.Writeable() == writeable then Done(moved) else AssertFailed
  }

  function EnsureWriteableAsWritten(b: RawBuffer, size: nat): Outcome<RawBuffer>
    requires b.WellFormed() && b.Fits(size)
  {
    var grown := if b.Writeable() < size then MakeSpaceAsWritten(b, size) else Done(b);
    if grown.Done? && grown.value.Writeable() <= size then AssertFailed else grown
  }

  function AppendAsWritten(b: RawBuffer, data: seq<byte>): Outcome<RawBuffer>
    requires b.WellFormed() && b.Fits(|data|)
  {
    var ensured := EnsureWriteableAsWritten(b, |data|);
    if !ensured.Done? then ensured
    else
      var g := ensured.value;
      if g.writeIdx + |data| <= |g.bytes| then
        Done(g.(bytes := g.bytes[..g.writeIdx] + data + g.bytes[g.writeIdx + |data|..]))
      else OutOfBounds
  }

  function RetrieveAsWritten(b: RawBuffer, len: nat): Outcome<RawBuffer>
    requires b.WellFormed()
  {
    if len < b.writeIdx - b.readIdx then Done(b.(readIdx := b.readIdx + len)) else AssertFailed
  }

  /** What follows copies from outside its source. */
  function Overrun(o: Outcome<RawBuffer>): Outcome<RawBuffer> { if o.Done? then OutOfBounds else o }

  /** read_socket: input is what readv delivered, and bytes past the window land in the 64 KiB
      stack buffer and are appended.  failed is readv returning -1, kept in a size_t: what is
      appended then starts in the stack buffer and ends far outside it. */
  function ReadSocketAsWritten(b: RawBuffer, input: seq<byte>, failed: bool): Outcome<RawBuffer>
    requires b.WellFormed() && b.Fits(|input|) && (failed ==> input == [])
  {
    var writeable := b.Writeable();
    if failed then
      Overrun(EnsureWriteableAsWritten(b.(writeIdx := |b.bytes|), SizeSub(SIZE_T - 1, writeable)))
    else if |input| == 0 then Done(b)
    else if writeable > |input| then
      var w := b.writeIdx;
      Done(RawBuffer(b.bytes[..w] + input + b.bytes[w + |input|..], b.readIdx, w + |input|))
    else
      var full := RawBuffer(b.bytes[..b.writeIdx] + input[..writeable], b.readIdx, |b.bytes|);
      AppendAsWritten(full, input[writeable..])
  }

  /** What a FIFO queue must show after a call: the given content in a well-formed buffer. */
  ghost predicate Holds(o: Outcome<RawBuffer>, content: seq<byte>) {
    o.Done? && o.value.WellFormed() && o.value.Contents() == content
  }

  /** As written, growing or compacting never helps: the call succeeds exactly when there was
      strictly more room than asked for, so neither branch of make_space is ever of use. */
  lemma EnsureWriteableAsWrittenExactly(b: RawBuffer, size: nat)
    requires b.WellFormed() && b.Fits(size)
    ensures (Holds(EnsureWriteableAsWritten(b, size), b.Contents())
             && EnsureWriteableAsWritten(b, size).value.Writeable() >= size)
       <==> |b.bytes| - b.writeIdx > size
  {
  }

  /** As written, append leaves the write index alone, so it queues its argument exactly when
      that argument is empty (and the strict assertion still finds a spare byte). */
  lemma AppendAsWrittenExactly(b: RawBuffer, data: seq<byte>)
    requires b.WellFormed() && b.Fits(|data|)
    ensures Holds(AppendAsWritten(b, data), b.Contents() + data)
       <==> data == [] && |b.bytes| > b.writeIdx
  {
  }

  /** As written, retrieve refuses to empty the buffer. */
  lemma RetrieveAsWrittenExactly(b: RawBuffer, len: nat)
    requires b.WellFormed() && len <= |b.Contents()|
    ensures Holds(RetrieveAsWritten(b, len), b.Contents()[len..]) <==> len < |b.Contents()|
  {
  }

  /** As written, read_socket keeps what it read exactly when the read did not fail and the
      window had a byte to spare (or nothing was read). */
  lemma ReadSocketAsWrittenExactly(b: RawBuffer, input: seq<byte>, failed: bool)
    requires b.WellFormed() && b.Fits(|input|) && (failed ==> input == [])
    ensures Holds(ReadSocketAsWritten(b, input, failed), b.Contents() + input)
       <==> !failed && (input == [] || |input| < |b.bytes| - b.writeIdx)
  {
  }

  // --- what happens instead ---

  /** With more room than asked for nothing happens; otherwise the call stops at an assertion, but
      for two cases of growing: the size asked for is more than a vector can hold, or it is smaller
      than what is in use, so that the write index is left behind the end. */
  lemma EnsureWriteableAsWrittenOutcome(b: RawBuffer, size: nat)
    requires b.WellFormed() && b.Fits(size)
    ensures var room := |b.bytes| - b.writeIdx;
            var grows := room < size && b.readIdx + room < size + 8 < 0x1_0000_0000_0000_0000;
            EnsureWriteableAsWritten(b, size) ==
            if room > size then Done(b)
            else if grows && size + 8 > 0x7FFF_FFFF_FFFF_FFFF then Throws
            else if grows && size + 8 < b.writeIdx then Done(b.(bytes := b.bytes[..size + 8]))
            else AssertFailed
  {
  }

  /** Where there is room the bytes are stored behind the readable ones, and not counted. */
  lemma AppendAsWrittenOutcome(b: RawBuffer, data: seq<byte>)
    requires b.WellFormed() && b.Fits(|data|) && |data| < |b.bytes| - b.writeIdx
    ensures var o := AppendAsWritten(b, data);
            && o.Done? && o.value.readIdx == b.readIdx && o.value.writeIdx == b.writeIdx
            && o.value.bytes == b.bytes[..b.writeIdx] + data + b.bytes[b.writeIdx + |data|..]
  {
  }

  /** A short read is queued; one that fills the window stops if nothing is left over for the
      stack buffer. */
  lemma ReadSocketAsWrittenOutcome(b: RawBuffer, input: seq<byte>)
    requires b.WellFormed() && b.Fits(|input|)
    ensures var room := |b.bytes| - b.writeIdx; var w := b.writeIdx;
            && (input == [] ==> ReadSocketAsWritten(b, input, false) == Done(b))
            && (0 < |input| < room ==>
                  ReadSocketAsWritten(b, input, false) ==
                  Done(RawBuffer(b.bytes[..w] + input + b.bytes[w + |input|..], b.readIdx, w + |input|)))
            && (0 < |input| == room ==> ReadSocketAsWritten(b, input, false) == AssertFailed)
  {
  }

  /** A buffer as its constructor leaves it, with the given bytes already readable. */
  function Holding(readable: seq<byte>): (b: RawBuffer)
    requires |readable| <= INIT_SIZE
    ensures b.WellFormed() && b.Contents() == readable && |b.bytes| == PRETEND_SIZE + INIT_SIZE
  {
    var bytes := seq(PRETEND_SIZE, _ => 0) + readable + seq(INIT_SIZE - |readable|, _ => 0);
    RawBuffer(bytes, PRETEND_SIZE, PRETEND_SIZE + |readable|)
  }

  /** The first byte ever appended is lost. */
  lemma AppendAsWrittenLosesData()
    ensures AppendAsWritten(Holding([]), [7]).Done? && AppendAsWritten(Holding([]), [7]).value.Contents() == []
  {
  }

  /** A new buffer refuses to hold as many bytes as it was made for, and growing to one more
      stops at the same assertion. */
  lemma EnsureWriteableAsWrittenStops()
    ensures EnsureWriteableAsWritten(Holding([]), INIT_SIZE) == AssertFailed
    ensures EnsureWriteableAsWritten(Holding([]), INIT_SIZE + 1) == AssertFailed
  {
    assert MakeSpaceAsWritten(Holding([]), INIT_SIZE + 1).value.Writeable() == INIT_SIZE + 1;
  }

  /** A buffer that holds one byte cannot give it out. */
  lemma RetrieveAsWrittenStops()
    ensures RetrieveAsWritten(Holding([7]), 1) == AssertFailed
  {
  }

  /** A read that fills the window stops, and a failed read throws. */
  lemma ReadSocketAsWrittenStops()
    ensures ReadSocketAsWritten(Holding([]), seq(INIT_SIZE, _ => 0), false) == AssertFailed
    ensures ReadSocketAsWritten(Holding([]), [], true) == Throws
  {
    var full := Holding([]).(writeIdx := PRETEND_SIZE + INIT_SIZE);
    assert MakeSpaceAsWritten(full, SizeSub(SIZE_T - 1, INIT_SIZE)) == Throws;
  }

  // ------------------------------------------------------------------
  // The repaired buffer
  // ------------------------------------------------------------------

  class Buffer {
    var data: array<byte>
    var readIdx: nat
    var writeIdx: nat

    ghost predicate Valid()
      reads this
    {
      PRETEND_SIZE <= readIdx <= writeIdx <= data.Length
    }

    /** The FIFO queue this buffer stands for. */
    ghost function Contents(): seq<byte>
      reads this, data
      requires Valid()
    {
      data[readIdx..writeIdx]
    }

    constructor ()
      ensures Valid() && fresh(data)
      ensures Contents() == [] && WriteableBytes() == INIT_SIZE && PrependableBytes() == PRETEND_SIZE
    {
      data := new byte[PRETEND_SIZE + INIT_SIZE](_ => 0);
      readIdx := PRETEND_SIZE;
      writeIdx := PRETEND_SIZE;
    }

    function WriteableBytes(): nat
      reads this
      requires Valid()
    {
      data.Length - writeIdx
    }

    function ReadableBytes(): (n: nat)
      reads this, data
      requires Valid()
      ensures n == |Contents()|
    {
      writeIdx - readIdx
    }

    function PrependableBytes(): nat
      reads this
    {
      readIdx
    }

    /** What making room for size bytes comes to: a larger array only if moving the readable bytes
        down to the front would not free enough. */
    ghost predicate Grows(size: nat, oldData: array<byte>, oldRead: nat, oldWrite: nat)
      reads this
      requires oldWrite <= oldData.Length
    {
      if oldRead + (oldData.Length - oldWrite) < size + 8 then
        data.Length == oldWrite + size && readIdx == oldRead && writeIdx == oldWrite
      else
        data == oldData && readIdx == 8 && writeIdx == 8 + (oldWrite - oldRead)
    }

    /** std::move of overlapping ranges, lowest address first. */
    method MoveLeft()
      requires Valid()
      modifies data
      ensures data[PRETEND_SIZE..PRETEND_SIZE + writeIdx - readIdx] == old(data[readIdx..writeIdx])
    {
      var n := writeIdx - readIdx;
      for k := 0 to n
        invariant data[PRETEND_SIZE..PRETEND_SIZE + k] == old(data[readIdx..readIdx + k])
        invariant data[readIdx + k..] == old(data[readIdx + k..])
      {
        assert data[readIdx + k] == data[readIdx + k..][0];
        data[PRETEND_SIZE + k] := data[readIdx + k];
        assert data[readIdx + k + 1..] == old(data[readIdx + k..])[1..];
      }
    }

    /** Repair: the new size is writeIdx + size (not size + PRETEND_SIZE), and compaction keeps
        the readable count (not the writeable one). */
    method MakeSpace(size: nat)
      requires Valid()
      modifies this, data
      ensures Valid() && (data == old(data) || fresh(data))
      ensures Contents() == old(Contents())
      ensures WriteableBytes() >= size
      ensures Grows(size, old(data), old(readIdx), old(writeIdx))
    {
      if PrependableBytes() + WriteableBytes() < size + PRETEND_SIZE {
        var n := writeIdx + size;
        var grown := new byte[n](i requires 0 <= i < n reads this, data =>
          if i < data.Length then data[i] else 0);
        assert grown[readIdx..writeIdx] == data[readIdx..writeIdx];
        data := grown;
      } else {
        var readable := ReadableBytes();
        MoveLeft();
        readIdx := PRETEND_SIZE;
        writeIdx := PRETEND_SIZE + readable;
      }
    }

    /** Repair: the closing assertion is >=, not >. */
    method EnsureWriteableBytes(size: nat)
      requires Valid()
      modifies this, data
      ensures Valid() && (data == old(data) || fresh(data))
      ensures Contents() == old(Contents())
      ensures WriteableBytes() >= size
      ensures if old(WriteableBytes()) >= size then unchanged(this) && unchanged(data)
              else Grows(size, old(data), old(readIdx), old(writeIdx))
    {
      if WriteableBytes() < size {
        MakeSpace(size);
      }
    }

    /** Repair: the write index advances past the copied bytes. */
    method Append(bytes: seq<byte>)
      requires Valid()
      modifies this, data
      ensures Valid() && (data == old(data) || fresh(data))
      ensures Contents() == old(Contents()) + bytes
      ensures old(WriteableBytes()) >= |bytes| ==> data == old(data) && readIdx == old(readIdx)
    {
      EnsureWriteableBytes(|bytes|);
      Fill(bytes);
    }

    /** Copy bytes behind the readable ones, where there is room, and count them as readable. */
    method Fill(bytes: seq<byte>)
      requires Valid() && |bytes| <= WriteableBytes()
      modifies this`writeIdx, data
      ensures Valid() && WriteableBytes() == old(WriteableBytes()) - |bytes|
      ensures Contents() == old(Contents()) + bytes
    {
      forall i | 0 <= i < |bytes| {
        data[writeIdx + i] := bytes[i];
      }
      assert data[readIdx..writeIdx] == old(Contents());
      assert data[writeIdx..writeIdx + |bytes|] == bytes;
      SliceJoins(data[..], readIdx, writeIdx, writeIdx + |bytes|);
      writeIdx := writeIdx + |bytes|;
    }

    /** Repair: the whole content may be retrieved. */
    method Retrieve(len: nat)
      requires Valid() && len <= ReadableBytes()
      modifies this
      ensures Valid() && data == old(data)
      ensures Contents() == old(Contents())[len..] && writeIdx == old(writeIdx)
    {
      readIdx := readIdx + len;
    }

    method RetrieveAll()
      requires Valid()
      modifies this
      ensures Valid() && data == old(data)
      ensures Contents() == [] && readIdx == writeIdx == 8
    {
      readIdx := PRETEND_SIZE;
      writeIdx := PRETEND_SIZE;
    }

    method RetrieveAsString() returns (str: seq<byte>)
      requires Valid()
      modifies this
      ensures Valid() && data == old(data)
      ensures str == old(Contents()) && Contents() == [] && readIdx == writeIdx == 8
    {
      str := data[readIdx..writeIdx];
      RetrieveAll();
    }

    /** input is what readv delivered: the window is filled first, the rest comes through the
        64 KiB stack buffer.  failed is readv returning -1. */
    method ReadSocket(input: seq<byte>, failed: bool) returns (total: int)
      requires Valid()
      requires |input| <= WriteableBytes() + EXTRA_SIZE && (failed ==> input == [])
      modifies this, data
      ensures Valid() && (data == old(data) || fresh(data))
      ensures Contents() == old(Contents()) + input
      ensures total == if failed then -1 else |input|
    {
      total := if failed then -1 else |input|;
      if total > 0 {
        var writeable := WriteableBytes();
        var direct := if writeable > total then total else writeable;
        Fill(input[..direct]);
        if direct == writeable {
          Append(input[direct..]);
          assert input == input[..direct] + input[direct..];
        } else {
          assert input == input[..direct];
        }
      }
    }
  }

  lemma SliceJoins(s: seq<byte>, a: nat, b: nat, c: nat)
    requires a <= b <= c <= |s|
    ensures s[a..c] == s[a..b] + s[b..c]
  {
  }
}

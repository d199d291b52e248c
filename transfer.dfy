/**
 * The transfer engine of Program.cs: the write loop (file to device, with the
 * re-seek and bounded retry), the read loop (device to file, a zero read being
 * fatal), and the session around them in `Main`.
 */
module Transfer {
  import opened Ints
  import opened Wrappers
  import opened Device
  import opened CommandLine

  /** The length of the shared `buffer` in `Main`: one sector. */
  const BufferSize: nat := 512

  /** Retries after a chunk's first write attempt (`int tries = 3`). */
  const MaxRetries: nat := 3

  // ---------------------------------------------------------------------
  // Write mode
  // ---------------------------------------------------------------------

  /**
   * The counters after the write loop, and the handle; `crashed` when a
   * re-seek raised the access violation that ends the process.
   */
  datatype WriteOutcome = WriteOutcome(dev: Dev, numBytes: nat, offset: int, aborted: bool, crashed: bool)

  /**
   * The write loop from the chunk at position `pos` of `file` (the bytes
   * counted so far in `numBytes`) on, `offset` being the device offset of that
   * chunk: at the end of the file the loop stops, otherwise the chunk, up to
   * 512 bytes, goes through `RetryWrite` with the full number of retries.
   * The handle stays open or closed, the device keeps its size, and only an
   * open handle can crash the loop.
   */
  function WriteChunks(d: Dev, file: seq<byte>, pos: nat, offset: int): (o: WriteOutcome)
    requires pos <= |file|
    ensures o.dev.open == d.open && |o.dev.data| == |d.data|
    ensures o.crashed ==> d.open
    decreases |file| - pos, 1, 0
  {
    if pos == |file| then WriteOutcome(d, pos, offset, false, false)
    else RetryWrite(d, file, pos, offset, MaxRetries)
  }

  /**
   * The write loop at the `RetryWrite` label, `tries` retries left for the
   * chunk at `pos`. A write call that transfers the whole chunk counts it and
   * goes on with the next chunk; one that falls short re-seeks to the chunk's
   * offset (the long counter, hence the wrap) and goes back to the label while
   * `tries-- > 0` allows. When the retries have run out the chunk is counted
   * all the same and the loop stops. A re-seek that raises the access
   * violation stops everything at once, the chunk not counted.
   */
  function RetryWrite(d: Dev, file: seq<byte>, pos: nat, offset: int, tries: nat): (o: WriteOutcome)
    requires pos < |file|
    ensures o.dev.open == d.open && |o.dev.data| == |d.data|
    ensures o.crashed ==> d.open
    decreases |file| - pos, 0, tries
  {
    var n := Min(BufferSize, |file| - pos);
    var (d1, written) := DevWrite(d, file[pos..pos + n]);
    var sought := DevSeek(d1, Wrap64(offset));
    if written == n then WriteChunks(d1, file, pos + n, offset + n)
    else if sought.None? then WriteOutcome(d1, pos, offset, false, true)
    else if tries > 0 then RetryWrite(sought.value, file, pos, offset, tries - 1)
    else WriteOutcome(sought.value, pos + n, offset + n, true, false)
  }

  /** A chunk is left: the loop reads it and takes it to `RetryWrite`. */
  lemma {:induction false} ChunkStart(d: Dev, file: seq<byte>, pos: nat, offset: int)
    requires pos < |file|
    ensures WriteChunks(d, file, pos, offset) == RetryWrite(d, file, pos, offset, MaxRetries)
  {
  }

  /** At the end of the file the write loop stops, nothing aborted. */
  lemma {:induction false} WriteDone(d: Dev, file: seq<byte>, offset: int)
    ensures WriteChunks(d, file, |file|, offset) == WriteOutcome(d, |file|, offset, false, false)
  {
  }

  /** One pass through the `RetryWrite` label. */
  lemma {:induction false} WriteStep(d: Dev, file: seq<byte>, pos: nat, offset: int, tries: nat)
    requires pos < |file|
    ensures var n := Min(BufferSize, |file| - pos);
      var (d1, written) := DevWrite(d, file[pos..pos + n]);
      var sought := DevSeek(d1, Wrap64(offset));
      RetryWrite(d, file, pos, offset, tries) ==
      if written == n then WriteChunks(d1, file, pos + n, offset + n)
      else if sought.None? then WriteOutcome(d1, pos, offset, false, true)
      else if tries > 0 then RetryWrite(sought.value, file, pos, offset, tries - 1)
      else WriteOutcome(sought.value, pos + n, offset + n, true, false)
  {
  }

  /**
   * A write call that is not scheduled to fail and whose chunk fits on the
   * device: the chunk lands at the cursor and the loop goes on with the next
   * chunk.
   */
  lemma {:induction false} ChunkWritten(d: Dev, file: seq<byte>, pos: nat, offset: int, tries: nat)
    requires pos < |file| && d.open && !NextWriteFails(d) && d.cursor + Min(BufferSize, |file| - pos) <= |d.data|
    ensures var n := Min(BufferSize, |file| - pos);
      RetryWrite(d, file, pos, offset, tries) ==
      WriteChunks(Dev(true, Splice(d.data, d.cursor, file[pos..pos + n]), d.cursor + n, Consume(d.faults)),
                  file, pos + n, offset + n)
  {
    var n := Min(BufferSize, |file| - pos);
    WriteStep(d, file, pos, offset, tries);
    DevWriteFits(d, file[pos..pos + n]);
  }

  /**
   * A write call scheduled to fail, the chunk's offset below 2 GiB: the
   * handle re-seeks to that offset and the chunk is tried again with one
   * retry fewer, or, with none left, counted and the loop stopped.
   */
  lemma {:induction false} ChunkRefused(d: Dev, file: seq<byte>, pos: nat, offset: int, tries: nat)
    requires pos < |file| && d.open && NextWriteFails(d) && 0 <= offset <= INT32_MAX
    ensures var n := Min(BufferSize, |file| - pos);
      var d2 := d.(cursor := offset, faults := d.faults[1..]);
      RetryWrite(d, file, pos, offset, tries) ==
      if tries > 0 then RetryWrite(d2, file, pos, offset, tries - 1)
      else WriteOutcome(d2, pos + n, offset + n, true, false)
  {
    WriteStep(d, file, pos, offset, tries);
  }

  /**
   * A write call scheduled to fail, the chunk's offset from 2 GiB up to
   * 4 GiB: the re-seek fails and leaves the pointer where it was, so the
   * retry writes there, not at the chunk's offset.
   */
  lemma {:induction false} ReseekStays(d: Dev, file: seq<byte>, pos: nat, offset: int, tries: nat)
    requires pos < |file| && d.open && NextWriteFails(d) && INT32_MAX < offset < TwoTo32
    ensures var n := Min(BufferSize, |file| - pos);
      var d2 := d.(faults := d.faults[1..]);
      RetryWrite(d, file, pos, offset, tries) ==
      if tries > 0 then RetryWrite(d2, file, pos, offset, tries - 1)
      else WriteOutcome(d2, pos + n, offset + n, true, false)
  {
    WriteStep(d, file, pos, offset, tries);
  }

  /**
   * A write call scheduled to fail, the chunk's offset negative or at 4 GiB
   * or more: the re-seek reads its high word from a bad address and the run
   * ends there, the chunk not counted.
   */
  lemma {:induction false} ReseekFaults(d: Dev, file: seq<byte>, pos: nat, offset: int, tries: nat)
    requires pos < |file| && d.open && NextWriteFails(d)
    requires INT64_MIN <= offset <= INT64_MAX && (offset < 0 || TwoTo32 <= offset)
    ensures RetryWrite(d, file, pos, offset, tries) ==
      WriteOutcome(d.(faults := d.faults[1..]), pos, offset, false, true)
  {
    WriteStep(d, file, pos, offset, tries);
  }

  /**
   * `numBytes` and `offset` grow together, never past the file; the loop ends
   * early only by an abort or a crash; an abort has counted the failed chunk.
   */
  lemma {:induction false} WriteCounters(d: Dev, file: seq<byte>, pos: nat, offset: int)
    requires pos <= |file|
    ensures var o := WriteChunks(d, file, pos, offset);
      o.offset - o.numBytes == offset - pos && pos <= o.numBytes <= |file| &&
      (!o.aborted && !o.crashed ==> o.numBytes == |file|) &&
      (o.aborted ==> o.numBytes > pos && !o.crashed)
    decreases |file| - pos, 1, 0
  {
    if pos < |file| {
      ChunkStart(d, file, pos, offset);
      RetryCounters(d, file, pos, offset, MaxRetries);
    }
  }

  /** The counters of `WriteCounters`, from the `RetryWrite` label on. */
  lemma {:induction false} RetryCounters(d: Dev, file: seq<byte>, pos: nat, offset: int, tries: nat)
    requires pos < |file|
    ensures var o := RetryWrite(d, file, pos, offset, tries);
      o.offset - o.numBytes == offset - pos && pos <= o.numBytes <= |file| &&
      (!o.crashed ==> pos < o.numBytes) &&
      (!o.aborted && !o.crashed ==> o.numBytes == |file|) &&
      (o.aborted ==> !o.crashed)
    decreases |file| - pos, 0, tries
  {
    var n := Min(BufferSize, |file| - pos);
    WriteStep(d, file, pos, offset, tries);
    var (d1, written) := DevWrite(d, file[pos..pos + n]);
    var sought := DevSeek(d1, Wrap64(offset));
    if written == n {
      WriteCounters(d1, file, pos + n, offset + n);
    } else if sought.Some? && tries > 0 {
      RetryCounters(sought.value, file, pos, offset, tries - 1);
    }
  }

  /**
   * With no failing write scheduled and the rest of the file fitting on the
   * device from the cursor, the rest lands at the cursor, wherever that is,
   * and every chunk is counted once; no seek happens.
   */
  lemma {:induction false} WriteFaultFree(d: Dev, file: seq<byte>, pos: nat, offset: int)
    requires pos <= |file| && d.open && d.cursor + (|file| - pos) <= |d.data|
    requires FaultFree(d.faults)
    ensures var o := WriteChunks(d, file, pos, offset);
      !o.aborted && !o.crashed && o.numBytes == |file| && o.offset == offset + (|file| - pos) &&
      o.dev.open && o.dev.data == Splice(d.data, d.cursor, file[pos..]) &&
      o.dev.cursor == d.cursor + (|file| - pos) && FaultFree(o.dev.faults)
    decreases |file| - pos
  {
    if pos == |file| {
      assert file[pos..] == [];
    } else {
      var n := Min(BufferSize, |file| - pos);
      var d1 := Dev(true, Splice(d.data, d.cursor, file[pos..pos + n]), d.cursor + n, Consume(d.faults));
      NextChunkWritten(d, file, pos, offset);
      WriteFaultFree(d1, file, pos + n, offset + n);
      SpliceChunks(d.data, d.cursor, file, pos, n);
    }
  }

  /**
   * The loop at a chunk whose first write call goes through and fits: it goes
   * on with the next chunk, the chunk written at the cursor.
   */
  lemma {:induction false} NextChunkWritten(d: Dev, file: seq<byte>, pos: nat, offset: int)
    requires pos < |file| && d.open && !NextWriteFails(d) && d.cursor + Min(BufferSize, |file| - pos) <= |d.data|
    ensures var n := Min(BufferSize, |file| - pos);
      WriteChunks(d, file, pos, offset) ==
      WriteChunks(Dev(true, Splice(d.data, d.cursor, file[pos..pos + n]), d.cursor + n, Consume(d.faults)),
                  file, pos + n, offset + n)
  {
    ChunkStart(d, file, pos, offset);
    ChunkWritten(d, file, pos, offset, MaxRetries);
  }

  /** Splicing a file's next chunk and then the rest splices the whole remainder. */
  lemma {:induction false} SpliceChunks(data: seq<byte>, at: nat, file: seq<byte>, pos: nat, n: nat)
    requires pos + n <= |file| && at + |file| - pos <= |data|
    ensures Splice(Splice(data, at, file[pos..pos + n]), at + n, file[pos + n..]) == Splice(data, at, file[pos..])
  {
    SpliceConcat(data, at, file[pos..pos + n], file[pos + n..]);
    assert file[pos..pos + n] + file[pos + n..] == file[pos..];
  }

  /** `n` leading `true`s: that many failing write calls in a row. */
  predicate FailsFirst(faults: seq<bool>, n: nat): (r: bool)
    ensures r ==> n <= |faults|
    decreases n
  {
    n == 0 || (faults != [] && faults[0] && FailsFirst(faults[1..], n - 1))
  }

  /**
   * A chunk whose first `j` write calls fail by schedule and whose next one
   * goes through, with the cursor at the chunk's offset and retries enough:
   * the chunk is written once, at the offset, and the loop goes on with the
   * next chunk, `j + 1` entries of the schedule consumed. The offset is below
   * 2 GiB, where the re-seeks reach it.
   */
  lemma {:induction false} RetryRecovers(d: Dev, file: seq<byte>, pos: nat, offset: int, tries: nat, j: nat)
    requires pos < |file| && d.open && d.cursor == offset
    requires 0 <= offset <= INT32_MAX && offset + Min(BufferSize, |file| - pos) <= |d.data|
    requires j <= tries && FailsFirst(d.faults, j) && !NextWriteFails(d.(faults := d.faults[j..]))
    ensures var n := Min(BufferSize, |file| - pos);
      RetryWrite(d, file, pos, offset, tries) ==
      WriteChunks(Dev(true, Splice(d.data, offset, file[pos..pos + n]), offset + n, Consume(d.faults[j..])),
                  file, pos + n, offset + n)
    decreases tries
  {
    if j > 0 {
      ChunkRefused(d, file, pos, offset, tries);
      var d2 := d.(cursor := offset, faults := d.faults[1..]);
      assert d2.faults[j - 1..] == d.faults[j..];
      RetryRecovers(d2, file, pos, offset, tries - 1, j - 1);
    } else {
      assert d.faults[j..] == d.faults;
      ChunkWritten(d, file, pos, offset, tries);
    }
  }

  /**
   * A chunk whose write calls all fail by schedule: the loop stops with the
   * device untouched and the cursor at the chunk's offset (below 2 GiB), yet
   * `numBytes` and `offset` have counted the chunk.
   */
  lemma {:induction false} RetryExhausted(d: Dev, file: seq<byte>, pos: nat, offset: int, tries: nat)
    requires pos < |file| && d.open && 0 <= offset <= INT32_MAX
    requires FailsFirst(d.faults, tries + 1)
    ensures var n := Min(BufferSize, |file| - pos);
      RetryWrite(d, file, pos, offset, tries) ==
      WriteOutcome(d.(cursor := offset, faults := d.faults[tries + 1..]), pos + n, offset + n, true, false)
    decreases tries
  {
    ChunkRefused(d, file, pos, offset, tries);
    if tries > 0 {
      var d2 := d.(cursor := offset, faults := d.faults[1..]);
      assert d2.faults[tries..] == d.faults[tries + 1..];
      RetryExhausted(d2, file, pos, offset, tries - 1);
    }
  }

  /**
   * A file of one chunk whose first `j` (at most 3) writes fail: the chunk is
   * written and counted exactly once, after `j + 1` write calls.
   */
  lemma {:induction false} FailThenSucceed(d: Dev, file: seq<byte>, offset: int, j: nat)
    requires d.open && 0 < |file| <= BufferSize && d.cursor == offset
    requires 0 <= offset <= INT32_MAX && offset + |file| <= |d.data|
    requires j <= MaxRetries && FailsFirst(d.faults, j) && !NextWriteFails(d.(faults := d.faults[j..]))
    ensures WriteChunks(d, file, 0, offset) ==
      WriteOutcome(Dev(true, Splice(d.data, offset, file), offset + |file|, Consume(d.faults[j..])),
                   |file|, offset + |file|, false, false)
  {
    ChunkStart(d, file, 0, offset);
    RetryRecovers(d, file, 0, offset, MaxRetries, j);
    assert file[0..|file|] == file;
    WriteDone(Dev(true, Splice(d.data, offset, file), offset + |file|, Consume(d.faults[j..])),
              file, offset + |file|);
  }

  /**
   * Four failing writes abort the loop on its first chunk: the device is
   * untouched and the cursor back at the offset (below 2 GiB), yet
   * `numBytes` and `offset` have counted the chunk.
   */
  lemma {:induction false} FourFailuresAbort(d: Dev, file: seq<byte>, offset: int)
    requires d.open && file != [] && 0 <= offset <= INT32_MAX
    requires FailsFirst(d.faults, MaxRetries + 1)
    ensures var n := Min(BufferSize, |file|);
      WriteChunks(d, file, 0, offset) ==
      WriteOutcome(d.(cursor := offset, faults := d.faults[MaxRetries + 1..]), n, offset + n, true, false)
  {
    ChunkStart(d, file, 0, offset);
    RetryExhausted(d, file, 0, offset, MaxRetries);
  }

  /**
   * The attempts on one chunk (Program.cs:262-279), the `goto RetryWrite`
   * being the loop: the chunk is the first `count` bytes of `buffer` and sits
   * at `pos` in `file`. In the terms of the whole loop, whose outcome is
   * `goal`, the chunk is counted and the loop either goes on after it, or
   * stops there with `tries` at -1; or a re-seek crashed the run.
   */
  method WriteChunk(disk: DiskIO, buffer: array<byte>, count: Int32, offset: int,
                    ghost file: seq<byte>, ghost pos: nat, ghost goal: WriteOutcome)
    returns (tries: int, crashed: bool)
    requires 0 < count <= buffer.Length == BufferSize
    requires pos < |file| && count == Min(BufferSize, |file| - pos) && buffer[..count] == file[pos..pos + count]
    requires RetryWrite(disk.State(), file, pos, offset, MaxRetries) == goal
    modifies disk
    ensures crashed ==> WriteOutcome(disk.State(), pos, offset, false, true) == goal
    ensures !crashed && tries != -1 ==>
      0 <= tries <= MaxRetries && WriteChunks(disk.State(), file, pos + count, offset + count) == goal
    ensures !crashed && tries == -1 ==> WriteOutcome(disk.State(), pos + count, offset + count, true, false) == goal
  {
    tries, crashed := MaxRetries, false;
    while true
      invariant 0 <= tries <= MaxRetries && buffer[..count] == file[pos..pos + count]
      invariant RetryWrite(disk.State(), file, pos, offset, tries) == goal
      decreases tries
    {
      ghost var before := disk.State();
      WriteStep(before, file, pos, offset, tries);
      assert AsUInt16(count) == count;
      var written := disk.Write(buffer, count);
      assert (disk.State(), written) == DevWrite(before, file[pos..pos + count]);
      if written == count {
        break;
      }
      var _, violation := disk.Seek(Wrap64(offset));
      if violation {
        crashed := true;
        break;
      }
      if tries > 0 {
        tries := tries - 1;
      } else {
        tries := -1;
        break;
      }
    }
  }

  /**
   * `file.Read(buffer, 0, buffer.Length)` on the input file positioned at
   * `pos`: up to a buffer of the following bytes, at the front of `buffer`.
   */
  method ReadFile(file: seq<byte>, pos: nat, buffer: array<byte>) returns (bytesRead: nat)
    requires pos <= |file|
    modifies buffer
    ensures bytesRead == Min(buffer.Length, |file| - pos)
    ensures buffer[..bytesRead] == file[pos..pos + bytesRead]
  {
    bytesRead := Min(buffer.Length, |file| - pos);
    forall i | 0 <= i < bytesRead {
      buffer[i] := file[pos + i];
    }
  }

  /**
   * The write loop (Program.cs:257-294) over the shared 512-byte buffer; the
   * file is read from its start. `numBytes` and `offset` are the exact counts;
   * the long `startingOffset` of the source is `Wrap64(offset)`, and that is
   * what the re-seek uses.
   */
  method WriteLoop(disk: DiskIO, buffer: array<byte>, file: seq<byte>, startingOffset: Int64)
    returns (numBytes: nat, offset: int, aborted: bool, crashed: bool)
    requires buffer.Length == BufferSize
    modifies disk, buffer
    ensures WriteOutcome(disk.State(), numBytes, offset, aborted, crashed) ==
            WriteChunks(old(disk.State()), file, 0, startingOffset)
  {
    ghost var goal := WriteChunks(disk.State(), file, 0, startingOffset);
    numBytes, offset, aborted, crashed := 0, startingOffset, false, false;
    while true
      invariant numBytes <= |file| && offset == startingOffset + numBytes
      invariant WriteChunks(disk.State(), file, numBytes, offset) == goal
      decreases |file| - numBytes
    {
      var bytesRead := ReadFile(file, numBytes, buffer);
      if bytesRead == 0 {
        WriteDone(disk.State(), file, offset);
        break;
      }
      ChunkStart(disk.State(), file, numBytes, offset);
      var tries, violation := WriteChunk(disk, buffer, bytesRead, offset, file, numBytes, goal);
      if violation {
        crashed := true;
        break;
      }
      numBytes := numBytes + bytesRead;
      offset := offset + bytesRead;
      if tries == -1 {
        aborted := true;
        break;
      }
    }
  }

  // ---------------------------------------------------------------------
  // Read mode
  // ---------------------------------------------------------------------

  /** What the read loop wrote to the file, its counters, and the handle. */
  datatype ReadOutcome = ReadOutcome(dev: Dev, output: seq<byte>, remaining: int, offset: int, failed: bool)

  /**
   * The read loop with `remaining` bytes still wanted: requests of
   * `min(remaining, 512)`, and a read of nothing ends it at once as a failure.
   * Reading never changes the device's bytes.
   */
  function ReadChunks(d: Dev, remaining: int, offset: int): (o: ReadOutcome)
    ensures o.dev.data == d.data
    decreases remaining
  {
    if remaining <= 0 then ReadOutcome(d, [], remaining, offset, false)
    else
      var (d1, got) := DevRead(d, Min(remaining, BufferSize));
      if got == [] then ReadOutcome(d1, [], remaining, offset, true)
      else
        var o := ReadChunks(d1, remaining - |got|, offset + |got|);
        o.(output := got + o.output)
  }

  /** An outcome with `prefix` written to the file before it. */
  function WrittenAfter(prefix: seq<byte>, o: ReadOutcome): ReadOutcome {
    o.(output := prefix + o.output)
  }

  /**
   * Bytes written to the file plus bytes still wanted is the requested total;
   * the offset and the cursor advance by exactly what was read; a failure
   * leaves bytes wanted, a normal end leaves none.
   */
  lemma {:induction false} ReadCounters(d: Dev, remaining: int, offset: int)
    ensures var o := ReadChunks(d, remaining, offset);
      |o.output| + o.remaining == remaining &&
      o.offset == offset + |o.output| &&
      o.dev == d.(cursor := d.cursor + |o.output|) &&
      (o.failed ==> o.remaining > 0) &&
      (!o.failed && remaining > 0 ==> o.remaining == 0)
    decreases remaining
  {
    if remaining > 0 {
      var (d1, got) := DevRead(d, Min(remaining, BufferSize));
      if got != [] {
        ReadCounters(d1, remaining - |got|, offset + |got|);
      }
    }
  }

  /** `bytes` lie on the device from position `at` on. */
  predicate SpanAt(data: seq<byte>, at: nat, bytes: seq<byte>) {
    at + |bytes| <= |data| && bytes == data[at..at + |bytes|]
  }

  /** The file receives the device's bytes from the cursor on, in order. */
  lemma {:induction false} ReadContiguous(d: Dev, remaining: int, offset: int)
    ensures var out := ReadChunks(d, remaining, offset).output;
      out != [] ==> SpanAt(d.data, d.cursor, out)
    decreases remaining
  {
    if remaining > 0 {
      var (d1, got) := DevRead(d, Min(remaining, BufferSize));
      if got != [] {
        DevReadSpan(d, Min(remaining, BufferSize));
        ReadContiguous(d1, remaining - |got|, offset + |got|);
        var rest := ReadChunks(d1, remaining - |got|, offset + |got|).output;
        assert ReadChunks(d, remaining, offset).output == got + rest;
        AdjacentSpans(d.data, d.cursor, got, rest);
      }
    }
  }

  /** A span of the device followed by the span right after it is one span. */
  lemma {:induction false} AdjacentSpans(data: seq<byte>, i: nat, got: seq<byte>, rest: seq<byte>)
    requires SpanAt(data, i, got)
    requires rest != [] ==> SpanAt(data, i + |got|, rest)
    ensures SpanAt(data, i, got + rest)
  {
    if rest == [] {
      assert got + rest == got;
    } else {
      SliceJoin(data, i, i + |got|, i + |got| + |rest|);
    }
  }

  /** Wanted bytes that all lie on the device are read back in full, without failure. */
  lemma {:induction false} ReadBack(d: Dev, remaining: nat, offset: int)
    requires d.open && d.cursor + remaining <= |d.data|
    ensures var o := ReadChunks(d, remaining, offset);
      !o.failed && o.output == d.data[d.cursor..d.cursor + remaining]
  {
    ReadNoFailure(d, remaining, offset);
    ReadCounters(d, remaining, offset);
    ReadContiguous(d, remaining, offset);
  }

  /** While the wanted bytes lie on the device, no read comes back empty. */
  lemma {:induction false} ReadNoFailure(d: Dev, remaining: nat, offset: int)
    requires d.open && d.cursor + remaining <= |d.data|
    ensures !ReadChunks(d, remaining, offset).failed
    decreases remaining
  {
    if remaining > 0 {
      var count := Min(remaining, BufferSize);
      var (d1, got) := DevRead(d, count);
      DevReadSpan(d, count);
      ReadNoFailure(d1, remaining - count, offset + count);
    }
  }

  /**
   * A device that ends one sector after the cursor, asked for more: the
   * first chunk is read, the second read returns nothing, and the loop stops
   * with no retry.
   */
  lemma {:induction false} ReadFailsAfterOneChunk(d: Dev, remaining: int, offset: int)
    requires d.open && d.cursor + BufferSize == |d.data| && remaining > BufferSize
    ensures ReadChunks(d, remaining, offset) ==
      ReadOutcome(d.(cursor := |d.data|), d.data[d.cursor..], remaining - BufferSize, offset + BufferSize, true)
  {
    var (d1, got) := DevRead(d, BufferSize);
    assert |got| == BufferSize;
    var (d2, got2) := DevRead(d1, Min(remaining - BufferSize, BufferSize));
    assert got2 == [];
    assert got + [] == d.data[d.cursor..];
  }

  /**
   * The read loop (Program.cs:307-332). `output` is what `file.Write` has
   * appended to the created file; `failed` is `fileSize == -1`.
   */
  method ReadLoop(disk: DiskIO, buffer: array<byte>, bytesToRead: Int64, startingOffset: Int64)
    returns (output: seq<byte>, numBytes: int, remaining: int, offset: int, failed: bool)
    requires buffer.Length == BufferSize
    modifies disk, buffer
    ensures numBytes == |output|
    ensures ReadOutcome(disk.State(), output, remaining, offset, failed) ==
            ReadChunks(old(disk.State()), bytesToRead, startingOffset)
  {
    ghost var goal := ReadChunks(disk.State(), bytesToRead, startingOffset);
    output, numBytes, remaining, offset, failed := [], 0, bytesToRead, startingOffset, false;
    while remaining > 0
      invariant numBytes == |output|
      invariant WrittenAfter(output, ReadChunks(disk.State(), remaining, offset)) == goal
      decreases remaining
    {
      var request := if remaining > buffer.Length then buffer.Length else remaining;
      ghost var d := disk.State();
      assert AsUInt16(request) == request == Min(remaining, BufferSize);
      var bytesRead := disk.Read(buffer, request);
      ReadStep(d, remaining, offset, output);
      if bytesRead == 0 {
        failed := true;
        break;
      }
      output := output + buffer[..bytesRead];
      numBytes := numBytes + bytesRead;
      remaining := remaining - bytesRead;
      offset := offset + bytesRead;
    }
  }

  /**
   * One iteration of the read loop, as `ReadChunks` takes it: a read of
   * nothing stops it as a failure, anything else is appended to the file.
   */
  lemma {:induction false} ReadStep(d: Dev, remaining: int, offset: int, output: seq<byte>)
    requires remaining > 0
    ensures var (d1, got) := DevRead(d, Min(remaining, BufferSize));
      (got == [] ==> ReadChunks(d, remaining, offset) == ReadOutcome(d1, [], remaining, offset, true)) &&
      (got != [] ==>
       WrittenAfter(output, ReadChunks(d, remaining, offset)) ==
       WrittenAfter(output + got, ReadChunks(d1, remaining - |got|, offset + |got|)))
  {
    var (d1, got) := DevRead(d, Min(remaining, BufferSize));
    var o := ReadChunks(d1, remaining - |got|, offset + |got|);
    assert output + (got + o.output) == (output + got) + o.output;
  }

  // ---------------------------------------------------------------------
  // The session in Main
  // ---------------------------------------------------------------------

  /** What a run reports once the file is open. */
  datatype Report =
    | OpenFailed                                     // "Unable to open device"
    | Crashed                                        // a seek's access violation ended the process
    | Declined                                       // the confirmation was not "Y"
    | Wrote(numBytes: int, offset: Int64, aborted: bool, completed: bool)
    | ReadOut(numBytes: int, offset: Int64, completed: bool)
    | NothingToDo                                    // mode 0

  /** The device's bytes and the file's bytes after a run, and its report. */
  datatype SessionResult = SessionResult(device: seq<byte>, file: seq<byte>, report: Report)

  /**
   * `Main` from the opening of the file (Program.cs:210-343) with settings
   * from the option scan: `present` says whether a device answers to the name,
   * `data` and `faults` describe it, `fileIn` is the input file in write mode
   * and `confirmed` the answer to the prompt. The file is opened for writing
   * (and so emptied) in every mode but write mode, before the device is
   * opened. The completion line is printed unless `fileSize` is -1: read mode
   * sets it from `bytesToRead`, so a failed read and a requested size of -1
   * both suppress it. The reported offset is the long `startingOffset`.
   * Only write mode changes the device, and it never changes the input file.
   */
  function SessionSpec(st: Settings, present: bool, data: seq<byte>, faults: seq<bool>,
                       fileIn: seq<byte>, confirmed: bool): (r: SessionResult)
    ensures |r.device| == |data|
    ensures st.mode != WriteMode || !present ==> r.device == data
    ensures st.mode == WriteMode ==> r.file == fileIn
    ensures r.report == OpenFailed <==> !present
    ensures r.report.Crashed? ==> st.start < 0 || TwoTo32 <= st.start || st.mode == WriteMode
  {
    var fileStart := if st.mode == WriteMode then fileIn else [];
    if !present then SessionResult(data, fileStart, OpenFailed)
    else
      var d0 := Dev(true, data, 0, faults);
      var sought := if st.start != 0 then DevSeek(d0, st.start) else Some(d0);
      if sought.None? then SessionResult(data, fileStart, Crashed)
      else
        var d := sought.value;
        match st.mode
        case WriteMode =>
          if !st.quiet && !confirmed then SessionResult(d.data, fileIn, Declined)
          else
            var o := WriteChunks(d, fileIn, 0, st.start);
            if o.crashed then SessionResult(o.dev.data, fileIn, Crashed)
            else SessionResult(o.dev.data, fileIn, Wrote(o.numBytes, Wrap64(o.offset), o.aborted, true))
        case ReadMode =>
          var o := ReadChunks(d, st.bytesToRead, st.start);
          SessionResult(o.dev.data, o.output,
                        ReadOut(|o.output|, Wrap64(o.offset), !o.failed && st.bytesToRead != -1))
        case Idle => SessionResult(d.data, [], NothingToDo)
  }

  /**
   * Writing a file at an offset below 2 GiB with no failing write, then
   * reading as many bytes back from the same offset, gives the file back;
   * the device holds the file there and is unchanged elsewhere.
   */
  lemma {:induction false} RoundTrip(data: seq<byte>, file: seq<byte>, start: Int64, faults: seq<bool>, faults2: seq<bool>,
                  quiet: bool, confirmed: bool, quiet2: bool, confirmed2: bool)
    requires 0 <= start <= INT32_MAX && start + |file| <= |data| && |file| <= INT64_MAX
    requires FaultFree(faults) && (quiet || confirmed)
    ensures var w := SessionSpec(Settings(WriteMode, quiet, start, 0), true, data, faults, file, confirmed);
      var r := SessionSpec(Settings(ReadMode, quiet2, start, |file|), true, w.device, faults2, [], confirmed2);
      w.device == Splice(data, start, file) &&
      w.report == Wrote(|file|, Wrap64(start + |file|), false, true) &&
      r.file == file && r.report == ReadOut(|file|, Wrap64(start + |file|), true) && r.device == w.device
  {
    var written := Splice(data, start, file);
    WriteSessionFaultFree(Settings(WriteMode, quiet, start, 0), data, faults, file, confirmed);
    ReadSessionBack(Settings(ReadMode, quiet2, start, |file|), written, faults2, confirmed2);
    SpliceRead(data, start, file);
  }

  /**
   * A confirmed write of a file that fits on the device from a start below
   * 2 GiB, with no failing write, puts the file there and counts all of it.
   */
  lemma {:induction false} WriteSessionFaultFree(st: Settings, data: seq<byte>, faults: seq<bool>, file: seq<byte>, confirmed: bool)
    requires st.mode == WriteMode && (st.quiet || confirmed)
    requires 0 <= st.start <= INT32_MAX && st.start + |file| <= |data| && FaultFree(faults)
    ensures SessionSpec(st, true, data, faults, file, confirmed) ==
      SessionResult(Splice(data, st.start, file), file, Wrote(|file|, Wrap64(st.start + |file|), false, true))
  {
    var d := Dev(true, data, st.start, faults);
    SessionWrites(st, data, faults, file, confirmed);
    WriteFaultFree(d, file, 0, st.start);
    assert file[0..] == file;
  }

  /**
   * A write session started at 2 GiB: the seek fails, the pointer stays at 0,
   * and with no failing write the file lands at the start of the device, while
   * the report counts from 2 GiB.
   */
  lemma {:induction false} WriteAt2GiBLandsAtZero(data: seq<byte>, faults: seq<bool>, file: seq<byte>)
    requires |file| <= |data| && FaultFree(faults)
    ensures SessionSpec(Settings(WriteMode, true, 0x8000_0000, 0), true, data, faults, file, false) ==
      SessionResult(Splice(data, 0, file), file, Wrote(|file|, Wrap64(0x8000_0000 + |file|), false, true))
  {
    WriteFaultFree(Dev(true, data, 0, faults), file, 0, 0x8000_0000);
    assert file[0..] == file;
  }

  /**
   * A start that is negative or 4 GiB or more makes the first seek read its
   * high word from a bad address: the run ends before anything is moved.
   */
  lemma {:induction false} FarStartCrashes(st: Settings, data: seq<byte>, faults: seq<bool>, fileIn: seq<byte>, confirmed: bool)
    requires st.start < 0 || TwoTo32 <= st.start
    ensures SessionSpec(st, true, data, faults, fileIn, confirmed) ==
      SessionResult(data, if st.mode == WriteMode then fileIn else [], Crashed)
  {
  }

  /**
   * Reading from a start below 2 GiB as many bytes as lie on the device from
   * there gives those bytes, and the completion line.
   */
  lemma {:induction false} ReadSessionBack(st: Settings, data: seq<byte>, faults: seq<bool>, confirmed: bool)
    requires st.mode == ReadMode && 0 <= st.start <= INT32_MAX && 0 <= st.bytesToRead
    requires st.start + st.bytesToRead <= |data|
    ensures SessionSpec(st, true, data, faults, [], confirmed) ==
      SessionResult(data, data[st.start..st.start + st.bytesToRead],
                    ReadOut(st.bytesToRead, Wrap64(st.start + st.bytesToRead), true))
  {
    var d := Dev(true, data, st.start, faults);
    var o := ReadChunks(d, st.bytesToRead, st.start);
    ReadBack(d, st.bytesToRead, st.start);
    ReadCounters(d, st.bytesToRead, st.start);
    assert !o.failed && |o.output| == st.bytesToRead && o.offset == st.start + st.bytesToRead;
    SessionReads(st, data, faults, [], confirmed);
  }

  /**
   * `-r -1`: the read loop does not run, the file is left empty, and the
   * completion line is not printed, as after a failed read.
   */
  lemma {:induction false} ReadMinusOneIncomplete(st: Settings, data: seq<byte>, faults: seq<bool>, fileIn: seq<byte>,
                                                  confirmed: bool)
    requires st.mode == ReadMode && st.bytesToRead == -1 && 0 <= st.start <= INT32_MAX
    ensures SessionSpec(st, true, data, faults, fileIn, confirmed) ==
      SessionResult(data, [], ReadOut(0, st.start, false))
  {
    SessionReads(st, data, faults, fileIn, confirmed);
  }

  /** Write mode at a start below 2 GiB, once the prompt is passed: the write loop from the start. */
  lemma {:induction false} SessionWrites(st: Settings, data: seq<byte>, faults: seq<bool>, fileIn: seq<byte>, confirmed: bool)
    requires st.mode == WriteMode && (st.quiet || confirmed) && 0 <= st.start <= INT32_MAX
    ensures var o := WriteChunks(Dev(true, data, st.start, faults), fileIn, 0, st.start);
      SessionSpec(st, true, data, faults, fileIn, confirmed) ==
      if o.crashed then SessionResult(o.dev.data, fileIn, Crashed)
      else SessionResult(o.dev.data, fileIn, Wrote(o.numBytes, Wrap64(o.offset), o.aborted, true))
  {
  }

  /** Read mode at a start below 2 GiB: the read loop from the start, into an emptied file. */
  lemma {:induction false} SessionReads(st: Settings, data: seq<byte>, faults: seq<bool>, fileIn: seq<byte>, confirmed: bool)
    requires st.mode == ReadMode && 0 <= st.start <= INT32_MAX
    ensures var o := ReadChunks(Dev(true, data, st.start, faults), st.bytesToRead, st.start);
      SessionSpec(st, true, data, faults, fileIn, confirmed) ==
      SessionResult(o.dev.data, o.output, ReadOut(|o.output|, Wrap64(o.offset), !o.failed && st.bytesToRead != -1))
  {
  }

  /**
   * Declining the prompt ends write mode with the device untouched; the
   * prompt comes after the first seek, which a far start does not survive.
   */
  lemma {:induction false} DeclineWritesNothing(st: Settings, data: seq<byte>, faults: seq<bool>, fileIn: seq<byte>)
    requires st.mode == WriteMode && !st.quiet
    ensures SessionSpec(st, true, data, faults, fileIn, false) ==
      SessionResult(data, fileIn, if st.start < 0 || TwoTo32 <= st.start then Crashed else Declined)
  {
  }

  /**
   * A write whose first chunk fails four times still reports the chunk as
   * written and prints the completion line.
   */
  lemma {:induction false} AbortedWriteReportsCompletion(data: seq<byte>, file: seq<byte>, start: Int64, faults: seq<bool>)
    requires 0 <= start <= INT32_MAX && file != [] && FailsFirst(faults, MaxRetries + 1)
    ensures var n := Min(BufferSize, |file|);
      SessionSpec(Settings(WriteMode, true, start, 0), true, data, faults, file, false) ==
      SessionResult(data, file, Wrote(n, start + n, true, true))
  {
    SessionWrites(Settings(WriteMode, true, start, 0), data, faults, file, false);
    FourFailuresAbort(Dev(true, data, start, faults), file, start);
  }

  /**
   * The run itself: the device handle is constructed from the name, sought to
   * the start when it is not 0, the loop of the mode runs over the shared
   * buffer, and the handle is closed. An access violation in a seek ends the
   * run where it happens, the handle left as it is.
   */
  method Session(st: Settings, deviceName: string, device: Option<seq<byte>>, faults: seq<bool>,
                 fileIn: seq<byte>, confirmed: bool)
    returns (after: seq<byte>, file: seq<byte>, report: Report)
    ensures SessionResult(after, file, report) ==
            SessionSpec(st, device.Some?, if device.Some? then device.value else [], faults, fileIn, confirmed)
  {
    var buffer := new byte[BufferSize];
    file := if st.mode == WriteMode then fileIn else [];
    var disk := new DiskIO(deviceName, device, faults);
    if !disk.IsOpen() {
      return disk.medium, file, OpenFailed;
    }
    if st.start != 0 {
      var _, violation := disk.Seek(st.start);
      if violation {
        return disk.medium, file, Crashed;
      }
    }
    match st.mode {
      case WriteMode =>
        if !st.quiet && !confirmed {
          report := Declined;
        } else {
          var numBytes, offset, aborted, crashed := WriteLoop(disk, buffer, fileIn, st.start);
          if crashed {
            return disk.medium, file, Crashed;
          }
          report := Wrote(numBytes, Wrap64(offset), aborted, true);
        }
      case ReadMode =>
        var output, numBytes, remaining, offset, failed := ReadLoop(disk, buffer, st.bytesToRead, st.start);
        file := output;
        report := ReadOut(numBytes, Wrap64(offset), !failed && st.bytesToRead != -1);
      case Idle =>
        report := NothingToDo;
    }
    disk.Close();
    after := disk.medium;
  }

  /**
   * `Main` as a whole: the arguments are interpreted, and only a transfer
   * opens the file and the device. `devices` holds the bytes of every device
   * by its raw-device path and `fileIn` the bytes of the named file.
   */
  method Run(args: seq<string>, drives: seq<string>, devices: map<string, seq<byte>>, faults: seq<bool>,
             fileIn: seq<byte>, confirmed: bool)
    returns (c: Command, result: Option<SessionResult>)
    ensures c == Interpret(args, drives)
    ensures result.Some? <==> c.Transfer?
    ensures c.Transfer? ==>
      var path := Normalize(c.device);
      result == Some(SessionSpec(c.settings, path in devices, if path in devices then devices[path] else [],
                                 faults, fileIn, confirmed))
  {
    c := ParseArguments(args, drives);
    if !c.Transfer? {
      return c, None;
    }
    var path := Normalize(c.device);
    var device := if path in devices then Some(devices[path]) else None;
    var after, file, report := Session(c.settings, c.device, device, faults, fileIn, confirmed);
    result := Some(SessionResult(after, file, report));
  }
}

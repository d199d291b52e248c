/**
 * The raw device handle of DiskIO.cs, over a modelled device instead of the
 * kernel32 calls: the device is a byte array, the handle keeps the file
 * pointer, and a fault schedule says which write calls fail.
 */
module Device {
  import opened Ints
  import opened Wrappers

  // ---------------------------------------------------------------------
  // Device names
  // ---------------------------------------------------------------------

  /** The raw-device namespace prefix `\\.\`. */
  const RawPrefix: string := "\\\\.\\"

  /** The constructor's name normalisation: prefix `\\.\` unless already there. */
  function Normalize(deviceName: string): (path: string)
    ensures RawPrefix <= path
    ensures |deviceName| <= |path| && path[|path| - |deviceName|..] == deviceName
    ensures RawPrefix <= deviceName <==> path == deviceName
  {
    if RawPrefix <= deviceName then deviceName else RawPrefix + deviceName
  }

  lemma {:induction false} NormalizeIdempotent(deviceName: string)
    ensures Normalize(Normalize(deviceName)) == Normalize(deviceName)
    ensures |Normalize(deviceName)| <= |deviceName| + |RawPrefix|
  {
  }

  // ---------------------------------------------------------------------
  // Seek offsets
  // ---------------------------------------------------------------------

  const TwoTo32: int := 0x1_0000_0000

  /** `offset & 0xFFFFFFFF`. */
  function LowWord(offset: Int64): (w: int)
    ensures 0 <= w < TwoTo32
  {
    offset % TwoTo32
  }

  /** `offset >> 32` (arithmetic shift): the floor of the offset over 2^32. */
  function HighWord(offset: Int64): (w: Int32)
    ensures offset == w * TwoTo32 + LowWord(offset)
  {
    offset / TwoTo32
  }

  /** The unchecked `(Int32)` cast. */
  function AsInt32(x: int): (r: Int32)
    requires 0 <= x < TwoTo32
    ensures r % TwoTo32 == x
  {
    if x <= INT32_MAX then x else x - TwoTo32
  }

  /** Reading a high word and a low word (taken as unsigned) as one 64-bit value. */
  function Combine(high: Int32, low: Int32): int {
    high * TwoTo32 + low % TwoTo32
  }

  /** Splitting an offset into the two words and putting them back gives the offset. */
  lemma {:induction false} SplitCombine(offset: Int64)
    ensures Combine(HighWord(offset), AsInt32(LowWord(offset))) == offset
  {
  }

  /**
   * What a call of the pointer move does: the pointer goes to `pos`, stays
   * where it is (the call fails), or the call reads its high-word argument
   * from an address that holds none and the process stops on the access
   * violation.
   */
  datatype PointerMove = MoveTo(pos: nat) | NoMove | BadAddress

  /**
   * The move the seek was meant to make, with the high word handed to the
   * pointer move by reference: to the recombined offset, and no move when it
   * is negative. This is the corrected half of the seek finding; the handle
   * below seeks as written.
   */
  function SeekTarget(offset: Int64): (r: PointerMove)
    ensures r == if offset >= 0 then MoveTo(offset as nat) else NoMove
  {
    SplitCombine(offset);
    var target := Combine(HighWord(offset), AsInt32(LowWord(offset)));
    if target >= 0 then MoveTo(target) else NoMove
  }

  /**
   * The move DiskIO.cs:84 makes: it passes the high word itself where the
   * pointer move expects the address of the high word. A zero high word is a
   * null address, and the low word alone is taken as a signed distance from
   * the start (a negative one fails); any other high word is read from as an
   * address.
   */
  function SeekTargetAsWritten(offset: Int64): (r: PointerMove)
    ensures r.BadAddress? <==> offset < 0 || TwoTo32 <= offset
    ensures r.MoveTo? <==> 0 <= offset <= INT32_MAX
    ensures r.MoveTo? ==> r.pos == offset
  {
    var low := AsInt32(LowWord(offset));
    var highAddress := HighWord(offset);
    if highAddress != 0 then BadAddress
    else if low >= 0 then MoveTo(low as nat)
    else NoMove
  }

  /** The call as written makes the intended move exactly from 0 up to 2 GiB. */
  lemma {:induction false} SeekAsWrittenBelow2GiB(offset: Int64)
    ensures SeekTargetAsWritten(offset) == SeekTarget(offset) <==> 0 <= offset <= INT32_MAX
  {
  }

  lemma {:induction false} SeekAsWrittenMisses2GiB()
    ensures SeekTargetAsWritten(0x8000_0000) == NoMove
    ensures SeekTarget(0x8000_0000) == MoveTo(0x8000_0000)
    ensures SeekTargetAsWritten(0x1_0000_0000) == BadAddress
    ensures SeekTarget(0x1_0000_0000) == MoveTo(0x1_0000_0000)
  {
  }

  // ---------------------------------------------------------------------
  // The device and handle state, as a value
  // ---------------------------------------------------------------------

  /**
   * A handle on the modelled device: whether it is open, the device's bytes,
   * the file pointer, and the fault schedule of the coming write calls
   * (`true`: that call fails and transfers nothing).
   */
  datatype Dev = Dev(open: bool, data: seq<byte>, cursor: nat, faults: seq<bool>)

  /** How many of `n` bytes fit between the cursor and the end of the device. */
  function Fit(cursor: nat, size: nat, n: nat): (k: nat)
    ensures k <= n
    ensures k > 0 ==> cursor + k <= size
    ensures cursor + n <= size ==> k == n
    ensures cursor < size && n > 0 ==> k > 0
  {
    if cursor <= size then Min(n, size - cursor) else 0
  }

  /** `data` with `bytes` written over it from position `at`. */
  function Splice(data: seq<byte>, at: nat, bytes: seq<byte>): (r: seq<byte>)
    requires at + |bytes| <= |data|
    ensures |r| == |data|
    decreases |bytes|
  {
    if bytes == [] then data else Splice(data[at := bytes[0]], at + 1, bytes[1..])
  }

  /** The spliced span holds `bytes`; every other position keeps its byte. */
  lemma {:induction false} SpliceAt(data: seq<byte>, at: nat, bytes: seq<byte>)
    requires at + |bytes| <= |data|
    ensures forall i :: 0 <= i < |data| ==>
      Splice(data, at, bytes)[i] == if at <= i < at + |bytes| then bytes[i - at] else data[i]
    decreases |bytes|
  {
    if bytes != [] {
      var next := data[at := bytes[0]];
      SpliceAt(next, at + 1, bytes[1..]);
      var r := Splice(data, at, bytes);
      assert r == Splice(next, at + 1, bytes[1..]);
      forall i | 0 <= i < |data|
        ensures r[i] == if at <= i < at + |bytes| then bytes[i - at] else data[i]
      {
        if at + 1 <= i < at + |bytes| {
          assert bytes[1..][i - (at + 1)] == bytes[i - at];
        }
      }
    }
  }

  /** Two writes that follow each other are one write of both. */
  lemma {:induction false} SpliceConcat(data: seq<byte>, at: nat, a: seq<byte>, b: seq<byte>)
    requires at + |a| + |b| <= |data|
    ensures Splice(Splice(data, at, a), at + |a|, b) == Splice(data, at, a + b)
  {
    var l := Splice(Splice(data, at, a), at + |a|, b);
    var r := Splice(data, at, a + b);
    var m := Splice(data, at, a);
    SpliceAt(data, at, a);
    SpliceAt(m, at + |a|, b);
    SpliceAt(data, at, a + b);
    forall i | 0 <= i < |data|
      ensures l[i] == r[i]
    {
      assert l[i] == if at + |a| <= i < at + |a| + |b| then b[i - at - |a|] else m[i];
      assert m[i] == if at <= i < at + |a| then a[i - at] else data[i];
    }
  }

  /** Reading back the span just written gives the bytes written. */
  lemma {:induction false} SpliceRead(data: seq<byte>, at: nat, bytes: seq<byte>)
    requires at + |bytes| <= |data|
    ensures Splice(data, at, bytes)[at..at + |bytes|] == bytes
  {
    SpliceAt(data, at, bytes);
  }

  /** Two adjacent slices of a sequence make up the slice across both. */
  lemma {:induction false} SliceJoin(s: seq<byte>, i: nat, j: nat, k: nat)
    requires i <= j <= k <= |s|
    ensures s[i..k] == s[i..j] + s[j..k]
  {
  }

  /** The schedule after one write call has consumed its entry. */
  function Consume(faults: seq<bool>): seq<bool> {
    if faults == [] then [] else faults[1..]
  }

  predicate NextWriteFails(d: Dev) {
    d.faults != [] && d.faults[0]
  }

  /** No write call of the schedule fails. */
  predicate FaultFree(faults: seq<bool>)
    decreases |faults|
  {
    faults == [] || (!faults[0] && FaultFree(faults[1..]))
  }

  /**
   * `seek` as written: nothing on a closed handle; on an open one, the move of
   * `SeekTargetAsWritten`, and `None` when that move stops the process.
   */
  function DevSeek(d: Dev, offset: Int64): (r: Option<Dev>)
    ensures !d.open ==> r == Some(d)
    ensures d.open ==> (r.None? <==> offset < 0 || TwoTo32 <= offset)
    ensures d.open && 0 <= offset <= INT32_MAX ==> r == Some(d.(cursor := offset as nat))
    ensures d.open && INT32_MAX < offset < TwoTo32 ==> r == Some(d)
  {
    if !d.open then Some(d)
    else match SeekTargetAsWritten(offset)
      case MoveTo(pos) => Some(d.(cursor := pos))
      case NoMove => Some(d)
      case BadAddress => None
  }

  /**
   * `write` of the bytes `out`: nothing on a closed handle; on an open one,
   * the call either fails by schedule or writes what fits at the cursor, and
   * the cursor advances by the count returned.
   */
  function DevWrite(d: Dev, out: seq<byte>): (r: (Dev, nat))
    ensures !d.open ==> r == (d, 0)
    ensures r.1 <= |out|
    ensures r.0.open == d.open && |r.0.data| == |d.data|
    ensures r.0.cursor == d.cursor + r.1
    ensures r.0.faults == if d.open then Consume(d.faults) else d.faults
    ensures r.1 > 0 ==> d.cursor + r.1 <= |d.data|
    ensures NextWriteFails(d) ==> r.1 == 0 && r.0.data == d.data
  {
    if !d.open then (d, 0)
    else if NextWriteFails(d) then (d.(faults := Consume(d.faults)), 0)
    else
      var k := Fit(d.cursor, |d.data|, |out|);
      var data := if k == 0 then d.data else Splice(d.data, d.cursor, out[..k]);
      (d.(data := data, cursor := d.cursor + k, faults := Consume(d.faults)), k)
  }

  /**
   * A write on an open handle that is not scheduled to fail and fits on the
   * device transfers all its bytes, spliced in at the cursor.
   */
  lemma {:induction false} DevWriteFits(d: Dev, out: seq<byte>)
    requires d.open && !NextWriteFails(d) && d.cursor + |out| <= |d.data|
    ensures DevWrite(d, out).1 == |out|
    ensures DevWrite(d, out).0.data == Splice(d.data, d.cursor, out)
  {
    assert out[..|out|] == out;
  }

  /**
   * A write changes the device only in the span it reports, and there it
   * leaves the bytes written.
   */
  lemma {:induction false} DevWriteFrame(d: Dev, out: seq<byte>)
    ensures var (d1, k) := DevWrite(d, out);
      forall i :: 0 <= i < |d.data| ==>
        d1.data[i] == if d.cursor <= i < d.cursor + k then out[i - d.cursor] else d.data[i]
  {
    if d.open && !NextWriteFails(d) {
      var k := Fit(d.cursor, |d.data|, |out|);
      if k > 0 {
        SpliceAt(d.data, d.cursor, out[..k]);
      }
    }
  }

  /**
   * `read` of up to `count` bytes: nothing on a closed handle; on an open
   * one, the bytes from the cursor up to the end of the device, the cursor
   * advancing by their number.
   */
  function DevRead(d: Dev, count: nat): (r: (Dev, seq<byte>))
    ensures !d.open ==> r == (d, [])
    ensures |r.1| <= count
    ensures r.0 == d.(cursor := d.cursor + |r.1|)
  {
    if !d.open then (d, [])
    else
      var k := Fit(d.cursor, |d.data|, count);
      var bytes := if k == 0 then [] else d.data[d.cursor..d.cursor + k];
      (d.(cursor := d.cursor + k), bytes)
  }

  /**
   * What a read returns is the device's bytes from the cursor on; it is the
   * whole request when that lies on the device, and not empty while the
   * cursor is before the end.
   */
  lemma {:induction false} DevReadSpan(d: Dev, count: nat)
    ensures var got := DevRead(d, count).1;
      (got != [] ==> d.cursor + |got| <= |d.data| && got == d.data[d.cursor..d.cursor + |got|]) &&
      (d.open && d.cursor + count <= |d.data| ==> |got| == count) &&
      (d.open && count > 0 && d.cursor < |d.data| ==> got != [])
  {
  }

  // ---------------------------------------------------------------------
  // The handle object
  // ---------------------------------------------------------------------

  /** `INVALID_HANDLE_VALUE`, the closed sentinel. */
  const InvalidHandle: int := -1

  class DiskIO {
    /** The name handed to `CreateFile`. */
    const path: string
    var hDevice: int
    /** The bytes of the device the handle was opened on. */
    var medium: seq<byte>
    /** The file pointer of the handle. */
    var cursor: nat
    /** The fault schedule of the coming write calls. */
    var faults: seq<bool>

    /** The handle and its device as a value. */
    ghost function State(): Dev
      reads this
    {
      Dev(hDevice != InvalidHandle, medium, cursor, faults)
    }

    /**
     * Opens `deviceName` in the raw-device namespace; `device` is what answers
     * to that name (`None` when the open fails) and `faults` its schedule of
     * failing writes.
     */
    constructor (deviceName: string, device: Option<seq<byte>>, faults: seq<bool>)
      ensures path == Normalize(deviceName)
      ensures State() == Dev(device.Some?, if device.Some? then device.value else [], 0, faults)
    {
      path := Normalize(deviceName);
      hDevice := if device.Some? then 1 else InvalidHandle;
      medium := if device.Some? then device.value else [];
      cursor := 0;
      this.faults := faults;
    }

    /** `isOpen`: the handle is not the sentinel. */
    predicate IsOpen()
      reads this
      ensures IsOpen() <==> State().open
    {
      hDevice != InvalidHandle
    }

    /** `close`: the handle becomes the sentinel; on a closed handle nothing happens. */
    method Close()
      modifies this
      ensures State() == old(State()).(open := false)
      ensures old(hDevice) == InvalidHandle ==> unchanged(this)
    {
      if hDevice == InvalidHandle {
        return;
      }
      hDevice := InvalidHandle;
    }

    /**
     * `seek`: false and no effect when closed, otherwise true whatever the
     * move did; `violation` stands for the access violation that a bad
     * high-word address raises, which ends the process.
     */
    method Seek(offset: Int64) returns (ok: bool, violation: bool)
      modifies this
      ensures violation <==> DevSeek(old(State()), offset).None?
      ensures violation ==> unchanged(this)
      ensures !violation ==> ok == old(IsOpen()) && State() == DevSeek(old(State()), offset).value
    {
      if !IsOpen() {
        return false, false;
      }
      match SeekTargetAsWritten(offset) {
        case MoveTo(pos) =>
          cursor := pos;
        case NoMove =>
        case BadAddress =>
          return true, true;
      }
      return true, false;
    }

    /** `write`: the count is cast to 16 bits before the call. */
    method Write(buffer: array<byte>, length: Int32) returns (n: int)
      requires AsUInt16(length) <= buffer.Length
      modifies this
      ensures (State(), n) == DevWrite(old(State()), buffer[..AsUInt16(length)])
    {
      if !IsOpen() {
        return 0;
      }
      var count := AsUInt16(length);
      if faults != [] && faults[0] {
        faults := Consume(faults);
        return 0;
      }
      var k := Fit(cursor, |medium|, count);
      if k > 0 {
        medium := Splice(medium, cursor, buffer[..k]);
        assert buffer[..count][..k] == buffer[..k];
      }
      cursor := cursor + k;
      faults := Consume(faults);
      n := k;
    }

    /** `read`: the count is cast to 16 bits; the bytes land at the front of `buffer`. */
    method Read(buffer: array<byte>, length: Int32) returns (n: int)
      requires AsUInt16(length) <= buffer.Length
      modifies this, buffer
      ensures State() == DevRead(old(State()), AsUInt16(length)).0
      ensures n == |DevRead(old(State()), AsUInt16(length)).1|
      ensures buffer[..n] == DevRead(old(State()), AsUInt16(length)).1
      ensures buffer[n..] == old(buffer[n..])
    {
      if !IsOpen() {
        return 0;
      }
      var count := AsUInt16(length);
      var k := Fit(cursor, |medium|, count);
      forall i | 0 <= i < k {
        buffer[i] := medium[cursor + i];
      }
      cursor := cursor + k;
      n := k;
    }
  }
}

# diskio: raw device transfer, modelled in Dafny

The project models the core of `diskio`, a Windows command-line tool. The tool copies bytes between a regular file and a raw block device. It has four parts:

- **Size strings** (`GetValue`, `ParseBytes`) and the size display (`FormatSize`), in `sizes.dfy`. The 64-bit wrap-around of `long` products is written out in `ints.dfy`.
- **The command line** of `Main`, in `command_line.dfy`:
  - the one-argument commands;
  - the usage guard;
  - the drive selector and its bounds check;
  - the `for` loop over `-r`/`-read`, `-s`/`-start`, `-w`/`-write` and `-q`.
- **The device handle** `DiskIO`, in `device.dfy`:
  - a class whose handle field is `-1` when closed;
  - it works over a modelled device: a byte sequence, a file pointer, and a fault schedule that decides which write calls fail.

  The pure value `Dev` specifies the class. Each method is proved to act on `State()` as the matching `Dev` function does.
- **The transfer engine**, in `transfer.dfy`:
  - The write loop sends the file to the device in 512-byte chunks. A short write re-seeks to the chunk's offset and retries, up to three times.
  - The read loop sends the device to the file in chunks of `min(remaining, 512)`. A read of nothing is fatal.
  - The session in `Main` runs around both loops.
  - The loops are methods. Each is proved equal to a recursive specification function: `WriteChunks`/`RetryWrite` for writing and `ReadChunks` for reading. The lemmas about the loops are proved against those functions.

The model follows the code where the tool's evident intent differs from its code:

- **An abort still counts the chunk.** When a chunk's write attempts run out, the loop still adds the failed chunk to `numBytes` and `startingOffset` before it stops.
- **"Completed" is printed after an abort.** Write mode prints its completion line even after an abort, because `fileSize` is never -1 there.
- **"Completed" is not printed for `-r -1`.** Read mode sets `fileSize` to the requested count, so a request of -1 suppresses the line just as a failed read does.
- **The seek is the call as written.** `seek` passes the high word where `SetFilePointer` expects its address (see Findings).
  - Offsets from 0 up to 2^31 - 1 are reached.
  - Offsets from 2^31 up to 2^32 - 1 leave the pointer where it is, so a session started there writes or reads at offset 0.
  - Negative offsets and offsets of 2^32 or more make `SetFilePointer` read from a bad address. The model takes this as an access violation that ends the run, reported as `Crashed`.

These appear as proved properties: `FourFailuresAbort`, `AbortedWriteReportsCompletion`, `ReadMinusOneIncomplete`, `WriteAt2GiBLandsAtZero`, `FarStartCrashes`, `ReseekStays` and `ReseekFaults`. The lemmas that re-seek or seek to the start are stated for offsets below 2 GiB, where the call reaches its target.

## Model

| member | source | states |
|---|---|---|
| Ints.Wrap64 | Program.cs:48-52 | an unchecked 64-bit result is the exact one whenever the exact one fits in a `long` |
| Ints.WrapMul | Program.cs:50-52 | wrapping after each factor of `val * 1024 * 1024` is the same as wrapping the full product once |
| Ints.AsUInt16 | DiskIO.cs:98 | the `(ushort)` cast of a count is below 65536, congruent to the count mod 65536, and the count itself when that is in range |
| Sizes.ParseInteger | Program.cs:29-37 | a successful `TryParse` yields a value within the target type's range, from text that starts with a sign or a digit |
| Sizes.DecimalParses | Program.cs:33 | every decimal rendering whose value is in range, with or without a minus sign, is parsed back as the number it renders |
| Sizes.GetValue | Program.cs:29-37 | `GetValue` is the parsed `long` when `TryParse` accepts the text and 0 otherwise; it never fails |
| Sizes.GetValueMalformed | Program.cs:33-36 | text that does not start with a sign or a digit is worth 0 |
| Sizes.GetValueDecimal | Program.cs:29-37 | the decimal rendering of any `long`, `INT64_MIN` included, is worth that number |
| Sizes.LowerText | Program.cs:44 | `ToLower` keeps the length and lower-cases every character in place |
| Sizes.ParseIgnoresCase | Program.cs:44-55 | lower-casing the text never changes whether or how it parses as a number |
| Sizes.Multiplier | Program.cs:48-52 | each unit letter stands for a positive number of bytes |
| Sizes.Scaled | Program.cs:48-52 | a unit's case of the `switch` gives the exact product of the value and the unit's byte count whenever that product fits in a `long`, for a value of either sign |
| Sizes.ScaledIsProduct | Program.cs:48-52 | each unit's case of the `switch`, multiplied step by step, is the wrapped product of the value and the unit's byte count |
| Sizes.ParseBytes | Program.cs:39-56 | `ParseBytes` fails exactly on the empty string, where `Substring` throws, and `"0"` is 0 |
| Sizes.ParseBytesWithUnit | Program.cs:43-52 | text ending in s, b, k, m or g, in either case, is the numeric prefix (0 when malformed) times 512, 1, 1024, 1024² or 1024³, wrapped to 64 bits |
| Sizes.ParseBytesDecimal | Program.cs:43-52 | a decimal number followed by a unit letter, when the product fits, parses to the number times the unit |
| Sizes.ParseBytesNoUnit | Program.cs:55 | without a unit letter at the end, the result is `GetValue` of the whole text |
| Sizes.FormatSize | Program.cs:58-76 | exactly the sizes below 1024 are shown in bytes, as they are and with no fraction; any other size is shown as at least 1 of its unit, and below 1024 of it unless the unit is TB |
| Sizes.FormatSizeScale | Program.cs:58-76 | sizes below 1024, negatives included, are shown in bytes; any other size is shown as size / 1024^k, for the smallest k in 1..3 that brings it below 1024, or k = 4 (TB); a fraction follows exactly when the last division left a remainder |
| Sizes.FormatSizeExamples | Program.cs:63-70 | 1023 is "1023 Bytes", 1024 is "1 KB", 1536 is "1 KB" with a fraction, 1048576 is "1 MB", and -5 is "-5 Bytes" |
| CommandLine.ScanOptions | Program.cs:175-208 | the option scan stops with an error only when the option area holds a `-r`/`-read` or `-s`/`-start` (the only options that can fail), and once it has set a mode or quiet it never unsets them |
| CommandLine.ScanConcat | Program.cs:175-208 | a clean scan of a prefix of the option area leaves nothing pending: the rest is scanned from the settings the prefix produced |
| CommandLine.LastModeWins | Program.cs:179-192 | the last of `-w` and `-r <n>` decides the mode, and `-r` also sets the byte count |
| CommandLine.ModeOptions | Program.cs:177-192 | the modes the options set, in the order the scan meets them, skipping the value positions of `-r` and `-s`; each is read or write |
| CommandLine.LastModeDecides | Program.cs:175-208 | after a clean scan the mode is the last one an option set, or the initial mode when none did; `-q`, `-s <n>` and non-options never change it |
| CommandLine.MissingValue | Program.cs:179-203 | `-r` or `-s` as the last argument of the option area stops with the matching "Parameter missing" error |
| CommandLine.UnknownIgnored | Program.cs:175-207 | an argument that is not an option has no effect wherever it stands |
| CommandLine.Interpret | Program.cs:102-208 | exactly the calls with three or more arguments get past the version, enumeration and usage commands; a rejected drive number lies outside the enumerated drives |
| CommandLine.SelectorOutOfRange | Program.cs:163-169 | a numeric selector outside the enumerated drives stops the program, before the scan and before any device is opened |
| CommandLine.TransferDevice | Program.cs:158-173 | a transfer names the last argument as its file, and as its device either the enumerated drive the selector numbers or the non-numeric selector text itself |
| CommandLine.ParseArguments | Program.cs:117-208 | the argument handling, run step by step, yields what `Interpret` defines |
| CommandLine.ScanLoop | Program.cs:175-208 | the `for` loop that moves its index past an option's value computes the option scan of the option area |
| Device.Normalize | DiskIO.cs:46 | the name handed to `CreateFile` starts with `\\.\` and ends with the given name; it is the given name exactly when that already starts with `\\.\` |
| Device.NormalizeIdempotent | DiskIO.cs:46 | normalising twice is normalising once, and adds at most the four-character prefix |
| Device.HighWord | DiskIO.cs:84 | `offset >> 32` is the arithmetic shift: the high word times 2^32 plus the unsigned low word is the offset, negative offsets included |
| Device.LowWord | DiskIO.cs:84 | `offset & 0xFFFFFFFF` is an unsigned 32-bit word |
| Device.AsInt32 | DiskIO.cs:84 | the `(Int32)` cast keeps the word modulo 2^32 |
| Device.SplitCombine | DiskIO.cs:84 | the high word and the low word, taken as unsigned, recombine to the original offset |
| Device.SeekTarget | DiskIO.cs:80-87 | the intended seek, with the high word passed by reference, reaches the offset when it is non-negative and does not move otherwise |
| Device.SeekTargetAsWritten | DiskIO.cs:84 | the pointer move as written reads from a bad address exactly for negative offsets and offsets of 2^32 or more; it reaches the offset exactly when the offset is from 0 to 2^31 - 1; otherwise it fails without moving |
| Device.SeekAsWrittenBelow2GiB | DiskIO.cs:84 | the call as written makes the intended move exactly for offsets from 0 to 2^31 - 1 |
| Device.SeekAsWrittenMisses2GiB | DiskIO.cs:84 | at offset 2^31 the call as written does not move while the intended call reaches the offset; at 2^32 it reads from a bad address |
| Device.Fit | DiskIO.cs:98 | a transfer moves at most the request, never past the end of the device, all of it when it fits, and something while the pointer is before the end |
| Device.Splice | DiskIO.cs:98 | writing bytes over the device keeps its size |
| Device.SpliceAt | DiskIO.cs:98 | after a write, every position inside the written span holds the byte written there, and every other position its old byte |
| Device.SpliceConcat | DiskIO.cs:98 | writing two adjacent runs one after the other is writing their concatenation |
| Device.SpliceRead | DiskIO.cs:92-113 | reading back the span just written gives the bytes written |
| Device.DevSeek | DiskIO.cs:80-87 | a seek on a closed handle changes nothing; on an open one it moves only the pointer: to the offset from 0 to 2^31 - 1, nowhere from 2^31 to 2^32 - 1, and it ends the process for negative offsets and offsets of 2^32 or more |
| Device.DevWrite | DiskIO.cs:92-100 | a write on a closed handle returns 0 and changes nothing; otherwise it uses one schedule entry, keeps the size, returns at most the request, advances the pointer by what it returns, stays on the device, and returns 0 with the data untouched when scheduled to fail |
| Device.DevWriteFits | DiskIO.cs:98-99 | a write that is not scheduled to fail and fits on the device transfers all its bytes at the pointer |
| Device.DevWriteFrame | DiskIO.cs:98 | a write changes the device only in the span it reports, and leaves there the bytes written |
| Device.DevRead | DiskIO.cs:105-113 | a read on a closed handle returns nothing and changes nothing; otherwise it returns at most the request and advances the pointer by what it returns |
| Device.DevReadSpan | DiskIO.cs:111-112 | a read returns the device's bytes from the pointer on: all of the request when it lies on the device, and something while the pointer is before the end |
| Device.DiskIO.constructor | DiskIO.cs:44-47 | the handle opens the normalised name, is open exactly when a device answers to it, and starts at offset 0 |
| Device.DiskIO.IsOpen | DiskIO.cs:60-63 | `isOpen` is true exactly when the handle is not the -1 sentinel |
| Device.DiskIO.Close | DiskIO.cs:68-75 | after `close` the handle is closed with device, pointer and schedule kept, and on a closed handle nothing changes |
| Device.DiskIO.Seek | DiskIO.cs:80-87 | `seek` acts as `DevSeek`: it signals the access violation exactly when `DevSeek` ends the process, and then changes nothing; otherwise it returns whether the handle was open, whatever the move did |
| Device.DiskIO.Write | DiskIO.cs:92-100 | `write` acts as `DevWrite` on the first `length mod 65536` bytes of the buffer, returning its count |
| Device.DiskIO.Read | DiskIO.cs:105-113 | `read` acts as `DevRead` on `length mod 65536` bytes, putting the bytes at the front of the buffer and leaving the rest of the buffer alone |
| Transfer.WriteChunks | Program.cs:257-294 | the write loop keeps the handle open or closed and the device's size, and only a loop on an open handle can crash |
| Transfer.RetryWrite | Program.cs:262-282 | the attempts at the `RetryWrite` label keep the handle open or closed and the device's size, and only an open handle can crash |
| Transfer.ChunkStart | Program.cs:257-262 | proof step: unfolds the loop at a chunk that is left, into the `RetryWrite` label with three retries |
| Transfer.WriteDone | Program.cs:259-260 | proof step: unfolds the loop at the end of the file, where it stops with the counters as they are and no abort |
| Transfer.WriteStep | Program.cs:264-279 | proof step: unfolds one pass through the `RetryWrite` label, including the re-seek that may crash |
| Transfer.NextChunkWritten | Program.cs:257-279 | proof step: a chunk whose first write goes through and fits is written at the pointer, and the loop goes on with the next chunk |
| Transfer.ChunkWritten | Program.cs:265-279 | a write that is not scheduled to fail and fits lands the chunk at the pointer, and the loop goes on with the next chunk |
| Transfer.ChunkRefused | Program.cs:265-275 | at an offset below 2 GiB, a failing write re-seeks to the chunk's offset and retries with one retry fewer, or with none left stops the loop with the chunk counted |
| Transfer.ReseekStays | Program.cs:265-275 | at an offset from 2^31 to 2^32 - 1, a failing write's re-seek leaves the pointer where it was, and the retry or the abort follows from there |
| Transfer.ReseekFaults | Program.cs:265-267 | at a negative offset or one of 2^32 or more, a failing write's re-seek crashes the run with the chunk not counted |
| Transfer.WriteCounters | Program.cs:257-294 | `numBytes` and `startingOffset` grow together, never past the file; the loop ends early only by an abort or a crash; an abort has counted the failed chunk |
| Transfer.RetryCounters | Program.cs:262-282 | from the `RetryWrite` label on, the current chunk is counted unless the run crashes, and the counters keep the `WriteCounters` relations |
| Transfer.WriteFaultFree | Program.cs:257-294 | with no failing write and a file that fits from the pointer, the file lands at the pointer wherever it is, every byte is counted once, and the loop ends with no abort and no crash |
| Transfer.RetryRecovers | Program.cs:262-270 | at an offset below 2 GiB, a chunk whose first j writes fail (j ≤ retries left) and whose next write succeeds is written once, at its offset, after j + 1 write calls, and the loop goes on with the next chunk |
| Transfer.RetryExhausted | Program.cs:265-282 | at an offset below 2 GiB, a chunk whose remaining attempts all fail stops the loop: the device is untouched, the pointer is at the chunk's offset, yet both counters have counted the chunk |
| Transfer.FailThenSucceed | Program.cs:262-282 | at an offset below 2 GiB, a one-chunk file whose first j ≤ 3 writes fail is written and counted exactly once |
| Transfer.FourFailuresAbort | Program.cs:262-282 | at an offset below 2 GiB, four failing writes on the first chunk abort the loop, with the device untouched and the chunk counted in `numBytes` and `startingOffset` |
| Transfer.WriteChunk | Program.cs:262-282 | the `goto RetryWrite` attempts, run on the handle, leave the loop after the chunk with retries left, or stopped with `tries` at -1, or crashed by a re-seek, as `RetryWrite` says |
| Transfer.ReadFile | Program.cs:259 | `file.Read` puts the next up-to-512 bytes of the file at the front of the buffer |
| Transfer.WriteLoop | Program.cs:257-294 | the write loop on the handle ends with the device, counters, abort flag and crash that `WriteChunks` gives for the starting state |
| Transfer.ReadChunks | Program.cs:307-332 | the read loop never changes the device's bytes |
| Transfer.ReadCounters | Program.cs:307-323 | bytes written to the file plus bytes still wanted equal the request; the offset and the pointer advance by exactly what was read; a failure leaves bytes wanted, a normal end leaves none |
| Transfer.ReadContiguous | Program.cs:311-319 | the file receives the device's bytes from the pointer on, in order |
| Transfer.ReadBack | Program.cs:307-332 | a request that lies on the device is read in full, without failure |
| Transfer.ReadNoFailure | Program.cs:311-317 | while the bytes still wanted lie on the device, no read comes back empty |
| Transfer.ReadFailsAfterOneChunk | Program.cs:311-317 | a device that ends one sector after the pointer, asked for more, yields that sector and then stops the loop at the next read, with no retry |
| Transfer.ReadLoop | Program.cs:307-332 | the read loop on the handle ends with the file contents, counters and failure flag that `ReadChunks` gives for the starting state, and `numBytes` is the file's length |
| Transfer.ReadStep | Program.cs:309-323 | proof step: unfolds one read of the loop; nothing read stops it as a failure, anything read is appended to the file |
| Transfer.SessionSpec | Program.cs:210-343 | a run keeps the device's size, changes the device only in write mode, never changes the input file, fails to open exactly when no device answers, and crashes only for a far start or in write mode |
| Transfer.RoundTrip | Program.cs:257-332 | writing a file at an offset below 2 GiB with no failing write, then reading as many bytes from that offset, gives the file back; the device holds the file there and is unchanged elsewhere |
| Transfer.WriteSessionFaultFree | Program.cs:210-299 | a confirmed write session from a start below 2 GiB with no failing write puts the file at the start offset and reports all of it written and completed |
| Transfer.WriteAt2GiBLandsAtZero | Program.cs:219-299 | a write session started at 2^31 with no failing write puts the file at offset 0 of the device, while the report counts from 2^31 |
| Transfer.FarStartCrashes | Program.cs:219-220 | a negative start or one of 2^32 or more crashes the run at the first seek, before anything is moved |
| Transfer.ReadSessionBack | Program.cs:301-337 | a read session from a start below 2 GiB over bytes that lie on the device returns those bytes and reports completion |
| Transfer.ReadMinusOneIncomplete | Program.cs:301-335 | `-r -1` reads nothing, leaves the file empty and does not print the completion line |
| Transfer.SessionWrites | Program.cs:232-299 | write mode at a start below 2 GiB, past the prompt, is the write loop from the start; it reports a crash if a re-seek crashed, and otherwise the counters with completion |
| Transfer.SessionReads | Program.cs:301-337 | read mode at a start below 2 GiB is the read loop from the start into an emptied file; it reports completion unless a read failed or the request was -1 |
| Transfer.DeclineWritesNothing | Program.cs:219-247 | declining the prompt ends write mode with the device untouched, unless the first seek has already crashed the run |
| Transfer.AbortedWriteReportsCompletion | Program.cs:272-297 | from a start below 2 GiB, a write whose first chunk fails four times reports that chunk as written and still prints the completion line |
| Transfer.Session | Program.cs:210-343 | the session run on a `DiskIO` handle (construct, check open, seek when the start is not 0, the mode's loop, close) yields what `SessionSpec` defines, a crash included |
| Transfer.Run | Program.cs:102-343 | `Main` as a whole: the arguments are interpreted as `Interpret` says, and exactly a transfer runs the session, on the device found under the normalised name |

## Left out

- The WMI drive enumeration and its printing (`EnumDrives`, `DumpDrive`) are a foreign library: the drives are a given sequence of names.
- The version, banner, usage and error texts are console output: the model returns which command or error applies, not the text.
- The `Console.ReadKey` confirmation is interactive input: it is a boolean parameter of the session.
- The progress lines, throttled by `DateTime.Now.Ticks`, and their float percentages are left out: wall-clock time and floating point.
- Sizes.FormatSize: renders the unit, the integer part and whether a fraction follows, but not the float text `(rem / 1024.0f).ToString(".00")`.
- The kernel32 calls (`CreateFile`, `SetFilePointer`, `ReadFile`, `WriteFile`, `CloseHandle`) are replaced by the modelled device. Writes fail only by the fault schedule or at the end of the device; reads never fail before the end.
- `getLastError` and `WinErrors.GetSystemMessage` are left out: they only translate the OS error text.
- `getDeviceHandle` has no behaviour to state: the open handle is the value 1, and the closed one is the sentinel -1.
- `FileStream` and `FileInfo` are byte sequences:
  - the input file of write mode is given;
  - the output file of the other modes is what the read loop appends;
  - a missing input file, which throws in `File.Open`, is not modelled.
- Device.DiskIO: the device's bytes are a field of the handle, so two handles on one device do not share state. Exclusive access (no sharing in `CreateFile`) is not modelled.
- Transfer.WriteChunk: the number of write and seek calls is not counted as such. Each write call on an open handle consumes one entry of the fault schedule, so `RetryRecovers` and `RetryExhausted` show the number of write calls through the schedule entries consumed.
- The second `if (tries == -1) disk.seek(...)` after the `break` (Program.cs:284-285) cannot run, and is not modelled.
- Sizes.ParseInteger: accepts an optional sign followed by decimal digits only. The surrounding white space and the culture's sign symbols accepted by `long.TryParse` and `int.TryParse` are not modelled.
- Sizes.LowerText: lower-cases ASCII letters only, not the culture-sensitive `ToLower`.
- Device.Normalize: `StartsWith` is taken as an ordinal comparison, not the culture-sensitive one of DiskIO.cs:46.
- Transfer.WriteLoop: `numBytes` is an unbounded integer; overflowing it would need more than 8 EiB written. `startingOffset` is kept exact inside the loop, and wrapped to 64 bits where the source uses it: in the re-seek, and in the session's report. Any start of 2^32 or more, or a negative start, crashes at the first seek (`FarStartCrashes`). A wrapped report would need a file of more than 2^63 - 2^32 bytes.
- Transfer.ReadLoop: `numBytes` is unbounded for the same reason. `bytesToRead` only decreases from a `long` and never below 0. `startingOffset` is exact inside the loop and wrapped to 64 bits in the session's report.
- Device.DevSeek: a high word that is not zero is read by `SetFilePointer` as an address. The model takes every such read as an access violation that ends the process. An address that happens to be mapped would instead be read and written over; that is not modelled.
- Transfer.Session: after an access violation, the process ends. The model stops the run there and reports `Crashed`, with the device as it was at that moment and the file as it was opened. The handle and the file are left unclosed, and nothing after that is modelled.
- Transfer.Run: the device that answers to a name is looked up in a map from raw-device paths to their bytes, and the file's bytes are given. The `drive["Model"]` text of the prompt is console output and is left out.

## Findings

| source | as written | input that shows it | evidently intended | confidence | as-written member | corrected member |
|---|---|---|---|---|---|---|
| DiskIO.cs:84 | `seek` passes the high word itself, `new IntPtr((Int32)(offset >> 32))`, where `SetFilePointer` expects the address of the high word. A zero high word becomes a null address, so the low word alone is read as a signed 32-bit distance. Any other high word is not an address of a high word at all. | `seek(2147483648)`: the high word is 0 and the low word, cast to `Int32`, is -2147483648, so the pointer does not reach offset 2^31. `seek(4294967296)`: the high word 1 is read as an address | pass a reference to a variable that holds the high word, so that the recombined 64-bit offset is reached | medium, not executed | Device.SeekTargetAsWritten (used by Device.DevSeek and Device.DiskIO.Seek; exhibited by Device.SeekAsWrittenMisses2GiB, Device.SeekAsWrittenBelow2GiB and Transfer.WriteAt2GiBLandsAtZero) | Device.SeekTarget (with Device.SplitCombine: the recombined words are the offset, so every non-negative offset is reached) |

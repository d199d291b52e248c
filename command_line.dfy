/**
 * The command line of the tool (Program.cs, `Main` up to the opening of the
 * device): the one-argument commands, the usage guard, the drive selector
 * and the option scan.
 */
module CommandLine {
  import opened Ints
  import opened Wrappers
  import opened Sizes

  /** `mode` in `Main`: 0 (nothing to do), 1 (read) or 2 (write). */
  datatype Mode = Idle | ReadMode | WriteMode

  /** The locals the option scan sets. */
  datatype Settings = Settings(mode: Mode, quiet: bool, start: Int64, bytesToRead: Int64)

  const Initial := Settings(Idle, false, 0, 0)

  /** Why the option scan stops the program. */
  datatype ScanError =
    | MissingParameter(option: string)  // "Error: Parameter missing for option: ..."
    | SizeException                     // `ParseBytes` threw on an empty value

  /** What `Main` goes on to do with its arguments. */
  datatype Command =
    | ShowVersion
    | ListDrives
    | ShowUsage
    | NoSuchDrive(index: int)
    | Stopped(error: ScanError)
    | Transfer(device: string, driveIndex: Option<nat>, file: string, settings: Settings)

  predicate IsReadOption(a: string) { a == "-r" || a == "-read" }
  predicate IsStartOption(a: string) { a == "-s" || a == "-start" }
  predicate IsWriteOption(a: string) { a == "-w" || a == "-write" }
  predicate IsQuietOption(a: string) { a == "-q" }

  predicate IsOption(a: string) {
    IsReadOption(a) || IsStartOption(a) || IsWriteOption(a) || IsQuietOption(a)
  }

  /**
   * The option scan over the option area (every argument but the last two):
   * `-r`/`-s` take the next argument of the area as their value, `-w` and
   * `-q` stand alone, anything else is skipped. An error needs a `-r` or
   * `-s` in the area to report; once a mode or quiet is set, the scan never
   * unsets it.
   */
  function ScanOptions(opts: seq<string>, st: Settings): (r: Result<Settings>)
    ensures r.Err? ==> exists i :: 0 <= i < |opts| && (IsReadOption(opts[i]) || IsStartOption(opts[i]))
    ensures r.Ok? && st.mode != Idle ==> r.value.mode != Idle
    ensures r.Ok? && st.quiet ==> r.value.quiet
    decreases |opts|
  {
    if opts == [] then Ok(st)
    else if IsReadOption(opts[0]) || IsStartOption(opts[0]) then
      var name := if IsReadOption(opts[0]) then "-read" else "-start";
      if |opts| < 2 then Err(MissingParameter(name))
      else match ParseBytes(opts[1])
        case None => Err(SizeException)
        case Some(v) =>
          var st' := if IsReadOption(opts[0]) then st.(bytesToRead := v, mode := ReadMode)
                     else st.(start := v);
          ScanOptions(opts[2..], st')
    else if IsWriteOption(opts[0]) then ScanOptions(opts[1..], st.(mode := WriteMode))
    else if IsQuietOption(opts[0]) then ScanOptions(opts[1..], st.(quiet := true))
    else ScanOptions(opts[1..], st)
  }

  datatype Result<T> = Ok(value: T) | Err(error: ScanError)

  /**
   * A scan that ends cleanly on a prefix leaves nothing pending: what follows
   * is scanned from the settings the prefix produced.
   */
  lemma {:induction false} ScanConcat(pre: seq<string>, post: seq<string>, st: Settings)
    requires ScanOptions(pre, st).Ok?
    ensures ScanOptions(pre + post, st) == ScanOptions(post, ScanOptions(pre, st).value)
    decreases |pre|
  {
    if pre != [] {
      var all := pre + post;
      assert all[0] == pre[0];
      if IsReadOption(pre[0]) || IsStartOption(pre[0]) {
        assert all[1] == pre[1];
        assert all[2..] == pre[2..] + post;
        var v := ParseBytes(pre[1]).value;
        var st' := if IsReadOption(pre[0]) then st.(bytesToRead := v, mode := ReadMode) else st.(start := v);
        assert ParseBytes(all[1]) == Some(v);
        assert ScanOptions(pre, st) == ScanOptions(pre[2..], st');
        assert ScanOptions(all, st) == ScanOptions(pre[2..] + post, st');
        ScanConcat(pre[2..], post, st');
      } else {
        assert all[1..] == pre[1..] + post;
        var st' := if IsWriteOption(pre[0]) then st.(mode := WriteMode)
                   else if IsQuietOption(pre[0]) then st.(quiet := true) else st;
        assert ScanOptions(pre, st) == ScanOptions(pre[1..], st');
        assert ScanOptions(all, st) == ScanOptions(pre[1..] + post, st');
        ScanConcat(pre[1..], post, st');
      }
    } else {
      assert pre + post == post;
    }
  }

  /** The last of `-r`/`-w` decides the mode. */
  lemma {:induction false} LastModeWins(pre: seq<string>, st: Settings, w: string, r: string, value: string)
    requires ScanOptions(pre, st).Ok?
    requires IsWriteOption(w) && IsReadOption(r) && value != []
    ensures ScanOptions(pre + [w], st) == Ok(ScanOptions(pre, st).value.(mode := WriteMode))
    ensures ScanOptions(pre + [r, value], st) ==
            Ok(ScanOptions(pre, st).value.(mode := ReadMode, bytesToRead := ParseBytes(value).value))
  {
    ScanConcat(pre, [w], st);
    ScanConcat(pre, [r, value], st);
  }

  /**
   * The modes the option scan sets, in order: `-r`/`-read` with its value,
   * `-w`/`-write`. The value positions are skipped as the scan skips them.
   */
  function ModeOptions(opts: seq<string>): (modes: seq<Mode>)
    ensures forall i :: 0 <= i < |modes| ==> modes[i] != Idle
    decreases |opts|
  {
    if opts == [] then []
    else if IsReadOption(opts[0]) then (if |opts| < 2 then [] else [ReadMode] + ModeOptions(opts[2..]))
    else if IsStartOption(opts[0]) then (if |opts| < 2 then [] else ModeOptions(opts[2..]))
    else if IsWriteOption(opts[0]) then [WriteMode] + ModeOptions(opts[1..])
    else ModeOptions(opts[1..])
  }

  /**
   * The mode after a clean scan is the last mode an option set, or the mode
   * it started from when no option set one: `-q`, `-s` and its value, and
   * arguments that are not options leave the mode alone.
   */
  lemma {:induction false} LastModeDecides(opts: seq<string>, st: Settings)
    requires ScanOptions(opts, st).Ok?
    ensures var modes := ModeOptions(opts);
      ScanOptions(opts, st).value.mode == if modes == [] then st.mode else modes[|modes| - 1]
    decreases |opts|
  {
    if opts != [] {
      var a := opts[0];
      if IsReadOption(a) || IsStartOption(a) {
        var st' := if IsReadOption(a) then st.(bytesToRead := ParseBytes(opts[1]).value, mode := ReadMode)
                   else st.(start := ParseBytes(opts[1]).value);
        LastModeDecides(opts[2..], st');
      } else {
        var st' := if IsWriteOption(a) then st.(mode := WriteMode)
                   else if IsQuietOption(a) then st.(quiet := true) else st;
        LastModeDecides(opts[1..], st');
      }
    }
  }

  /** `-r` or `-s` as the last argument of the option area is missing its value. */
  lemma {:induction false} MissingValue(pre: seq<string>, st: Settings, opt: string)
    requires ScanOptions(pre, st).Ok?
    requires IsReadOption(opt) || IsStartOption(opt)
    ensures ScanOptions(pre + [opt], st) ==
            Err(MissingParameter(if IsReadOption(opt) then "-read" else "-start"))
  {
    ScanConcat(pre, [opt], st);
  }

  /** An argument that is not an option is ignored wherever the scan meets it. */
  lemma {:induction false} UnknownIgnored(pre: seq<string>, a: string, post: seq<string>, st: Settings)
    requires ScanOptions(pre, st).Ok? && !IsOption(a)
    ensures ScanOptions(pre + [a] + post, st) == ScanOptions(pre + post, st)
  {
    ScanConcat(pre, [a] + post, st);
    ScanConcat(pre, post, st);
    assert pre + [a] + post == pre + ([a] + post);
    assert ([a] + post)[1..] == post;
  }

  /**
   * What `Main` does with its arguments, `drives` being the names of the
   * enumerated drives: the version and enumeration commands, the usage text
   * for fewer than three arguments, the drive selector check, then the scan.
   * With three arguments or more none of the one-argument commands and no
   * usage text; a rejected selector is outside the enumerated drives.
   */
  function Interpret(args: seq<string>, drives: seq<string>): (c: Command)
    ensures |args| >= 3 <==> !(c.ShowVersion? || c.ListDrives? || c.ShowUsage?)
    ensures c.NoSuchDrive? ==> c.index < 0 || |drives| <= c.index
  {
    if |args| == 1 && args[0] == "-v" then ShowVersion
    else if |args| == 1 && (args[0] == "enum" || args[0] == "-enum" || args[0] == "-e") then ListDrives
    else if |args| < 3 then ShowUsage
    else
      var selector := args[|args| - 2];
      var file := args[|args| - 1];
      match ParseInteger(selector, INT32_MIN, INT32_MAX)
      case Some(n) =>
        if n < 0 || n >= |drives| then NoSuchDrive(n)
        else Scanned(args, drives[n], Some(n), file)
      case None => Scanned(args, selector, None, file)
  }

  function Scanned(args: seq<string>, device: string, index: Option<nat>, file: string): Command
    requires |args| >= 2
  {
    match ScanOptions(args[..|args| - 2], Initial)
    case Ok(st) => Transfer(device, index, file, st)
    case Err(e) => Stopped(e)
  }

  /**
   * A numeric selector outside the enumerated drives stops the program, before
   * the option scan and before any device is opened.
   */
  lemma {:induction false} SelectorOutOfRange(args: seq<string>, drives: seq<string>, n: int)
    requires |args| >= 3
    requires ParseInteger(args[|args| - 2], INT32_MIN, INT32_MAX) == Some(n)
    requires n < 0 || n >= |drives|
    ensures Interpret(args, drives) == NoSuchDrive(n)
  {
  }

  /** A transfer only ever names an enumerated drive or the selector text itself. */
  lemma {:induction false} TransferDevice(args: seq<string>, drives: seq<string>)
    requires Interpret(args, drives).Transfer?
    ensures var c := Interpret(args, drives);
      |args| >= 3 && c.file == args[|args| - 1] &&
      match c.driveIndex
      case Some(n) => n < |drives| && c.device == drives[n]
      case None => c.device == args[|args| - 2] && ParseInteger(c.device, INT32_MIN, INT32_MAX).None?
  {
  }

  /**
   * The argument handling of `Main` as it runs: the guards, the selector, then
   * the option scan.
   */
  method ParseArguments(args: seq<string>, drives: seq<string>) returns (c: Command)
    ensures c == Interpret(args, drives)
  {
    if |args| == 1 && args[0] == "-v" { return ShowVersion; }
    if |args| == 1 && (args[0] == "enum" || args[0] == "-enum" || args[0] == "-e") { return ListDrives; }
    if |args| < 3 { return ShowUsage; }

    var driveName := args[|args| - 2];
    var fileName := args[|args| - 1];
    var index: Option<nat> := None;
    var parsed := ParseInteger(driveName, INT32_MIN, INT32_MAX);
    if parsed.Some? {
      var driveNumber := parsed.value;
      if driveNumber < 0 || driveNumber >= |drives| { return NoSuchDrive(driveNumber); }
      index := Some(driveNumber);
      driveName := drives[driveNumber];
    }

    var scanned := ScanLoop(args, |args| - 2);
    match scanned
    case Ok(st) => c := Transfer(driveName, index, fileName, st);
    case Err(e) => c := Stopped(e);
  }

  /**
   * The `for` loop of `Main` over the option area `args[..end]`, which
   * advances its index past an option's value.
   */
  method ScanLoop(args: seq<string>, end: nat) returns (r: Result<Settings>)
    requires end <= |args|
    ensures r == ScanOptions(args[..end], Initial)
  {
    var st := Initial;
    var i := 0;
    while i < end
      invariant 0 <= i <= end
      invariant ScanOptions(args[..end], Initial) == ScanOptions(args[i..end], st)
    {
      assert args[i..end][0] == args[i];
      var a := args[i];
      if IsReadOption(a) || IsStartOption(a) {
        i := i + 1;
        if i >= end {
          return Err(MissingParameter(if IsReadOption(a) then "-read" else "-start"));
        }
        assert args[i - 1..end][1] == args[i];
        assert args[i - 1..end][2..] == args[i + 1..end];
        var v := ParseBytes(args[i]);
        if v.None? { return Err(SizeException); }
        if IsReadOption(a) {
          st := st.(bytesToRead := v.value, mode := ReadMode);
        } else {
          st := st.(start := v.value);
        }
      } else {
        assert args[i..end][1..] == args[i + 1..end];
        if IsWriteOption(a) {
          st := st.(mode := WriteMode);
        } else if IsQuietOption(a) {
          st := st.(quiet := true);
        }
      }
      i := i + 1;
    }
    assert args[i..end] == [];
    r := Ok(st);
  }
}

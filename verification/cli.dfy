/**
  The decisions `main` takes before and after reading the header: argument
  scanning, the size bound, the short-read check, and which printer runs.
  Opening the file and reading the 8-byte length are left to the caller,
  which hands over the declared length and the bytes that follow it.
 */
module Cli {
  import opened Wrappers
  import Reformat
  import Metadata

  /** Declared header lengths from this value up are refused. */
  const MaxJsonSize: nat := 2 * 1024 * 1024

  datatype Flags = Flags(verbose: bool, prettify: bool, metadata: bool)

  /** Result of scanning `argv`: print the help and exit 1 or 0, or inspect a file. */
  datatype Command = Usage | Help | Inspect(flags: Flags, filename: string)

  /** What a run of the program ends with. */
  datatype Outcome =
    | ShowHelp(exitCode: int)   // print_help, then return the code
    | TooLarge                  // "JSON header too large.", exit 1
    | ShortRead                 // fewer header bytes than declared, exit 1
    | Printed(text: string)     // the printer's output, exit 0

  function ExitCode(o: Outcome): int
  {
    match o
    case ShowHelp(code) => code
    case TooLarge => 1
    case ShortRead => 1
    case Printed(_) => 0
  }

  /** The four arguments `main` recognises. */
  predicate IsOption(a: string)
  {
    a == "-v" || a == "-p" || a == "-m" || a == "--?"
  }

  /** The last argument that is not a recognised option, if any. */
  function LastOperand(args: seq<string>): Option<string>
  {
    if |args| == 0 then None
    else if !IsOption(args[|args| - 1]) then Some(args[|args| - 1])
    else LastOperand(args[..|args| - 1])
  }

  /** The flags the options among `args` switch on. */
  function FlagsOf(args: seq<string>): Flags
  {
    Flags("-v" in args, "-p" in args, "-m" in args)
  }

  /**
    The `for` loop over `argv` from index `i`, carrying the flags and the
    file name seen so far, followed by the check for a missing file name.
   */
  function ScanArgs(argv: seq<string>, i: nat, flags: Flags, filename: Option<string>): Command
    requires 1 <= i <= |argv|
    decreases |argv| - i
  {
    if i == |argv| then
      if filename.None? then Usage else Inspect(flags, filename.value)
    else if argv[i] == "-v" then ScanArgs(argv, i + 1, flags.(verbose := true), filename)
    else if argv[i] == "-p" then ScanArgs(argv, i + 1, flags.(prettify := true), filename)
    else if argv[i] == "-m" then ScanArgs(argv, i + 1, flags.(metadata := true), filename)
    else if argv[i] == "--?" then Help
    else ScanArgs(argv, i + 1, flags, Some(argv[i]))
  }

  /** The command the whole argument scan arrives at, stated without the loop. */
  function Expected(args: seq<string>): Command
  {
    if "--?" in args then Help
    else match LastOperand(args)
      case None => Usage
      case Some(f) => Inspect(FlagsOf(args), f)
  }

  lemma {:induction false} ScanArgsCorrect(argv: seq<string>, i: nat, flags: Flags, filename: Option<string>)
    requires 1 <= i <= |argv|
    requires "--?" !in argv[1..i]
    requires flags == FlagsOf(argv[1..i])
    requires filename == LastOperand(argv[1..i])
    ensures ScanArgs(argv, i, flags, filename) == Expected(argv[1..])
    decreases |argv| - i
  {
    if i == |argv| {
      assert argv[1..i] == argv[1..];
    } else {
      var a := argv[i];
      var seen := argv[1..i + 1];
      assert seen == argv[1..i] + [a];
      assert seen[..|seen| - 1] == argv[1..i];
      if a == "--?" {
        assert a in argv[1..];
      } else {
        var flags' := if a == "-v" then flags.(verbose := true)
          else if a == "-p" then flags.(prettify := true)
          else if a == "-m" then flags.(metadata := true)
          else flags;
        var filename' := if IsOption(a) then filename else Some(a);
        assert flags' == FlagsOf(seen);
        assert filename' == LastOperand(seen);
        ScanArgsCorrect(argv, i + 1, flags', filename');
      }
    }
  }

  /**
    The argument scan of `main`: fewer than two arguments is a usage error;
    any `--?` asks for help; otherwise the last non-option argument is the
    file name, and without one the run is a usage error.
   */
  function ParseArgs(argv: seq<string>): (r: Command)
    ensures |argv| < 2 ==> r == Usage
    ensures |argv| >= 2 ==> (r == Help <==> "--?" in argv[1..])
    ensures |argv| >= 2 && "--?" !in argv[1..] ==>
      (r == Usage <==> LastOperand(argv[1..]).None?)
    ensures r.Inspect? ==>
      && Some(r.filename) == LastOperand(argv[1..])
      && !IsOption(r.filename)
      && r.flags.verbose == ("-v" in argv[1..])
      && r.flags.prettify == ("-p" in argv[1..])
      && r.flags.metadata == ("-m" in argv[1..])
  {
    if |argv| < 2 then Usage
    else
      assert argv[1..1] == [];
      ScanArgsCorrect(argv, 1, Flags(false, false, false), None);
      LastOperandIsOperand(argv[1..]);
      ScanArgs(argv, 1, Flags(false, false, false), None)
  }

  lemma {:induction false} LastOperandIsOperand(args: seq<string>)
    ensures LastOperand(args).Some? ==> !IsOption(LastOperand(args).value) && LastOperand(args).value in args
  {
    if |args| > 0 && IsOption(args[|args| - 1]) {
      LastOperandIsOperand(args[..|args| - 1]);
    }
  }

  /**
    One run of the program after the file has been opened and its length
    prefix read: `declared` is that length and `body` the bytes after it.
   */
  function Run(argv: seq<string>, declared: nat, body: string): (o: Outcome)
    ensures ExitCode(o) == 0 <==> o.Printed? || (|argv| >= 2 && "--?" in argv[1..])
    ensures o == TooLarge <==>
      |argv| >= 2 && "--?" !in argv[1..] && LastOperand(argv[1..]).Some? && declared >= MaxJsonSize
    ensures o.ShortRead? ==> declared < MaxJsonSize && |body| < declared
    ensures o.Printed? ==> |argv| >= 2 && declared < MaxJsonSize && declared <= |body|
    ensures o.Printed? && "-m" in argv[1..] ==>
      o.text == Metadata.PrintMetadata(body[..declared], "-p" in argv[1..])
    ensures o.Printed? && "-m" !in argv[1..] ==>
      o.text == Reformat.PrintJson(body[..declared], "-p" in argv[1..])
    ensures ParseArgs(argv) == Usage ==> o == ShowHelp(1)
    ensures ParseArgs(argv) == Help ==> o == ShowHelp(0)
    ensures ParseArgs(argv).Inspect? && declared < MaxJsonSize ==> (o.ShortRead? <==> |body| < declared)
    ensures ParseArgs(argv).Inspect? && declared < MaxJsonSize && declared <= |body| ==> o.Printed?
  {
    match ParseArgs(argv)
    case Usage => ShowHelp(1)
    case Help => ShowHelp(0)
    case Inspect(flags, _) =>
      if declared >= MaxJsonSize then TooLarge
      else if |body| < declared then ShortRead
      else
        var header := body[..declared];
        Printed(
          if flags.metadata then Metadata.PrintMetadata(header, flags.prettify)
          else Reformat.PrintJson(header, flags.prettify))
  }
}

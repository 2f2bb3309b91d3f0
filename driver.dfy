/**
  The command-line front of the compiler driver (driver/main.cpp): the option
  loop, the log-level names, the `_`-separated breakpoint list and the input-file
  name check that derives the module name.

  What happens after the options are read (opening the log file and the input,
  parsing, binding, printing) is not part of this module. Every `errln` of the
  original ends the process; here it is an outcome `Failed(..)` that carries
  what went wrong.
 */
module Driver {
  import opened Basics

  // ---------------------------------------------------------------------------
  // Log levels
  // ---------------------------------------------------------------------------

  datatype LogLevel = ErrorLevel | WarnLevel | InfoLevel | VerboseLevel | DebugLevel

  /** The spelling `--log-level` accepts for each level. */
  function LogLevelName(l: LogLevel): string {
    match l
    case ErrorLevel => "error"
    case WarnLevel => "warn"
    case InfoLevel => "info"
    case VerboseLevel => "verbose"
    case DebugLevel => "debug"
  }

  /** The argument of `--log-level`: one of five names, anything else is refused. */
  function LogLevelOf(s: string): (r: Option<LogLevel>)
    ensures r.Some? ==> LogLevelName(r.value) == s
    ensures r.None? <==> s !in {"error", "warn", "info", "verbose", "debug"}
  {
    if s == "error" then Some(ErrorLevel)
    else if s == "warn" then Some(WarnLevel)
    else if s == "info" then Some(InfoLevel)
    else if s == "verbose" then Some(VerboseLevel)
    else if s == "debug" then Some(DebugLevel)
    else None
  }

  /** Every level is accepted under its own name, and under no other. */
  lemma LogLevelNamesRoundTrip(l: LogLevel, s: string)
    ensures LogLevelOf(LogLevelName(l)) == Some(l)
    ensures LogLevelOf(s) == Some(l) <==> s == LogLevelName(l)
  {
    match l
    case ErrorLevel =>
    case WarnLevel =>
    case InfoLevel =>
    case VerboseLevel =>
    case DebugLevel =>
  }

  // ---------------------------------------------------------------------------
  // Breakpoints
  // ---------------------------------------------------------------------------

  /** `size_t` has 64 bits; the accumulator wraps around. */
  const SizeModulus: nat := 0x1_0000_0000_0000_0000

  predicate IsDigit(c: char) {
    '0' <= c <= '9'
  }

  function DigitValue(c: char): (r: nat)
    requires IsDigit(c)
    ensures r < 10
  {
    (c as int) - ('0' as int)
  }

  /** `num = num*10 + c - '0'` on a `size_t`. */
  function Shift(num: nat, c: char): (r: nat)
    requires IsDigit(c)
    ensures r < SizeModulus
  {
    (num * 10 + DigitValue(c)) % SizeModulus
  }

  /** The state of the breakpoint loop: the number being read and the numbers registered so far. */
  datatype Scan = Scan(num: nat, registered: seq<nat>)

  predicate BreakChar(c: char) {
    c == '_' || IsDigit(c)
  }

  /** A string `-b` accepts: digits and `_` only. */
  predicate BreakString(s: string) {
    forall k :: 0 <= k < |s| ==> BreakChar(s[k])
  }

  predicate AllDigits(d: string) {
    forall k :: 0 <= k < |d| ==> IsDigit(d[k])
  }

  /** One character of the loop; only called on `_` or a digit. */
  function ScanStep(sc: Scan, c: char): Scan
    requires BreakChar(c)
  {
    if c == '_' then
      if sc.num != 0 then Scan(0, sc.registered + [sc.num]) else sc
    else
      sc.(num := Shift(sc.num, c))
  }

  /** The loop state after the characters of `s`, taken in order. */
  function ScanAll(s: string): Scan
    requires BreakString(s)
  {
    if s == [] then Scan(0, []) else ScanStep(ScanAll(s[..|s| - 1]), s[|s| - 1])
  }

  /**
    The whole `--break` argument: refused when it holds any character other than
    a digit or `_`; otherwise the numbers registered, the last one included.
   */
  function Breakpoints(b: string): (r: Option<seq<nat>>)
    ensures r.None? <==> exists k :: 0 <= k < |b| && !BreakChar(b[k])
  {
    if BreakString(b) then
      var sc := ScanAll(b);
      Some(if sc.num != 0 then sc.registered + [sc.num] else sc.registered)
    else
      None
  }

  /** The `-b` loop, stopping at the first character that is neither a digit nor `_`. */
  method ParseBreakpoints(b: string) returns (r: Option<seq<nat>>)
    ensures r == Breakpoints(b)
  {
    var num: nat := 0;
    var registered: seq<nat> := [];
    var i := 0;
    while i != |b|
      invariant 0 <= i <= |b|
      invariant BreakString(b[..i])
      invariant ScanAll(b[..i]) == Scan(num, registered)
    {
      var c := b[i];
      assert b[..i + 1][..i] == b[..i];
      if c == '_' {
        if num != 0 {
          registered := registered + [num];
          num := 0;
        }
      } else if IsDigit(c) {
        num := (num * 10 + DigitValue(c)) % SizeModulus;
      } else {
        return None;
      }
      i := i + 1;
    }
    assert b[..i] == b;
    if num != 0 {
      registered := registered + [num];
    }
    return Some(registered);
  }

  // The reference reading of the argument: split at `_`, read each piece as a
  // wrapping decimal number, keep the non-zero ones.

  /** The `_`-separated pieces of `s`; there is always at least one. */
  function Pieces(s: string): (r: seq<string>)
    ensures |r| > 0
    ensures BreakString(s) ==> forall i :: 0 <= i < |r| ==> AllDigits(r[i])
  {
    if s == [] then [""]
    else
      var p := Pieces(s[..|s| - 1]);
      var c := s[|s| - 1];
      if c == '_' then p + [""] else p[..|p| - 1] + [p[|p| - 1] + [c]]
  }

  /** A run of digits as a `size_t` number. */
  function Number(d: string): (r: nat)
    requires AllDigits(d)
    ensures r < SizeModulus
  {
    if d == [] then 0 else Shift(Number(d[..|d| - 1]), d[|d| - 1])
  }

  /** The non-zero numbers of a list of digit runs, in order. */
  function NonZeroNumbers(ps: seq<string>): seq<nat>
    requires forall i :: 0 <= i < |ps| ==> AllDigits(ps[i])
  {
    if ps == [] then []
    else
      var n := Number(ps[|ps| - 1]);
      NonZeroNumbers(ps[..|ps| - 1]) + (if n != 0 then [n] else [])
  }

  /**
    The loop agrees with the reference reading: the number being read is the
    last piece, and the numbers registered are the non-zero earlier pieces.
   */
  lemma {:induction false} ScanReadsPieces(s: string)
    requires BreakString(s)
    ensures var p := Pieces(s);
      ScanAll(s) == Scan(Number(p[|p| - 1]), NonZeroNumbers(p[..|p| - 1]))
  {
    if s != [] {
      var t := s[..|s| - 1];
      var c := s[|s| - 1];
      ScanReadsPieces(t);
      var q := Pieces(t);
      var p := Pieces(s);
      if c == '_' {
        assert p == q + [""];
        assert p[..|p| - 1] == q;
        assert q[..|q| - 1] + [q[|q| - 1]] == q;
      } else {
        var last := q[|q| - 1] + [c];
        assert p == q[..|q| - 1] + [last];
        assert p[..|p| - 1] == q[..|q| - 1];
        assert last[..|last| - 1] == q[|q| - 1];
      }
    }
  }

  /** A valid breakpoint argument registers exactly the non-zero numbers between its `_`s, in order. */
  lemma BreakpointsAreNonZeroPieces(b: string)
    requires BreakString(b)
    ensures Breakpoints(b) == Some(NonZeroNumbers(Pieces(b)))
  {
    ScanReadsPieces(b);
    var p := Pieces(b);
    var n := Number(p[|p| - 1]);
    assert NonZeroNumbers(p) == NonZeroNumbers(p[..|p| - 1]) + (if n != 0 then [n] else []);
    if n == 0 {
      assert NonZeroNumbers(p) == NonZeroNumbers(p[..|p| - 1]);
    }
  }

  /** Reading one more character is one more step of the loop. */
  lemma ScanSnoc(s: string, c: char)
    requires BreakString(s) && BreakChar(c)
    ensures ScanAll(s + [c]) == ScanStep(ScanAll(s), c)
  {
    assert (s + [c])[..|s|] == s;
  }

  /** `12_0__3_` registers 12 and 3: empty and zero pieces are skipped. */
  lemma BreakpointExample()
    ensures Breakpoints("12_0__3_") == Some([12, 3])
  {
    var s1 := ['1'];
    var s2 := s1 + ['2'];
    var s3 := s2 + ['_'];
    var s4 := s3 + ['0'];
    var s5 := s4 + ['_'];
    var s6 := s5 + ['_'];
    var s7 := s6 + ['3'];
    var s8 := s7 + ['_'];
    assert DigitValue('0') == 0 && DigitValue('1') == 1 && DigitValue('2') == 2 && DigitValue('3') == 3;
    ScanSnoc([], '1');
    assert [] + ['1'] == s1;
    ScanSnoc(s1, '2');
    ScanSnoc(s2, '_');
    assert ScanAll(s3) == Scan(0, [12]);
    ScanSnoc(s3, '0');
    ScanSnoc(s4, '_');
    ScanSnoc(s5, '_');
    ScanSnoc(s6, '3');
    ScanSnoc(s7, '_');
    assert ScanAll(s8) == Scan(0, [12, 3]);
    assert s8 == "12_0__3_";
  }

  // ---------------------------------------------------------------------------
  // Input files
  // ---------------------------------------------------------------------------

  /** `find_last_of(c)`; `None` plays the part of `npos`. */
  function LastIndexOf(s: string, c: char): (r: Option<nat>)
    ensures r.Some? ==> r.value < |s| && s[r.value] == c && forall k :: r.value < k < |s| ==> s[k] != c
    ensures r.None? ==> forall k :: 0 <= k < |s| ==> s[k] != c
  {
    if s == [] then None
    else if s[|s| - 1] == c then Some(|s| - 1)
    else LastIndexOf(s[..|s| - 1], c)
  }

  /**
    `s.substr(s.find_last_of(c) + 1)`: what follows the last `c`. When there is
    no `c`, `npos + 1` wraps to 0 and this is all of `s`.
   */
  function After(s: string, c: char): (r: string)
    ensures c !in r && |r| <= |s| && r == s[|s| - |r|..]
  {
    match LastIndexOf(s, c)
    case None => s
    case Some(i) => s[i + 1..]
  }

  /** `s.substr(0, s.find_last_of(c))`: what precedes the last `c`, or all of `s`. */
  function Before(s: string, c: char): (r: string)
    ensures |r| <= |s| && r == s[..|r|]
  {
    match LastIndexOf(s, c)
    case None => s
    case Some(i) => s[..i]
  }

  datatype FileCheck = BadExtension | EmptyModuleName | Accepted(moduleName: string)

  /**
    The check on an input file as written: the text after the last `.` must be
    `impala`, and the module name is what lies between the last `/` and that
    `.`. With no `.` at all the whole name is compared with `impala`.
   */
  function CheckInputFileAsWritten(file: string): (r: FileCheck)
    ensures r.Accepted? ==> r.moduleName != [] && '/' !in r.moduleName
  {
    if After(file, '.') != "impala" then BadExtension
    else
      var name := After(Before(file, '.'), '/');
      if name == [] then EmptyModuleName else Accepted(name)
  }

  /** A file called just `impala`, with no extension at all, is accepted as module `impala`. */
  lemma BareImpalaIsAccepted()
    ensures CheckInputFileAsWritten("impala") == Accepted("impala")
  {
    assert LastIndexOf("impala", '.') == None;
    assert LastIndexOf("impala", '/') == None;
  }

  /** The check that the error message describes: the name must have the extension `.impala`. */
  function CheckInputFile(file: string): (r: FileCheck)
    ensures r.Accepted? ==> r.moduleName != [] && '/' !in r.moduleName
  {
    if LastIndexOf(file, '.').None? || After(file, '.') != "impala" then BadExtension
    else
      var name := After(Before(file, '.'), '/');
      if name == [] then EmptyModuleName else Accepted(name)
  }

  /** The two checks differ only on the bare name `impala`. */
  lemma CheckInputFileAgrees(file: string)
    ensures file != "impala" ==> CheckInputFile(file) == CheckInputFileAsWritten(file)
    ensures CheckInputFile("impala") == BadExtension
  {
    assert LastIndexOf("impala", '.') == None;
  }

  /** The extension test passes exactly for names that end in `.impala`. */
  lemma ExtensionIsImpala(file: string)
    ensures CheckInputFile(file) != BadExtension <==> |file| >= 7 && file[|file| - 7..] == ".impala"
  {
    if |file| >= 7 && file[|file| - 7..] == ".impala" {
      var dot := |file| - 7;
      assert file[dot] == '.';
      assert forall k :: dot < k < |file| ==> file[k] == file[dot..][k - dot];
      LastIndexOfSuffix(file, '.', dot);
      assert file[dot + 1..] == file[dot..][1..];
    }
    if CheckInputFile(file) != BadExtension {
      var dot := LastIndexOf(file, '.').value;
      assert file[dot + 1..] == "impala";
      assert file[|file| - 7..] == [file[dot]] + file[dot + 1..];
    }
  }

  /**
    A file `dir/name.impala` whose `name` is not empty and has no `/` is accepted
    with module name `name`; the directory may be anything.
   */
  lemma ModuleNameOfPath(dir: string, name: string)
    requires name != [] && '/' !in name
    ensures CheckInputFile(dir + "/" + name + ".impala") == Accepted(name)
  {
    var file := dir + "/" + name + ".impala";
    var dot := |dir| + 1 + |name|;
    assert file[dot] == '.';
    assert file[dot + 1..] == "impala";
    LastIndexOfSuffix(file, '.', dot);
    var rest := file[..dot];
    assert rest == dir + "/" + name;
    assert rest[|dir|] == '/';
    assert forall k :: |dir| < k < |rest| ==> rest[k] == name[k - |dir| - 1];
    LastIndexOfSuffix(rest, '/', |dir|);
    assert rest[|dir| + 1..] == name;
  }

  /** When `s[i]` is `c` and nothing after it is, `i` is the last index of `c`. */
  lemma {:induction false} LastIndexOfSuffix(s: string, c: char, i: nat)
    requires i < |s| && s[i] == c && forall k :: i < k < |s| ==> s[k] != c
    ensures LastIndexOf(s, c) == Some(i)
    decreases |s|
  {
    if i != |s| - 1 {
      LastIndexOfSuffix(s[..|s| - 1], c, i);
    }
  }

  // ---------------------------------------------------------------------------
  // The option loop
  // ---------------------------------------------------------------------------

  /** What one command-line word is, as the `cmp` chain and the final `else` sort it. */
  datatype Opt = HelpOpt | EmitAstOpt | FancyOpt | LogOpt | LogLevelOpt | OutputOpt
               | BreakOpt | TrackHistoryOpt | Unrecognized | InputFile

  /**
    The options `-b`/`--break` and `--track-history` exist only in a debug
    build (`NDEBUG` not defined); elsewhere they are unrecognized.
   */
  function Classify(a: string, debugBuild: bool): (r: Opt)
    ensures r == InputFile <==> |a| == 0 || a[0] != '-'
  {
    if a == "-h" || a == "--help" then HelpOpt
    else if a == "--emit-ast" then EmitAstOpt
    else if a == "--fancy" then FancyOpt
    else if a == "--log" then LogOpt
    else if a == "--log-level" then LogLevelOpt
    else if a == "-o" || a == "--output" then OutputOpt
    else if debugBuild && (a == "-b" || a == "--break") then BreakOpt
    else if debugBuild && a == "--track-history" then TrackHistoryOpt
    else if |a| > 0 && a[0] == '-' then Unrecognized
    else InputFile
  }

  /** An option that reads the next word as its argument. */
  predicate TakesArgument(o: Opt) {
    o == LogOpt || o == LogLevelOpt || o == OutputOpt || o == BreakOpt
  }

  datatype Config = Config(
    infiles: seq<string>,
    logName: string,
    moduleName: string,
    emitAst: bool,
    fancy: bool,
    logLevel: Option<LogLevel>,
    breakpoints: seq<nat>,
    trackHistory: bool)

  /** Before any option: log to `-` (standard output), no module name, no file. */
  const Initial := Config([], "-", "", false, false, None, [], false)

  datatype Failure =
    | NoInputFiles
    | MissingArgument(option: string)
    | BadLogLevel(level: string)
    | InvalidBreakpoint(arg: string)
    | UnrecognizedOption(option: string)
    | WithoutExtension(file: string)
    | WithEmptyModuleName(file: string)

  datatype Outcome = ShowHelp | Failed(failure: Failure) | Proceed(config: Config)

  /** What an option with its argument `arg` does to the configuration. */
  function WithArgument(o: Opt, arg: string, cfg: Config): (r: Outcome)
    requires TakesArgument(o)
    ensures r.Proceed? && o == OutputOpt ==> r.config.moduleName == arg
    ensures r.Proceed? ==> r.config.infiles == cfg.infiles
  {
    match o
    case LogOpt => Proceed(cfg.(logName := arg))
    case LogLevelOpt =>
      (match LogLevelOf(arg)
       case None => Failed(BadLogLevel(arg))
       case Some(l) => Proceed(cfg.(logLevel := Some(l))))
    case OutputOpt => Proceed(cfg.(moduleName := arg))
    case BreakOpt =>
      (match Breakpoints(arg)
       case None => Failed(InvalidBreakpoint(arg))
       case Some(bs) => Proceed(cfg.(breakpoints := cfg.breakpoints + bs)))
  }

  /** What an input file does: it is added, and names the module if nothing has named it yet. */
  function WithInputFile(file: string, cfg: Config): (r: Outcome)
    ensures r.Proceed? <==> CheckInputFile(file).Accepted?
    ensures r.Proceed? ==> r.config.infiles == cfg.infiles + [file]
    ensures r.Proceed? ==>
              r.config.moduleName == (if cfg.moduleName == "" then CheckInputFile(file).moduleName else cfg.moduleName)
  {
    match CheckInputFile(file)
    case BadExtension => Failed(WithoutExtension(file))
    case EmptyModuleName => Failed(WithEmptyModuleName(file))
    case Accepted(name) =>
      Proceed(cfg.(moduleName := if cfg.moduleName == "" then name else cfg.moduleName,
                   infiles := cfg.infiles + [file]))
  }

  /**
    The loop from word `i` on with configuration `cfg`. `-h` stops with the help
    text, any error stops with it, and reaching the end with no input file is
    an error.
   */
  function Options(args: seq<string>, i: nat, cfg: Config, debugBuild: bool): (r: Outcome)
    requires i <= |args|
    ensures r.Proceed? ==> |r.config.infiles| > 0
    decreases |args| - i
  {
    if i == |args| then
      if cfg.infiles == [] then Failed(NoInputFiles) else Proceed(cfg)
    else
      var a := args[i];
      match Classify(a, debugBuild)
      case HelpOpt => ShowHelp
      case EmitAstOpt => Options(args, i + 1, cfg.(emitAst := true), debugBuild)
      case FancyOpt => Options(args, i + 1, cfg.(fancy := true), debugBuild)
      case TrackHistoryOpt => Options(args, i + 1, cfg.(trackHistory := true), debugBuild)
      case Unrecognized => Failed(UnrecognizedOption(a))
      case InputFile =>
        (match WithInputFile(a, cfg)
         case Proceed(cfg') => Options(args, i + 1, cfg', debugBuild)
         case r => r)
      case _ =>
        if i + 1 == |args| then Failed(MissingArgument(a))
        else
          (match WithArgument(Classify(a, debugBuild), args[i + 1], cfg)
           case Proceed(cfg') => Options(args, i + 2, cfg', debugBuild)
           case r => r)
  }

  /** `main`'s reading of its arguments; word 0 is the program's own name. */
  function CommandLine(args: seq<string>, debugBuild: bool): (r: Outcome)
    ensures r.Proceed? ==> |r.config.infiles| > 0
  {
    if |args| < 1 then Failed(NoInputFiles) else Options(args, 1, Initial, debugBuild)
  }

  /** The option loop of `main`, word by word. */
  method ParseCommandLine(args: seq<string>, debugBuild: bool) returns (r: Outcome)
    ensures r == CommandLine(args, debugBuild)
  {
    if |args| < 1 {
      return Failed(NoInputFiles);
    }
    var cfg := Initial;
    var i := 1;
    while i != |args|
      invariant 1 <= i <= |args|
      invariant Options(args, i, cfg, debugBuild) == CommandLine(args, debugBuild)
      decreases |args| - i
    {
      var a := args[i];
      var o := Classify(a, debugBuild);
      if o == HelpOpt {
        return ShowHelp;
      } else if o == EmitAstOpt {
        cfg := cfg.(emitAst := true);
      } else if o == FancyOpt {
        cfg := cfg.(fancy := true);
      } else if o == TrackHistoryOpt {
        cfg := cfg.(trackHistory := true);
      } else if o == Unrecognized {
        return Failed(UnrecognizedOption(a));
      } else if o == InputFile {
        var next := WithInputFile(a, cfg);
        if !next.Proceed? {
          return next;
        }
        cfg := next.config;
      } else {
        if i + 1 == |args| {
          return Failed(MissingArgument(a));
        }
        i := i + 1;
        var next;
        if o == BreakOpt {
          var bs := ParseBreakpoints(args[i]);
          next := if bs.None? then Failed(InvalidBreakpoint(args[i]))
                  else Proceed(cfg.(breakpoints := cfg.breakpoints + bs.value));
        } else {
          next := WithArgument(o, args[i], cfg);
        }
        if !next.Proceed? {
          return next;
        }
        cfg := next.config;
      }
      i := i + 1;
    }
    if cfg.infiles == [] {
      return Failed(NoInputFiles);
    }
    return Proceed(cfg);
  }

  // ---------------------------------------------------------------------------
  // What the loop promises
  // ---------------------------------------------------------------------------

  /** One accepted input file is one step of the loop. */
  lemma InputFileStep(args: seq<string>, i: nat, cfg: Config, debugBuild: bool)
    requires i < |args| && |args[i]| > 0 && args[i][0] != '-' && CheckInputFile(args[i]).Accepted?
    ensures Options(args, i, cfg, debugBuild) == Options(args, i + 1, WithInputFile(args[i], cfg).config, debugBuild)
  {
    assert Classify(args[i], debugBuild) == InputFile;
  }

  /** With no word left, the files named so far decide. */
  lemma OptionsEnd(args: seq<string>, cfg: Config, debugBuild: bool)
    ensures Options(args, |args|, cfg, debugBuild) == if cfg.infiles == [] then Failed(NoInputFiles) else Proceed(cfg)
  {
  }

  /** The same step, with the configuration it leads to named. */
  lemma InputFileStepTo(args: seq<string>, i: nat, cfg: Config, cfg': Config, debugBuild: bool)
    requires i < |args| && |args[i]| > 0 && args[i][0] != '-' && WithInputFile(args[i], cfg) == Proceed(cfg')
    ensures Options(args, i, cfg, debugBuild) == Options(args, i + 1, cfg', debugBuild)
  {
    InputFileStep(args, i, cfg, debugBuild);
  }

  /** `impala prog.impala`: one file, which names the module. */
  lemma SingleFileNamesModule(prog: string, file: string, debugBuild: bool)
    requires |file| > 0 && file[0] != '-' && CheckInputFile(file).Accepted?
    ensures CommandLine([prog, file], debugBuild)
              == Proceed(Initial.(infiles := [file], moduleName := CheckInputFile(file).moduleName))
  {
    InputFileStep([prog, file], 1, Initial, debugBuild);
  }

  /** `-o name` before the file wins over the name the file would give. */
  lemma OutputNamesModule(prog: string, name: string, file: string, debugBuild: bool)
    requires name != "" && |file| > 0 && file[0] != '-' && CheckInputFile(file).Accepted?
    ensures CommandLine([prog, "-o", name, file], debugBuild)
              == Proceed(Initial.(infiles := [file], moduleName := name))
  {
    var args := [prog, "-o", name, file];
    assert Classify(args[1], debugBuild) == OutputOpt;
    assert Options(args, 1, Initial, debugBuild) == Options(args, 3, Initial.(moduleName := name), debugBuild);
    InputFileStep(args, 3, Initial.(moduleName := name), debugBuild);
  }

  /** The first file names the module; a later one does not rename it. */
  lemma FirstFileNamesModule(prog: string, f1: string, f2: string, debugBuild: bool)
    requires |f1| > 0 && f1[0] != '-' && CheckInputFile(f1).Accepted?
    requires |f2| > 0 && f2[0] != '-' && CheckInputFile(f2).Accepted?
    ensures CommandLine([prog, f1, f2], debugBuild)
              == Proceed(Initial.(infiles := [f1, f2], moduleName := CheckInputFile(f1).moduleName))
  {
    var args := [prog, f1, f2];
    var c1 := Initial.(infiles := [f1], moduleName := CheckInputFile(f1).moduleName);
    var c2 := c1.(infiles := [f1, f2]);
    var o1 := Options(args, 1, Initial, debugBuild);
    var o2 := Options(args, 2, c1, debugBuild);
    var o3 := Options(args, 3, c2, debugBuild);
    assert o3 == Proceed(c2) by { OptionsEnd(args, c2, debugBuild); }
    assert o2 == o3 by { InputFileStepTo(args, 2, c1, c2, debugBuild); }
    assert o1 == o2 by { InputFileStepTo(args, 1, Initial, c1, debugBuild); }
  }

  /** An unknown level name after `--log-level` stops the driver, whatever follows. */
  lemma BadLogLevelIsRejected(prog: string, level: string, rest: seq<string>, debugBuild: bool)
    requires LogLevelOf(level).None?
    ensures CommandLine([prog, "--log-level", level] + rest, debugBuild) == Failed(BadLogLevel(level))
  {
    var args := [prog, "--log-level", level] + rest;
    assert args[1] == "--log-level" && args[2] == level;
  }

  /** `--log-level` as the last word lacks its argument. */
  lemma MissingLogLevel(prog: string, debugBuild: bool)
    ensures CommandLine([prog, "--log-level"], debugBuild) == Failed(MissingArgument("--log-level"))
  {
  }

  /** A word starting with `-` that names no option stops the driver. */
  lemma UnknownOptionIsRejected(prog: string, opt: string, rest: seq<string>, debugBuild: bool)
    requires |opt| > 0 && opt[0] == '-' && Classify(opt, debugBuild) == Unrecognized
    ensures CommandLine([prog, opt] + rest, debugBuild) == Failed(UnrecognizedOption(opt))
  {
    var args := [prog, opt] + rest;
    assert args[1] == opt;
  }

  /** Without `NDEBUG`'s debug options, `-b` is an unknown option. */
  lemma BreakNeedsDebugBuild(prog: string, rest: seq<string>)
    ensures CommandLine([prog, "-b"] + rest, false) == Failed(UnrecognizedOption("-b"))
  {
    var args := [prog, "-b"] + rest;
    assert args[1] == "-b";
  }
}

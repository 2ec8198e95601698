/**
 * The command-line front end of SqlExplorerCli (Program.cs): the argument
 * parser `HandleArgs`, the settings check `Validate` and the branch in
 * `Main` that chooses between showing help and validating.
 *
 * The program keeps its settings in four static fields; here they are the
 * fields of `Program`, and each method is proved against a function that
 * says what the source computes.  A second, independent reading of an
 * argument array (`Lex`, a sequence of tokens, and `Apply`, their effect on
 * the settings) states what the parser promises: which arguments are
 * errors, which index is read as a flag and which as a value, and which
 * value ends up in each field.
 */
module Cli {
  import opened Wrappers
  import opened Text

  /** The four static fields of Program; a null string is `None`. */
  datatype Settings = Settings(
    connectionString: Option<string>,
    outputDirectory: Option<string>,
    overwriteFiles: bool,
    showHelp: bool)

  /** The fields' values when the process starts. */
  const Initial := Settings(None, None, false, false)

  // ---------------------------------------------------------------------
  // HandleArgs

  datatype Flag = ConnectionStringFlag | OutputDirectoryFlag | OverwriteFlag | HelpFlag

  /** The case labels of the switch, on the lower-cased argument. */
  function SwitchCase(argument: string): Option<Flag>
  {
    if argument == "--connection-string" || argument == "-c" then Some(ConnectionStringFlag)
    else if argument == "--output-directory" || argument == "-d" then Some(OutputDirectoryFlag)
    else if argument == "--overwrite" || argument == "-o" then Some(OverwriteFlag)
    else if argument == "--help" || argument == "-h" || argument == "?" then Some(HelpFlag)
    else None
  }

  /** The flag an argument selects: the switch on `args[a].ToLower()`. */
  function Recognize(argument: string): Option<Flag>
  {
    SwitchCase(ToLower(argument))
  }

  /** The ArgumentExceptions HandleArgs throws; each carries the argument
      as the user wrote it. */
  datatype ArgError =
    | MissingConnectionString(argument: string)
    | MissingDirectory(argument: string)
    | UnknownArgument(argument: string)

  function ArgErrorMessage(e: ArgError): string
  {
    match e
    case MissingConnectionString(a) => "Expecting a connection string after " + a
    case MissingDirectory(a) => "Expecting a directory after " + a
    case UnknownArgument(a) => "Unknown argument: " + a
  }

  /** The fields after the loop, and the exception it stopped with, if any. */
  datatype ParseOutcome = ParseOutcome(settings: Settings, error: Option<ArgError>)

  /** The parse loop run from index `a` with the fields holding `st`. */
  function HandleArgsFrom(args: seq<string>, a: nat, st: Settings): ParseOutcome
    requires a <= |args|
    decreases |args| - a
  {
    if a == |args| then ParseOutcome(st, None)
    else match Recognize(args[a])
      case Some(ConnectionStringFlag) =>
        if a >= |args| - 1 then ParseOutcome(st, Some(MissingConnectionString(args[a])))
        else HandleArgsFrom(args, a + 2, st.(connectionString := Some(args[a + 1])))
      case Some(OutputDirectoryFlag) =>
        if a >= |args| - 1 then ParseOutcome(st, Some(MissingDirectory(args[a])))
        else HandleArgsFrom(args, a + 2, st.(outputDirectory := Some(args[a + 1])))
      case Some(OverwriteFlag) => HandleArgsFrom(args, a + 1, st.(overwriteFiles := true))
      case Some(HelpFlag) => HandleArgsFrom(args, a + 1, st.(showHelp := true))
      case None => ParseOutcome(st, Some(UnknownArgument(args[a])))
  }

  // ---------------------------------------------------------------------
  // Tokens: an independent reading of the argument array

  /** One recognised flag at index `at`, with the value it consumes. */
  datatype Token =
    | ConnectionStringToken(at: nat, value: string)
    | OutputDirectoryToken(at: nat, value: string)
    | OverwriteToken(at: nat)
    | HelpToken(at: nat)

  /** How many arguments a token occupies. */
  function Width(t: Token): nat
  {
    if t.ConnectionStringToken? || t.OutputDirectoryToken? then 2 else 1
  }

  /** Token `t` is what the arguments say at its index: the flag there is
      recognised as its kind, and a value is the next argument verbatim. */
  predicate Reads(args: seq<string>, t: Token)
  {
    t.at + Width(t) <= |args| &&
    match t
    case ConnectionStringToken(at, v) => Recognize(args[at]) == Some(ConnectionStringFlag) && v == args[at + 1]
    case OutputDirectoryToken(at, v) => Recognize(args[at]) == Some(OutputDirectoryFlag) && v == args[at + 1]
    case OverwriteToken(at) => Recognize(args[at]) == Some(OverwriteFlag)
    case HelpToken(at) => Recognize(args[at]) == Some(HelpFlag)
  }

  /** The tokens cover the indices `from` to `to` one after another: every
      index is the flag of exactly one token or the value of the flag just
      before it. */
  predicate Tiles(toks: seq<Token>, from: nat, to: nat)
    decreases |toks|
  {
    if toks == [] then from == to
    else toks[0].at == from && Tiles(toks[1..], from + Width(toks[0]), to)
  }

  /** What the tokenisation of the remaining arguments found. */
  datatype Lexed = Lexed(tokens: seq<Token>, stop: nat, error: Option<ArgError>)

  function Lex(args: seq<string>, a: nat): Lexed
    requires a <= |args|
    decreases |args| - a
  {
    if a == |args| then Lexed([], a, None)
    else match Recognize(args[a])
      case Some(ConnectionStringFlag) =>
        if a + 1 == |args| then Lexed([], a, Some(MissingConnectionString(args[a])))
        else var rest := Lex(args, a + 2); rest.(tokens := [ConnectionStringToken(a, args[a + 1])] + rest.tokens)
      case Some(OutputDirectoryFlag) =>
        if a + 1 == |args| then Lexed([], a, Some(MissingDirectory(args[a])))
        else var rest := Lex(args, a + 2); rest.(tokens := [OutputDirectoryToken(a, args[a + 1])] + rest.tokens)
      case Some(OverwriteFlag) => var rest := Lex(args, a + 1); rest.(tokens := [OverwriteToken(a)] + rest.tokens)
      case Some(HelpFlag) => var rest := Lex(args, a + 1); rest.(tokens := [HelpToken(a)] + rest.tokens)
      case None => Lexed([], a, Some(UnknownArgument(args[a])))
  }

  /** The error, if any, that the argument at index `stop` raises. */
  predicate FailsAt(args: seq<string>, stop: nat, error: ArgError)
  {
    stop < |args| &&
    match error
    case UnknownArgument(a) => a == args[stop] && Recognize(args[stop]) == None
    case MissingConnectionString(a) =>
      a == args[stop] && stop == |args| - 1 && Recognize(args[stop]) == Some(ConnectionStringFlag)
    case MissingDirectory(a) =>
      a == args[stop] && stop == |args| - 1 && Recognize(args[stop]) == Some(OutputDirectoryFlag)
  }

  /** The effect of the tokens, in order, on the fields. */
  function Apply(st: Settings, toks: seq<Token>): Settings
    decreases |toks|
  {
    if toks == [] then st
    else
      var st' := match toks[0]
        case ConnectionStringToken(_, v) => st.(connectionString := Some(v))
        case OutputDirectoryToken(_, v) => st.(outputDirectory := Some(v))
        case OverwriteToken(_) => st.(overwriteFiles := true)
        case HelpToken(_) => st.(showHelp := true);
      Apply(st', toks[1..])
  }

  /** The parse loop is the tokenisation followed by applying the tokens. */
  lemma {:induction false} HandleArgsIsLexThenApply(args: seq<string>, a: nat, st: Settings)
    requires a <= |args|
    ensures HandleArgsFrom(args, a, st) == ParseOutcome(Apply(st, Lex(args, a).tokens), Lex(args, a).error)
    decreases |args| - a
  {
    if a < |args| {
      var rest := if a + 1 < |args| then Lex(args, a + 2) else Lex(args, a + 1);
      match Recognize(args[a])
      case Some(ConnectionStringFlag) =>
        if a + 1 < |args| {
          HandleArgsIsLexThenApply(args, a + 2, st.(connectionString := Some(args[a + 1])));
          assert ([ConnectionStringToken(a, args[a + 1])] + Lex(args, a + 2).tokens)[1..] == Lex(args, a + 2).tokens;
        }
      case Some(OutputDirectoryFlag) =>
        if a + 1 < |args| {
          HandleArgsIsLexThenApply(args, a + 2, st.(outputDirectory := Some(args[a + 1])));
          assert ([OutputDirectoryToken(a, args[a + 1])] + Lex(args, a + 2).tokens)[1..] == Lex(args, a + 2).tokens;
        }
      case Some(OverwriteFlag) =>
        HandleArgsIsLexThenApply(args, a + 1, st.(overwriteFiles := true));
        assert ([OverwriteToken(a)] + Lex(args, a + 1).tokens)[1..] == Lex(args, a + 1).tokens;
      case Some(HelpFlag) =>
        HandleArgsIsLexThenApply(args, a + 1, st.(showHelp := true));
        assert ([HelpToken(a)] + Lex(args, a + 1).tokens)[1..] == Lex(args, a + 1).tokens;
      case None =>
    }
  }

  /** The tokenisation visits every index once, as a recognised flag or as
      the value of the `-c`/`-d` just before it, and stops either at the end
      of the arguments (success) or at the argument that raises the error:
      an unknown argument, or a `-c`/`-d` with nothing after it. */
  lemma {:induction false} LexReadsArguments(args: seq<string>, a: nat)
    requires a <= |args|
    ensures var l := Lex(args, a);
      && a <= l.stop <= |args|
      && Tiles(l.tokens, a, l.stop)
      && (forall k :: 0 <= k < |l.tokens| ==> Reads(args, l.tokens[k]))
      && (l.error.None? <==> l.stop == |args|)
      && (l.error.Some? ==> FailsAt(args, l.stop, l.error.value))
    decreases |args| - a, 1
  {
    if a < |args| {
      match Recognize(args[a])
      case Some(ConnectionStringFlag) =>
        if a + 1 < |args| {
          LexCons(args, a, ConnectionStringToken(a, args[a + 1]));
        }
      case Some(OutputDirectoryFlag) =>
        if a + 1 < |args| {
          LexCons(args, a, OutputDirectoryToken(a, args[a + 1]));
        }
      case Some(OverwriteFlag) =>
        LexCons(args, a, OverwriteToken(a));
      case Some(HelpFlag) =>
        LexCons(args, a, HelpToken(a));
      case None =>
    }
  }

  /** When the argument at `a` reads as token `t`, the tokenisation from `a`
      is `t` followed by the tokenisation after it. */
  lemma {:induction false} LexCons(args: seq<string>, a: nat, t: Token)
    requires a < |args| && t.at == a && Reads(args, t)
    ensures var l := Lex(args, a);
      && a <= l.stop <= |args|
      && Tiles(l.tokens, a, l.stop)
      && (forall k :: 0 <= k < |l.tokens| ==> Reads(args, l.tokens[k]))
      && (l.error.None? <==> l.stop == |args|)
      && (l.error.Some? ==> FailsAt(args, l.stop, l.error.value))
    decreases |args| - a, 0
  {
    LexReadsArguments(args, a + Width(t));
    var rest := Lex(args, a + Width(t));
    assert Lex(args, a) == rest.(tokens := [t] + rest.tokens);
    ConsReads(args, t, rest.tokens, a, rest.stop);
  }

  /** A token read at `from`, followed by tokens that tile the rest. */
  lemma ConsReads(args: seq<string>, t: Token, toks: seq<Token>, from: nat, to: nat)
    requires Reads(args, t) && t.at == from && Tiles(toks, from + Width(t), to)
    requires forall k :: 0 <= k < |toks| ==> Reads(args, toks[k])
    ensures Tiles([t] + toks, from, to)
    ensures forall k :: 0 <= k < |[t] + toks| ==> Reads(args, ([t] + toks)[k])
  {
    assert ([t] + toks)[1..] == toks;
  }

  /** An unknown argument in flag position is always an error, whatever
      follows it, and the parse reports it verbatim. */
  lemma UnknownArgumentStops(args: seq<string>, a: nat, st: Settings)
    requires a < |args| && Recognize(args[a]) == None
    ensures HandleArgsFrom(args, a, st) == ParseOutcome(st, Some(UnknownArgument(args[a])))
  {
  }

  /** The argument after `-c` is taken as the connection string verbatim,
      even if it looks like a flag, and parsing resumes after it. */
  lemma ConnectionStringValueConsumed(args: seq<string>, a: nat, st: Settings)
    requires a + 1 < |args| && Recognize(args[a]) == Some(ConnectionStringFlag)
    ensures HandleArgsFrom(args, a, st) == HandleArgsFrom(args, a + 2, st.(connectionString := Some(args[a + 1])))
  {
  }

  /** The connection string is the value of the last `-c` token, or is
      unchanged when there is none. */
  lemma {:induction false} ApplyConnectionString(st: Settings, toks: seq<Token>)
    ensures (forall k :: 0 <= k < |toks| ==> !toks[k].ConnectionStringToken?) ==>
      Apply(st, toks).connectionString == st.connectionString
    ensures forall k ::
      (0 <= k < |toks| && toks[k].ConnectionStringToken? && forall j :: k < j < |toks| ==> !toks[j].ConnectionStringToken?) ==>
      Apply(st, toks).connectionString == Some(toks[k].value)
    decreases |toks|
  {
    if toks != [] {
      var st' := match toks[0]
        case ConnectionStringToken(_, v) => st.(connectionString := Some(v))
        case OutputDirectoryToken(_, v) => st.(outputDirectory := Some(v))
        case OverwriteToken(_) => st.(overwriteFiles := true)
        case HelpToken(_) => st.(showHelp := true);
      ApplyConnectionString(st', toks[1..]);
      assert Apply(st, toks) == Apply(st', toks[1..]);
      forall k | 0 <= k < |toks| && toks[k].ConnectionStringToken? &&
        (forall j :: k < j < |toks| ==> !toks[j].ConnectionStringToken?)
        ensures Apply(st, toks).connectionString == Some(toks[k].value)
      {
        if k > 0 {
          assert toks[1..][k - 1] == toks[k];
          forall j | k - 1 < j < |toks[1..]| ensures !toks[1..][j].ConnectionStringToken? {
            assert toks[1..][j] == toks[j + 1];
          }
        } else {
          forall j | 0 <= j < |toks[1..]| ensures !toks[1..][j].ConnectionStringToken? {
            assert toks[1..][j] == toks[j + 1];
          }
        }
      }
      if forall k :: 0 <= k < |toks| ==> !toks[k].ConnectionStringToken? {
        forall j | 0 <= j < |toks[1..]| ensures !toks[1..][j].ConnectionStringToken? {
          assert toks[1..][j] == toks[j + 1];
        }
      }
    }
  }

  /** The output directory is the value of the last `-d` token, or is
      unchanged when there is none. */
  lemma {:induction false} ApplyOutputDirectory(st: Settings, toks: seq<Token>)
    ensures (forall k :: 0 <= k < |toks| ==> !toks[k].OutputDirectoryToken?) ==>
      Apply(st, toks).outputDirectory == st.outputDirectory
    ensures forall k ::
      (0 <= k < |toks| && toks[k].OutputDirectoryToken? && forall j :: k < j < |toks| ==> !toks[j].OutputDirectoryToken?) ==>
      Apply(st, toks).outputDirectory == Some(toks[k].value)
    decreases |toks|
  {
    if toks != [] {
      var st' := match toks[0]
        case ConnectionStringToken(_, v) => st.(connectionString := Some(v))
        case OutputDirectoryToken(_, v) => st.(outputDirectory := Some(v))
        case OverwriteToken(_) => st.(overwriteFiles := true)
        case HelpToken(_) => st.(showHelp := true);
      ApplyOutputDirectory(st', toks[1..]);
      assert Apply(st, toks) == Apply(st', toks[1..]);
      forall k | 0 <= k < |toks| && toks[k].OutputDirectoryToken? &&
        (forall j :: k < j < |toks| ==> !toks[j].OutputDirectoryToken?)
        ensures Apply(st, toks).outputDirectory == Some(toks[k].value)
      {
        if k > 0 {
          assert toks[1..][k - 1] == toks[k];
          forall j | k - 1 < j < |toks[1..]| ensures !toks[1..][j].OutputDirectoryToken? {
            assert toks[1..][j] == toks[j + 1];
          }
        } else {
          forall j | 0 <= j < |toks[1..]| ensures !toks[1..][j].OutputDirectoryToken? {
            assert toks[1..][j] == toks[j + 1];
          }
        }
      }
      if forall k :: 0 <= k < |toks| ==> !toks[k].OutputDirectoryToken? {
        forall j | 0 <= j < |toks[1..]| ensures !toks[1..][j].OutputDirectoryToken? {
          assert toks[1..][j] == toks[j + 1];
        }
      }
    }
  }

  /** `-o` and `-h` only ever raise their flags: after the tokens, each flag
      is set exactly when it was set before or a token for it occurs. */
  lemma {:induction false} ApplySwitches(st: Settings, toks: seq<Token>)
    ensures Apply(st, toks).overwriteFiles <==>
      st.overwriteFiles || exists k :: 0 <= k < |toks| && toks[k].OverwriteToken?
    ensures Apply(st, toks).showHelp <==>
      st.showHelp || exists k :: 0 <= k < |toks| && toks[k].HelpToken?
    decreases |toks|
  {
    if toks != [] {
      var st' := match toks[0]
        case ConnectionStringToken(_, v) => st.(connectionString := Some(v))
        case OutputDirectoryToken(_, v) => st.(outputDirectory := Some(v))
        case OverwriteToken(_) => st.(overwriteFiles := true)
        case HelpToken(_) => st.(showHelp := true);
      ApplySwitches(st', toks[1..]);
      assert Apply(st, toks) == Apply(st', toks[1..]);
      if exists k :: 0 <= k < |toks| && toks[k].OverwriteToken? {
        var k :| 0 <= k < |toks| && toks[k].OverwriteToken?;
        if k > 0 { assert toks[1..][k - 1] == toks[k]; }
      }
      if exists k :: 0 <= k < |toks| && toks[k].HelpToken? {
        var k :| 0 <= k < |toks| && toks[k].HelpToken?;
        if k > 0 { assert toks[1..][k - 1] == toks[k]; }
      }
      if exists k :: 0 <= k < |toks[1..]| && toks[1..][k].OverwriteToken? {
        var k :| 0 <= k < |toks[1..]| && toks[1..][k].OverwriteToken?;
        assert toks[k + 1] == toks[1..][k];
      }
      if exists k :: 0 <= k < |toks[1..]| && toks[1..][k].HelpToken? {
        var k :| 0 <= k < |toks[1..]| && toks[1..][k].HelpToken?;
        assert toks[k + 1] == toks[1..][k];
      }
    }
  }

  // ---------------------------------------------------------------------
  // Validate

  datatype ValidationError = ConnectionStringRequired | OutputDirectoryRequired

  function ValidationErrorMessage(e: ValidationError): string
  {
    match e
    case ConnectionStringRequired => "Connection string is required. Use -c."
    case OutputDirectoryRequired => "Output directory is required. Use -d."
  }

  /** Validate's two checks, the connection string first. */
  function ValidationFailure(st: Settings): (r: Option<ValidationError>)
    ensures r == Some(ConnectionStringRequired) <==> IsNullOrWhiteSpace(st.connectionString)
    ensures r == Some(OutputDirectoryRequired) <==>
      !IsNullOrWhiteSpace(st.connectionString) && IsNullOrWhiteSpace(st.outputDirectory)
    ensures r == None <==>
      !IsNullOrWhiteSpace(st.connectionString) && !IsNullOrWhiteSpace(st.outputDirectory)
  {
    if IsNullOrWhiteSpace(st.connectionString) then Some(ConnectionStringRequired)
    else if IsNullOrWhiteSpace(st.outputDirectory) then Some(OutputDirectoryRequired)
    else None
  }

  predicate IsSeparator(c: char)
  {
    c == '/' || c == '\\'
  }

  /** The directory with every trailing `/` and `\` removed: the longest
      prefix that does not end in a separator and after which only
      separators were removed. */
  function StripTrailingSeparators(s: string): (r: string)
    ensures |r| <= |s| && r == s[..|r|]
    ensures |r| == 0 || !IsSeparator(r[|r| - 1])
    ensures forall i :: |r| <= i < |s| ==> IsSeparator(s[i])
    decreases |s|
  {
    if |s| > 0 && IsSeparator(s[|s| - 1]) then StripTrailingSeparators(s[..|s| - 1]) else s
  }

  /** The validated settings: the fields after a successful Validate. */
  function Validated(st: Settings): Settings
    requires ValidationFailure(st).None?
  {
    st.(outputDirectory := Some(StripTrailingSeparators(st.outputDirectory.value)))
  }

  // ---------------------------------------------------------------------
  // Main's branch

  /** How the program ends after reading its arguments. */
  datatype LaunchOutcome =
    | ArgumentsRejected(argError: ArgError)     // thrown before Main's try: not caught
    | HelpShown                                 // exit code 0
    | ValidationRejected(message: string)       // message shown with the help, exit code -1
    | ReadyToReport(settings: Settings)         // goes on to connect and write the reports

  function LaunchFrom(st: Settings, args: seq<string>): LaunchOutcome
  {
    var parsed := HandleArgsFrom(args, 0, st);
    if parsed.error.Some? then ArgumentsRejected(parsed.error.value)
    else if parsed.settings.showHelp then HelpShown
    else match ValidationFailure(parsed.settings)
      case Some(e) => ValidationRejected(ValidationErrorMessage(e))
      case None => ReadyToReport(Validated(parsed.settings))
  }

  /** The code Main passes to `Environment.Exit`, or None when an argument
      error escapes Main before its try. `laterStepThrows` stands for whether
      creating the output directory, connecting to the database or writing a
      report throws; any exception there is caught and exits with -1. */
  function ExitCode(o: LaunchOutcome, laterStepThrows: bool): (code: Option<int>)
    ensures code.None? <==> o.ArgumentsRejected?
    ensures code == Some(0) <==> o.HelpShown? || (o.ReadyToReport? && !laterStepThrows)
    ensures code.Some? ==> code.value == 0 || code.value == -1
  {
    match o
    case ArgumentsRejected(_) => None
    case HelpShown => Some(0)
    case ValidationRejected(_) => Some(-1)
    case ReadyToReport(_) => if laterStepThrows then Some(-1) else Some(0)
  }

  /** When help is requested and the arguments parse, the settings are not
      validated: missing `-c` and `-d` cause no error. */
  lemma HelpSkipsValidation(args: seq<string>)
    requires HandleArgsFrom(args, 0, Initial).error.None?
    requires HandleArgsFrom(args, 0, Initial).settings.showHelp
    ensures LaunchFrom(Initial, args) == HelpShown
    ensures forall laterStepThrows :: ExitCode(LaunchFrom(Initial, args), laterStepThrows) == Some(0)
  {
  }

  /** Reports are only generated with a connection string and an output
      directory that are not blank, and with no trailing separator on the
      directory. */
  lemma ReadyToReportIsValidated(args: seq<string>, st: Settings)
    requires LaunchFrom(st, args).ReadyToReport?
    ensures var s := LaunchFrom(st, args).settings;
      && !IsNullOrWhiteSpace(s.connectionString)
      && s.outputDirectory.Some?
      && !EndsWithChar(s.outputDirectory.value, '/')
      && !EndsWithChar(s.outputDirectory.value, '\\')
      && !s.showHelp
  {
  }

  /** The static fields of Program and the methods that update them. */
  class Program {
    var connectionString: Option<string>
    var outputDirectory: Option<string>
    var overwriteFiles: bool
    var showHelp: bool

    function Current(): Settings
      reads this
    {
      Settings(connectionString, outputDirectory, overwriteFiles, showHelp)
    }

    constructor ()
      ensures Current() == Initial
    {
      connectionString := None;
      outputDirectory := None;
      overwriteFiles := false;
      showHelp := false;
    }

    /** The parse loop; a thrown ArgumentException is the returned error,
        and the fields keep what was assigned before it. */
    method HandleArgs(args: seq<string>) returns (error: Option<ArgError>)
      modifies this
      ensures ParseOutcome(Current(), error) == HandleArgsFrom(args, 0, old(Current()))
    {
      var a := 0;
      while a < |args|
        invariant 0 <= a <= |args|
        invariant HandleArgsFrom(args, a, Current()) == HandleArgsFrom(args, 0, old(Current()))
      {
        var argument := ToLower(args[a]);
        match SwitchCase(argument) {
          case Some(ConnectionStringFlag) =>
            if a >= |args| - 1 {
              return Some(MissingConnectionString(args[a]));
            }
            a := a + 1;
            connectionString := Some(args[a]);
          case Some(OutputDirectoryFlag) =>
            if a >= |args| - 1 {
              return Some(MissingDirectory(args[a]));
            }
            a := a + 1;
            outputDirectory := Some(args[a]);
          case Some(OverwriteFlag) =>
            overwriteFiles := true;
          case Some(HelpFlag) =>
            showHelp := true;
          case None =>
            return Some(UnknownArgument(args[a]));
        }
        a := a + 1;
      }
      return None;
    }

    /** The two required-setting checks, then the loop that strips trailing
        separators from the output directory in place. */
    method Validate() returns (error: Option<ValidationError>)
      modifies this
      ensures error == ValidationFailure(old(Current()))
      ensures error.Some? ==> Current() == old(Current())
      ensures error.None? ==> Current() == Validated(old(Current()))
    {
      if IsNullOrWhiteSpace(connectionString) {
        return Some(ConnectionStringRequired);
      }
      if IsNullOrWhiteSpace(outputDirectory) {
        return Some(OutputDirectoryRequired);
      }
      while EndsWithChar(outputDirectory.value, '/') || EndsWithChar(outputDirectory.value, '\\')
        invariant outputDirectory.Some?
        invariant StripTrailingSeparators(outputDirectory.value) == StripTrailingSeparators(old(outputDirectory).value)
        invariant connectionString == old(connectionString)
        invariant overwriteFiles == old(overwriteFiles) && showHelp == old(showHelp)
        decreases |outputDirectory.value|
      {
        var dir := outputDirectory.value;
        outputDirectory := Some(dir[..|dir| - 1]);
      }
      return None;
    }

    /** Main up to the point where it connects to the database. */
    method Run(args: seq<string>) returns (outcome: LaunchOutcome)
      modifies this
      ensures outcome == LaunchFrom(old(Current()), args)
      ensures outcome.ReadyToReport? ==> Current() == outcome.settings
      ensures !outcome.ReadyToReport? ==> Current() == HandleArgsFrom(args, 0, old(Current())).settings
    {
      var argError := HandleArgs(args);
      if argError.Some? {
        return ArgumentsRejected(argError.value);
      }
      if showHelp {
        return HelpShown;
      }
      var validationError := Validate();
      if validationError.Some? {
        return ValidationRejected(ValidationErrorMessage(validationError.value));
      }
      return ReadyToReport(Current());
    }
  }

  /** The flags are recognised whatever the case of their letters. */
  lemma RecognizeIgnoresCase(argument: string)
    ensures Recognize(argument) == Some(ConnectionStringFlag) <==>
      EqualsIgnoringCase(argument, "--connection-string") || EqualsIgnoringCase(argument, "-c")
    ensures Recognize(argument) == Some(OutputDirectoryFlag) <==>
      EqualsIgnoringCase(argument, "--output-directory") || EqualsIgnoringCase(argument, "-d")
    ensures Recognize(argument) == Some(OverwriteFlag) <==>
      EqualsIgnoringCase(argument, "--overwrite") || EqualsIgnoringCase(argument, "-o")
    ensures Recognize(argument) == Some(HelpFlag) <==>
      EqualsIgnoringCase(argument, "--help") || EqualsIgnoringCase(argument, "-h") || EqualsIgnoringCase(argument, "?")
  {
    ToLowerMatchesIgnoringCase(argument, "--connection-string");
    ToLowerMatchesIgnoringCase(argument, "-c");
    ToLowerMatchesIgnoringCase(argument, "--output-directory");
    ToLowerMatchesIgnoringCase(argument, "-d");
    ToLowerMatchesIgnoringCase(argument, "--overwrite");
    ToLowerMatchesIgnoringCase(argument, "-o");
    ToLowerMatchesIgnoringCase(argument, "--help");
    ToLowerMatchesIgnoringCase(argument, "-h");
    ToLowerMatchesIgnoringCase(argument, "?");
  }
}

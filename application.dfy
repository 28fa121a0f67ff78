/** CApplication of src/application.cpp: the command-line state machine
    `parse_options`, the start iteration read off a positions file name, and
    the iteration and save schedule of `run`.  Exceptions are `Err` results. */
module Application {
  import opened Wrappers
  import opened Numerals
  import opened AppSettings
  import opened Schedule
  import opened NamePatterns

  /** The options that take a value. */
  datatype OptionKind = Links | Positions | Weights | Save | SaveInterval | MaxIterations

  /** The name the error message uses for an option. */
  function OptionName(k: OptionKind): string {
    match k
    case Links => "links"
    case Positions => "positions"
    case Weights => "weights"
    case Save => "save"
    case SaveInterval => "save_interval"
    case MaxIterations => "max_iterations"
  }

  predicate IsHelp(a: string) {
    a == "-h" || a == "--help"
  }

  predicate IsVerbose(a: string) {
    a == "-v" || a == "--verbose"
  }

  function ValueOption(a: string): Option<OptionKind> {
    if a == "-l" || a == "--links" then Some(Links)
    else if a == "-p" || a == "--positions" then Some(Positions)
    else if a == "-w" || a == "--weights" then Some(Weights)
    else if a == "-s" || a == "--save" then Some(Save)
    else if a == "-i" || a == "--save_interval" then Some(SaveInterval)
    else if a == "-m" || a == "--max_iterations" then Some(MaxIterations)
    else None
  }

  /** An argument `parse_options` reacts to. */
  predicate IsOption(a: string) {
    IsHelp(a) || IsVerbose(a) || ValueOption(a).Some?
  }

  /** The two exceptions `parse_options` lets escape: a value option in last
      position, and a number `std::stoi` rejects. */
  datatype ParseError = MissingValue(option: OptionKind) | InvalidNumber(text: string)

  /** What the exception says: the message thrown for a missing value, and
      the `what()` of the library's exceptions for a bad number. */
  function Message(e: ParseError): (m: string)
    ensures e.MissingValue? ==> "Invalid argument. " <= m
  {
    match e
    case MissingValue(k) => "Invalid argument. Need arg for '" + OptionName(k) + "' option"
    case InvalidNumber(_) => "stoi"
  }

  /** The result of `parse_options` (`false` for help) with the settings it
      leaves behind. */
  datatype Parsed = Parsed(outcome: Result<bool, ParseError>, settings: Settings)

  /** The setter a value option calls; `None` when `std::stoi` throws. */
  function Assign(s: Settings, k: OptionKind, v: string): Option<Settings> {
    match k
    case Links => Some(s.(links := v, linksRequired := true))
    case Positions => Some(s.(positions := v, positionsRequired := true))
    case Weights => Some(s.(weights := v, weightsRequired := true))
    case Save => Some(s.(savePositions := v))
    case SaveInterval =>
      (match Stoi(v) case None => None case Some(n) => Some(s.(intervalSave := ToSize(n))))
    case MaxIterations =>
      (match Stoi(v) case None => None case Some(n) => Some(s.(maxIteration := ToSize(n))))
  }

  /** `parse_options` over `argv[1..argc)`, as a function of the arguments
      and the settings before the call. */
  function Parse(args: seq<string>, s: Settings): Parsed
    decreases |args|
  {
    if args == [] then Parsed(Ok(true), s)
    else if IsHelp(args[0]) then Parsed(Ok(false), s)
    else if IsVerbose(args[0]) then Parse(args[1..], s.(verbose := true))
    else match ValueOption(args[0])
      case None => Parse(args[1..], s)
      case Some(k) =>
        if |args| < 2 then Parsed(Err(MissingValue(k)), s)
        else match Assign(s, k, args[1])
          case None => Parsed(Err(InvalidNumber(args[1])), s)
          case Some(s') => Parse(args[2..], s')
  }

  /** Help ends the parse: whatever follows a help flag is not looked at. */
  lemma {:induction false} HelpIgnoresRest(args: seq<string>, rest: seq<string>, s: Settings)
    requires Parse(args, s).outcome == Ok(false)
    ensures Parse(args + rest, s) == Parse(args, s)
    decreases |args|
  {
    var a := args + rest;
    assert a[0] == args[0];
    if !IsHelp(args[0]) {
      if IsVerbose(args[0]) || ValueOption(args[0]).None? {
        assert a[1..] == args[1..] + rest;
        HelpIgnoresRest(args[1..], rest, if IsVerbose(args[0]) then s.(verbose := true) else s);
      } else {
        assert a[1] == args[1];
        assert a[2..] == args[2..] + rest;
        HelpIgnoresRest(args[2..], rest, Assign(s, ValueOption(args[0]).value, args[1]).value);
      }
    }
  }

  /** A parse that completes hands its settings on: parsing a concatenation
      is parsing the second part from where the first one left off. */
  lemma {:induction false} ParseCompose(args: seq<string>, rest: seq<string>, s: Settings)
    requires Parse(args, s).outcome == Ok(true)
    ensures Parse(args + rest, s) == Parse(rest, Parse(args, s).settings)
    decreases |args|
  {
    var a := args + rest;
    if args == [] {
      assert a == rest;
    } else {
      assert a[0] == args[0];
      if IsVerbose(args[0]) || ValueOption(args[0]).None? {
        assert a[1..] == args[1..] + rest;
        ParseCompose(args[1..], rest, if IsVerbose(args[0]) then s.(verbose := true) else s);
      } else {
        assert a[1] == args[1];
        assert a[2..] == args[2..] + rest;
        ParseCompose(args[2..], rest, Assign(s, ValueOption(args[0]).value, args[1]).value);
      }
    }
  }

  /** A help flag reached after a completed parse returns `false` and keeps
      the settings made so far. */
  lemma HelpStops(args: seq<string>, h: string, rest: seq<string>, s: Settings)
    requires Parse(args, s).outcome == Ok(true) && IsHelp(h)
    ensures Parse(args + [h] + rest, s) == Parsed(Ok(false), Parse(args, s).settings)
  {
    assert args + [h] + rest == args + ([h] + rest);
    ParseCompose(args, [h] + rest, s);
  }

  /** A value option in last position is an error naming that option. */
  lemma MissingValueAtEnd(args: seq<string>, a: string, s: Settings)
    requires Parse(args, s).outcome == Ok(true) && ValueOption(a).Some?
    ensures Parse(args + [a], s) == Parsed(Err(MissingValue(ValueOption(a).value)), Parse(args, s).settings)
  {
    ParseCompose(args, [a], s);
  }

  /** A value option consumes the next argument as its value, even one that
      is itself an option such as `-h`. */
  lemma ValueConsumed(a: string, v: string, rest: seq<string>, s: Settings)
    requires ValueOption(a).Some? && Assign(s, ValueOption(a).value, v).Some?
    ensures Parse([a, v] + rest, s) == Parse(rest, Assign(s, ValueOption(a).value, v).value)
  {
    assert ([a, v] + rest)[2..] == rest;
  }

  lemma LinksValueTakesHelpFlag(s: Settings)
    ensures Parse(["-l", "-h"], s) == Parsed(Ok(true), s.(links := "-h", linksRequired := true))
  {
    ValueConsumed("-l", "-h", [], s);
    assert ["-l", "-h"] + [] == ["-l", "-h"];
  }

  /** An argument that is no option is skipped. */
  lemma UnknownIgnored(a: string, rest: seq<string>, s: Settings)
    requires !IsOption(a)
    ensures Parse([a] + rest, s) == Parse(rest, s)
  {
    assert ([a] + rest)[1..] == rest;
  }

  /** `false` comes only from a help flag standing as an option, not as a
      value. */
  lemma {:induction false} FalseNeedsHelp(args: seq<string>, s: Settings)
    requires forall i | 0 <= i < |args| :: !IsHelp(args[i])
    ensures Parse(args, s).outcome != Ok(false)
    decreases |args|
  {
    if args != [] {
      if IsVerbose(args[0]) || ValueOption(args[0]).None? {
        FalseNeedsHelp(args[1..], if IsVerbose(args[0]) then s.(verbose := true) else s);
      } else if |args| >= 2 && Assign(s, ValueOption(args[0]).value, args[1]).Some? {
        FalseNeedsHelp(args[2..], Assign(s, ValueOption(args[0]).value, args[1]).value);
      }
    }
  }

  /** The setter call of one value option in `parse_options`; `false` when
      `std::stoi` throws, before anything is set. */
  method AssignOption(settings: ApplicationSettings, k: OptionKind, v: string) returns (ok: bool)
    modifies settings
    ensures ok == Assign(old(settings.View()), k, v).Some?
    ensures settings.View() == if ok then Assign(old(settings.View()), k, v).value else old(settings.View())
  {
    match k
    case Links => settings.SetLinksFile(v); ok := true;
    case Positions => settings.SetPositionsFile(v); ok := true;
    case Weights => settings.SetWeightsFile(v); ok := true;
    case Save => settings.SetSavePositionsFile(v); ok := true;
    case SaveInterval =>
      var n := Stoi(v);
      ok := n.Some?;
      if ok {
        settings.SetIntervalSave(ToSize(n.value));
      }
    case MaxIterations =>
      var n := Stoi(v);
      ok := n.Some?;
      if ok {
        settings.SetMaxIteration(ToSize(n.value));
      }
  }

  /** `parse_options(argc, argv)` with `args` = `argv[1..argc)`. */
  method ParseOptions(settings: ApplicationSettings, args: seq<string>) returns (r: Result<bool, ParseError>)
    modifies settings
    ensures r == Parse(args, old(settings.View())).outcome
    ensures settings.View() == Parse(args, old(settings.View())).settings
  {
    var i := 0;
    while i < |args|
      invariant 0 <= i <= |args|
      invariant Parse(args[i..], settings.View()) == Parse(args, old(settings.View()))
    {
      var arg := args[i];
      ghost var s := settings.View();
      ghost var tail := args[i..];
      assert tail[0] == arg;
      if IsHelp(arg) {
        return Ok(false);
      } else if IsVerbose(arg) {
        settings.SetVerbose(true);
        assert tail[1..] == args[i + 1..];
      } else if ValueOption(arg).Some? {
        var k := ValueOption(arg).value;
        if i + 1 >= |args| {
          return Err(MissingValue(k));
        }
        i := i + 1;
        var ok := AssignOption(settings, k, args[i]);
        assert tail[1] == args[i];
        if !ok {
          return Err(InvalidNumber(args[i]));
        }
        assert tail[2..] == args[i + 1..];
      } else {
        assert tail[1..] == args[i + 1..];
      }
      i := i + 1;
    }
    return Ok(true);
  }

  /** `name` is `pre`, then `positions_`, the digits `d` and `.bin`, with
      `pre` matched by `.*?`. */
  predicate PositionsName(name: string, pre: string, d: string) {
    NoLineTerminator(pre) && d != [] && AllDigits(d) && name == pre + "positions_" + d + ".bin"
  }

  /** The group `(\d+)` of a whole-string match of `.*?positions_(\d+)\.bin$`.
      The group is the longest digit run before `.bin`, since `_` precedes
      it. */
  function PositionsCapture(name: string): (d: Option<string>)
    ensures d.Some? ==> d.value != [] && AllDigits(d.value)
  {
    match DigitsBeforeBin(name)
    case None => None
    case Some((p, d)) =>
      if EndsWith(p, "positions_") && NoLineTerminator(p[..|p| - 10]) then Some(d) else None
  }

  lemma CaptureOfPositionsName(pre: string, d: string)
    requires PositionsName(pre + "positions_" + d + ".bin", pre, d)
    ensures PositionsCapture(pre + "positions_" + d + ".bin") == Some(d)
  {
    var x := pre + "positions_";
    assert x + d + ".bin" == pre + "positions_" + d + ".bin";
    DigitsBeforeBinOf(x, d);
    EndsWithAppend(pre, "positions_");
    assert x[..|x| - 10] == pre;
    CaptureFromSplit(pre + "positions_" + d + ".bin", x, d);
  }

  /** `PositionsCapture` from the split its definition starts with. */
  lemma CaptureFromSplit(name: string, p: string, d: string)
    requires DigitsBeforeBin(name) == Some((p, d))
    requires EndsWith(p, "positions_") && NoLineTerminator(p[..|p| - 10])
    ensures PositionsCapture(name) == Some(d)
  {
  }

  /** `IterationStartFromName` from the captured digits. */
  lemma StartFromCapture(name: string, d: string)
    requires PositionsCapture(name) == Some(d)
    ensures IterationStartFromName(name) ==
      if DigitsValue(d) > ULongMax then Err("stoull")
      else if DigitsValue(d) == ULongMax then Ok(0)
      else Ok(DigitsValue(d) + 1)
  {
    if DigitsValue(d) <= ULongMax {
      SizeIncrement(DigitsValue(d));
    }
  }

  /** A capture comes from a name of the matched form. */
  lemma CaptureSpellsName(name: string)
    requires PositionsCapture(name).Some?
    ensures exists pre :: PositionsName(name, pre, PositionsCapture(name).value)
  {
    var (p, d) := DigitsBeforeBin(name).value;
    var pre := p[..|p| - 10];
    assert p == pre + "positions_";
    assert PositionsName(name, pre, d);
  }

  /** `get_iteration_start_from_name`: the captured number plus one in
      `size_t` (so the largest `unsigned long long` wraps to 0), 0 when the
      name does not match; `std::stoull` throws beyond `unsigned long long`. */
  function IterationStartFromName(name: string): Result<SizeT, string> {
    match PositionsCapture(name)
    case None => Ok(0)
    case Some(d) =>
      if DigitsValue(d) > ULongMax then Err("stoull")
      else Ok((DigitsValue(d) + 1) % SizeLimit)
  }

  /** A name of the matched form gives its number plus one. */
  lemma StartFromPositionsName(pre: string, d: string)
    requires PositionsName(pre + "positions_" + d + ".bin", pre, d)
    ensures IterationStartFromName(pre + "positions_" + d + ".bin") ==
      if DigitsValue(d) > ULongMax then Err("stoull")
      else if DigitsValue(d) == ULongMax then Ok(0)
      else Ok(DigitsValue(d) + 1)
  {
    CaptureOfPositionsName(pre, d);
    StartFromCapture(pre + "positions_" + d + ".bin", d);
  }

  /** Any other name gives 0: a nonzero start comes from a name of the
      matched form. */
  lemma StartNeedsPositionsName(name: string)
    requires IterationStartFromName(name) != Ok(0)
    ensures exists pre, d :: PositionsName(name, pre, d)
  {
    CaptureSpellsName(name);
  }

  lemma NoDigitsNoStart()
    ensures IterationStartFromName("positions_.bin") == Ok(0)
  {
    assert "positions_.bin" == "positions_" + ".bin";
    NoDigitBeforeBin("positions_");
  }

  /** `.` does match a Unicode line separator: over the `char`s of a
      `std::string` it stands for bytes, and only `\n` and `\r` are refused. */
  lemma LineSeparatorInPrefix()
    ensures IterationStartFromName("a\U{2028}positions_5.bin") == Ok(6)
  {
    assert "a\U{2028}positions_5.bin" == "a\U{2028}" + "positions_" + "5" + ".bin";
    assert DigitsValue("5") == 5 by {
      assert "5"[..0] == [];
    }
    StartFromPositionsName("a\U{2028}", "5");
  }

  /** The iteration `run` starts from. */
  function StartIteration(s: Settings): Result<SizeT, string> {
    if s.positionsRequired then IterationStartFromName(s.positions) else Ok(0)
  }

  const ExitSuccess: int := 0

  /** What `run` does: its exit code, the iterations saved by
      `serialize_to_file(i)` and whether the final `serialize_to_file()`
      happened. */
  datatype RunReport = RunReport(exitCode: int, snapshots: seq<int>, finalSave: bool)

  /** `run(argc, argv)`.  The layout is abstracted to the answers of its
      successive `step` calls. */
  method Run(settings: ApplicationSettings, argv: seq<string>, converged: nat -> bool) returns (r: Result<RunReport, string>)
    requires |argv| >= 1
    modifies settings
    ensures var p := Parse(argv[1..], old(settings.View()));
      settings.View() == p.settings &&
      (p.outcome.Err? ==> r == Err(Message(p.outcome.error))) &&
      (p.outcome == Ok(false) ==> r == Ok(RunReport(ExitSuccess, [], false))) &&
      (p.outcome == Ok(true) ==>
        match StartIteration(p.settings)
        case Err(e) => r == Err(e)
        case Ok(start) =>
          r == Ok(RunReport(ExitSuccess,
                            Snapshots(start, p.settings.maxIteration, p.settings.intervalSave, converged, 0),
                            true)))
  {
    var parsed := ParseOptions(settings, argv[1..]);
    if parsed.Err? {
      return Err(Message(parsed.error));
    }
    if !parsed.value {
      return Ok(RunReport(ExitSuccess, [], false));
    }
    var start: SizeT := 0;
    if settings.positionsRequired {
      var fromName := IterationStartFromName(settings.positions);
      if fromName.Err? {
        return Err(fromName.error);
      }
      start := fromName.value;
    }
    var snapshots := StepAndSave(start, settings.maxIteration, settings.intervalSave, converged);
    r := Ok(RunReport(ExitSuccess, snapshots, true));
  }
}

/** The command line of st_render (main.py): the keyword/value scan of
    argv, the required-argument checks, the output file names and the
    choice of colour ramp in hsd_render and goes_render.

    argv is taken whole, with the program name at index 0. Python's int()
    and float() conversions are parameters (`Converters`), and so are
    os.path.basename and os.path.join (`PathOps`). */
module Cli {
  import opened Basics
  import opened HsdReader
  import opened Calibration
  import Colorscale

  // ---- The argv scan -----------------------------------------------------------

  /** The value of `op`: the last command word seen. */
  datatype Op = Hsd | Goes | Rgb

  /** A value stored in `args`: `color` is converted by int(), `gamma` by
      float(), every other keyword keeps its text. */
  datatype Value = Text(text: string) | Integer(number: int) | Real(fraction: real)

  /** `op` and `args` as the loop leaves them. */
  datatype Parsed = Parsed(op: Option<Op>, args: map<string, Value>)

  const NOTHING_PARSED := Parsed(None, map[])

  /** int() and float() on a command-line word; None where they raise
      ValueError. */
  datatype Converters = Converters(toInt: string -> Option<int>, toFloat: string -> Option<real>)

  /** The ValueError that stops the scan, uncaught. */
  datatype ParseError = NotAnInteger(word: string) | NotAFloat(word: string)

  function CommandOf(word: string): (op: Option<Op>)
    ensures op.Some? <==> word in {"hsdfile", "goesncfile", "rgbfile"}
  {
    if word == "hsdfile" then Some(Hsd)
    else if word == "goesncfile" then Some(Goes)
    else if word == "rgbfile" then Some(Rgb)
    else None
  }

  /** The keywords that take the next word as their value. */
  const VALUE_KEYWORDS: set<string> := {"file", "red", "green", "blue", "color", "outpic", "outdir", "gamma"}

  /** The word at `j` is a keyword with a word after it, so that word is
      its value. */
  predicate Stores(argv: seq<string>, j: nat)
    requires j < |argv|
  {
    argv[j] in VALUE_KEYWORDS && j + 1 < |argv|
  }

  /** The position the loop examines after `i`. */
  function Next(argv: seq<string>, i: nat): (n: nat)
    requires i < |argv|
    ensures i < n <= |argv|
  {
    if Stores(argv, i) then i + 2 else i + 1
  }

  /** The positions the loop examines when it starts at `i`: the words it
      reads as commands or keywords, not the values it consumes. */
  function Words(argv: seq<string>, i: nat): (ws: seq<nat>)
    ensures forall k :: 0 <= k < |ws| ==> i <= ws[k] < |argv|
    decreases |argv| - i
  {
    if i >= |argv| then [] else [i] + Words(argv, Next(argv, i))
  }

  /** The type each keyword's value has. */
  predicate Typed(key: string, v: Value)
  {
    if key == "color" then v.Integer? else if key == "gamma" then v.Real? else v.Text?
  }

  predicate WellTyped(args: map<string, Value>)
  {
    forall key :: key in args ==> Typed(key, args[key])
  }

  /** What the loop stores for `key` given the word after it. */
  function Convert(key: string, word: string, conv: Converters): (r: Result<Value, ParseError>)
    ensures r.Success? ==> Typed(key, r.value)
    ensures r.Failure? <==>
              (key == "color" && conv.toInt(word).None?) || (key == "gamma" && conv.toFloat(word).None?)
  {
    if key == "color" then
      (match conv.toInt(word)
       case None => Failure(NotAnInteger(word))
       case Some(n) => Success(Integer(n)))
    else if key == "gamma" then
      (match conv.toFloat(word)
       case None => Failure(NotAFloat(word))
       case Some(x) => Success(Real(x)))
    else Success(Text(word))
  }

  /** The loop of main from position `i` on, with `p` parsed so far. */
  function Scan(argv: seq<string>, i: nat, p: Parsed, conv: Converters): (r: Result<Parsed, ParseError>)
    ensures r.Success? ==> p.args.Keys <= r.value.args.Keys
    ensures r.Success? && p.op.Some? ==> r.value.op.Some?
    decreases |argv| - i
  {
    if i >= |argv| then Success(p)
    else
      var word := argv[i];
      match CommandOf(word)
      case Some(op) => Scan(argv, i + 1, p.(op := Some(op)), conv)
      case None =>
        if Stores(argv, i) then
          match Convert(word, argv[i + 1], conv)
          case Failure(e) => Failure(e)
          case Success(v) => Scan(argv, i + 2, p.(args := p.args[word := v]), conv)
        else Scan(argv, i + 1, p, conv)
  }

  /** The argv loop of main. */
  method ParseArgs(argv: seq<string>, conv: Converters) returns (r: Result<Parsed, ParseError>)
    ensures r == Scan(argv, 1, NOTHING_PARSED, conv)
  {
    var op: Option<Op> := None;
    var args: map<string, Value> := map[];
    var i := 1;
    while i < |argv|
      invariant 1 <= i
      invariant Scan(argv, 1, NOTHING_PARSED, conv) == Scan(argv, i, Parsed(op, args), conv)
      decreases |argv| - i
    {
      var arg := argv[i];
      if arg == "hsdfile" {
        op := Some(Hsd);
      } else if arg == "goesncfile" {
        op := Some(Goes);
      } else if arg == "rgbfile" {
        op := Some(Rgb);
      } else if arg in {"file", "red", "green", "blue", "outpic", "outdir"} && i + 1 < |argv| {
        i := i + 1;
        args := args[arg := Text(argv[i])];
      } else if arg == "color" && i + 1 < |argv| {
        i := i + 1;
        var n := conv.toInt(argv[i]);
        if n.None? {
          return Failure(NotAnInteger(argv[i]));
        }
        args := args["color" := Integer(n.value)];
      } else if arg == "gamma" && i + 1 < |argv| {
        i := i + 1;
        var x := conv.toFloat(argv[i]);
        if x.None? {
          return Failure(NotAFloat(argv[i]));
        }
        args := args["gamma" := Real(x.value)];
      }
      i := i + 1;
    }
    return Success(Parsed(op, args));
  }

  // ---- What the scan computes, position by position ------------------------------

  /** The command of the last command word among the positions `ws`, or
      `otherwise` when there is none. */
  function LastCommandIn(argv: seq<string>, ws: seq<nat>, otherwise: Option<Op>): Option<Op>
    requires forall k :: 0 <= k < |ws| ==> ws[k] < |argv|
  {
    if ws == [] then otherwise
    else
      var op := CommandOf(argv[ws[|ws| - 1]]);
      if op.Some? then op else LastCommandIn(argv, ws[..|ws| - 1], otherwise)
  }

  /** The last position among `ws` where `key` stores a value. */
  function LastValueAt(argv: seq<string>, ws: seq<nat>, key: string): (r: Option<nat>)
    requires forall k :: 0 <= k < |ws| ==> ws[k] < |argv|
    ensures r.Some? ==> r.value in ws && r.value < |argv| && argv[r.value] == key && Stores(argv, r.value)
    ensures r.None? ==> forall j :: j in ws ==> !(argv[j] == key && Stores(argv, j))
  {
    if ws == [] then None
    else
      var j := ws[|ws| - 1];
      if argv[j] == key && Stores(argv, j) then Some(j)
      else
        var r := LastValueAt(argv, ws[..|ws| - 1], key);
        assert forall j' :: j' in ws ==> j' == j || j' in ws[..|ws| - 1];
        r
  }

  /** A keyword whose value int() or float() rejects. */
  predicate BadNumberAt(argv: seq<string>, j: nat, conv: Converters)
    requires j < |argv|
  {
    Stores(argv, j) && Convert(argv[j], argv[j + 1], conv).Failure?
  }

  /** What one examined word does to `op` and `args`, when it raises nothing. */
  function Advance(argv: seq<string>, i: nat, p: Parsed, conv: Converters): Parsed
    requires i < |argv|
  {
    var word := argv[i];
    if CommandOf(word).Some? then p.(op := CommandOf(word))
    else if Stores(argv, i) && Convert(word, argv[i + 1], conv).Success? then
      p.(args := p.args[word := Convert(word, argv[i + 1], conv).value])
    else p
  }

  lemma ScanStep(argv: seq<string>, i: nat, p: Parsed, conv: Converters)
    requires i < |argv| && Scan(argv, i, p, conv).Success?
    ensures Scan(argv, i, p, conv) == Scan(argv, Next(argv, i), Advance(argv, i, p, conv), conv)
  {
  }

  lemma WordsStep(argv: seq<string>, i: nat)
    requires i < |argv|
    ensures Words(argv, i) == [i] + Words(argv, Next(argv, i))
    ensures forall j :: j in Words(argv, i) <==> j == i || j in Words(argv, Next(argv, i))
  {
  }

  lemma {:induction false} LastCommandPrepend(argv: seq<string>, x: nat, ws: seq<nat>, otherwise: Option<Op>)
    requires x < |argv| && forall k :: 0 <= k < |ws| ==> ws[k] < |argv|
    ensures LastCommandIn(argv, [x] + ws, otherwise)
         == LastCommandIn(argv, ws, if CommandOf(argv[x]).Some? then CommandOf(argv[x]) else otherwise)
  {
    if ws != [] {
      assert ([x] + ws)[..|ws|] == [x] + ws[..|ws| - 1];
      LastCommandPrepend(argv, x, ws[..|ws| - 1], otherwise);
    }
  }

  lemma {:induction false} LastValuePrepend(argv: seq<string>, x: nat, ws: seq<nat>, key: string)
    requires x < |argv| && forall k :: 0 <= k < |ws| ==> ws[k] < |argv|
    ensures LastValueAt(argv, [x] + ws, key)
         == if LastValueAt(argv, ws, key).Some? then LastValueAt(argv, ws, key)
            else if argv[x] == key && Stores(argv, x) then Some(x) else None
  {
    if ws != [] {
      assert ([x] + ws)[..|ws|] == [x] + ws[..|ws| - 1];
      LastValuePrepend(argv, x, ws[..|ws| - 1], key);
    }
  }

  /** Every stored value has its keyword's type. */
  lemma {:induction false} ScanWellTyped(argv: seq<string>, i: nat, p: Parsed, conv: Converters)
    requires WellTyped(p.args)
    ensures Scan(argv, i, p, conv).Success? ==> WellTyped(Scan(argv, i, p, conv).value.args)
    decreases |argv| - i
  {
    if i < |argv| {
      var word := argv[i];
      if CommandOf(word).Some? {
        ScanWellTyped(argv, i + 1, p.(op := CommandOf(word)), conv);
      } else if Stores(argv, i) {
        var v := Convert(word, argv[i + 1], conv);
        if v.Success? {
          ScanWellTyped(argv, i + 2, p.(args := p.args[word := v.value]), conv);
        }
      } else {
        ScanWellTyped(argv, i + 1, p, conv);
      }
    }
  }

  /** `op` is the command of the last command word the loop reads; a
      `file hsdfile` pair stores "hsdfile" as the file name instead. */
  lemma {:induction false} ScanCommand(argv: seq<string>, i: nat, p: Parsed, conv: Converters)
    requires Scan(argv, i, p, conv).Success?
    ensures Scan(argv, i, p, conv).value.op == LastCommandIn(argv, Words(argv, i), p.op)
    decreases |argv| - i
  {
    if i < |argv| {
      var next := Next(argv, i);
      ScanStep(argv, i, p, conv);
      WordsStep(argv, i);
      LastCommandPrepend(argv, i, Words(argv, next), p.op);
      ScanCommand(argv, next, Advance(argv, i, p, conv), conv);
    }
  }

  /** A key is in `args` exactly when some keyword occurrence stored it or
      it was there before; a keyword with no word after it stores nothing. */
  lemma {:induction false} ScanKeys(argv: seq<string>, i: nat, p: Parsed, conv: Converters, key: string)
    requires Scan(argv, i, p, conv).Success?
    ensures key in Scan(argv, i, p, conv).value.args <==>
              LastValueAt(argv, Words(argv, i), key).Some? || key in p.args
    decreases |argv| - i
  {
    if i < |argv| {
      var next := Next(argv, i);
      ScanStep(argv, i, p, conv);
      WordsStep(argv, i);
      LastValuePrepend(argv, i, Words(argv, next), key);
      ScanKeys(argv, next, Advance(argv, i, p, conv), conv, key);
    }
  }

  /** A key no occurrence stores keeps the value it had. */
  lemma {:induction false} ScanKeeps(argv: seq<string>, i: nat, p: Parsed, conv: Converters, key: string)
    requires Scan(argv, i, p, conv).Success?
    requires LastValueAt(argv, Words(argv, i), key).None? && key in p.args
    ensures key in Scan(argv, i, p, conv).value.args
    ensures Scan(argv, i, p, conv).value.args[key] == p.args[key]
    decreases |argv| - i
  {
    if i < |argv| {
      var next := Next(argv, i);
      ScanStep(argv, i, p, conv);
      WordsStep(argv, i);
      LastValuePrepend(argv, i, Words(argv, next), key);
      ScanKeeps(argv, next, Advance(argv, i, p, conv), conv, key);
    }
  }

  /** The value stored by the occurrence at `i` survives when no later
      occurrence stores the same key. */
  lemma StoredHere(argv: seq<string>, i: nat, p: Parsed, conv: Converters)
    requires i < |argv| && Stores(argv, i) && Scan(argv, i, p, conv).Success?
    requires LastValueAt(argv, Words(argv, i + 2), argv[i]).None?
    ensures argv[i] in Scan(argv, i, p, conv).value.args
    ensures Success(Scan(argv, i, p, conv).value.args[argv[i]]) == Convert(argv[i], argv[i + 1], conv)
  {
    var key := argv[i];
    assert CommandOf(key).None?;
    var v := Convert(key, argv[i + 1], conv);
    assert v.Success?;
    var q := p.(args := p.args[key := v.value]);
    assert Scan(argv, i, p, conv) == Scan(argv, i + 2, q, conv);
    ScanKeeps(argv, i + 2, q, conv, key);
  }

  /** A keyword holds the value after its last storing occurrence: a later
      repeat overwrites an earlier one. */
  lemma {:induction false} ScanLastValue(argv: seq<string>, i: nat, p: Parsed, conv: Converters, key: string)
    requires Scan(argv, i, p, conv).Success?
    requires LastValueAt(argv, Words(argv, i), key).Some?
    ensures key in Scan(argv, i, p, conv).value.args
    ensures Success(Scan(argv, i, p, conv).value.args[key])
         == Convert(key, argv[LastValueAt(argv, Words(argv, i), key).value + 1], conv)
    decreases |argv| - i
  {
    var next := Next(argv, i);
    WordsStep(argv, i);
    LastValuePrepend(argv, i, Words(argv, next), key);
    if LastValueAt(argv, Words(argv, next), key).Some? {
      ScanStep(argv, i, p, conv);
      ScanLastValue(argv, next, Advance(argv, i, p, conv), conv, key);
    } else {
      StoredHere(argv, i, p, conv);
    }
  }

  /** The scan stops with a ValueError exactly when some keyword it reads
      has a value int() or float() rejects. */
  lemma {:induction false} ScanFailure(argv: seq<string>, i: nat, p: Parsed, conv: Converters)
    ensures Scan(argv, i, p, conv).Failure? <==>
              exists j :: j in Words(argv, i) && BadNumberAt(argv, j, conv)
    decreases |argv| - i
  {
    if i < |argv| {
      WordsStep(argv, i);
      var word := argv[i];
      if CommandOf(word).Some? {
        ScanFailure(argv, i + 1, p.(op := CommandOf(word)), conv);
      } else if Stores(argv, i) {
        var v := Convert(word, argv[i + 1], conv);
        if v.Success? {
          ScanFailure(argv, i + 2, p.(args := p.args[word := v.value]), conv);
        } else {
          assert BadNumberAt(argv, i, conv);
        }
      } else {
        ScanFailure(argv, i + 1, p, conv);
      }
    }
  }

  /** A keyword in the last position is ignored: dropping it changes
      nothing. */
  lemma {:induction false} TrailingKeywordIgnored(argv: seq<string>, i: nat, p: Parsed, conv: Converters)
    requires |argv| > 0 && argv[|argv| - 1] in VALUE_KEYWORDS
    requires |argv| - 1 in Words(argv, i)
    ensures Scan(argv, i, p, conv) == Scan(argv[..|argv| - 1], i, p, conv)
    decreases |argv| - i
  {
    var shorter := argv[..|argv| - 1];
    WordsStep(argv, i);
    if i < |argv| - 1 {
      assert shorter[i] == argv[i];
      if Stores(argv, i) {
        assert i + 2 < |argv|;
        assert shorter[i + 1] == argv[i + 1];
      }
      assert Stores(argv, i) == Stores(shorter, i);
      var word := argv[i];
      if CommandOf(word).Some? {
        TrailingKeywordIgnored(argv, i + 1, p.(op := CommandOf(word)), conv);
      } else if Stores(argv, i) {
        var v := Convert(word, argv[i + 1], conv);
        if v.Success? {
          TrailingKeywordIgnored(argv, i + 2, p.(args := p.args[word := v.value]), conv);
        }
      } else {
        TrailingKeywordIgnored(argv, i + 1, p, conv);
      }
    }
  }

  // ---- Output file names -----------------------------------------------------------

  /** os.path.basename and os.path.join. */
  datatype PathOps = PathOps(basename: string -> string, join: (string, string) -> string)

  /** Python truthiness of an optional string: None and "" are false. */
  predicate Given(s: Option<string>)
  {
    s.Some? && s.value != ""
  }

  /** get_output_path. */
  function OutputPath(input: string, outpic: Option<string>, outdir: Option<string>, ops: PathOps): (path: string)
    ensures Given(outpic) && Given(outdir) ==> path == ops.join(outdir.value, ops.basename(outpic.value))
    ensures Given(outpic) && !Given(outdir) ==> path == outpic.value
    ensures !Given(outpic) && Given(outdir) ==> path == ops.join(outdir.value, ops.basename(input) + ".png")
    ensures !Given(outpic) && !Given(outdir) ==> EndsWith(path, ".png") && path[..|path| - 4] == input
  {
    if Given(outpic) then
      if Given(outdir) then ops.join(outdir.value, ops.basename(outpic.value)) else outpic.value
    else if Given(outdir) then ops.join(outdir.value, ops.basename(input) + ".png")
    else input + ".png"
  }

  const RGB_DEFAULT_OUTPUT := "rgb_composite.png"

  /** The output name of an rgb composite: outpic, or rgb_composite.png
      when the keyword is absent, moved into outdir when that is given. */
  function RgbOutputPath(outpic: Option<string>, outdir: Option<string>, ops: PathOps): (path: string)
    ensures !Given(outdir) ==> path == if outpic.Some? then outpic.value else RGB_DEFAULT_OUTPUT
  {
    var name := if outpic.Some? then outpic.value else RGB_DEFAULT_OUTPUT;
    if Given(outdir) then ops.join(outdir.value, ops.basename(name)) else name
  }

  /** An empty outpic or outdir counts as absent. */
  lemma EmptyNamesAreAbsent(input: string, outpic: Option<string>, outdir: Option<string>, ops: PathOps)
    ensures OutputPath(input, if outpic == Some("") then None else outpic,
                       if outdir == Some("") then None else outdir, ops)
         == OutputPath(input, outpic, outdir, ops)
  {
  }

  /** A given outpic decides the name alone: the input path plays no part. */
  lemma NamedOutputIgnoresInput(a: string, b: string, outpic: Option<string>, outdir: Option<string>, ops: PathOps)
    requires Given(outpic)
    ensures OutputPath(a, outpic, outdir, ops) == OutputPath(b, outpic, outdir, ops)
  {
  }

  /** The rgb rule is get_output_path with rgb_composite.png as the default
      outpic, except that an explicitly empty outpic stays empty. */
  lemma RgbOutputPathIsOutputPath(input: string, outpic: Option<string>, outdir: Option<string>, ops: PathOps)
    requires outpic != Some("")
    ensures RgbOutputPath(outpic, outdir, ops)
         == OutputPath(input, Some(if outpic.Some? then outpic.value else RGB_DEFAULT_OUTPUT), outdir, ops)
  {
  }

  // ---- Required arguments and the command started -----------------------------------

  datatype UsageError = NoCommand | MissingRgbFiles | MissingFileOrColor

  datatype Command =
    | RenderHsd(file: string, color: int, outpic: Option<string>, outdir: Option<string>)
    | RenderGoes(file: string, color: int, outpic: Option<string>, outdir: Option<string>)
    | Composite(red: string, green: string, blue: string, output: string, gamma: real)

  /** How main ends: help (0), an error message and help (1), an uncaught
      ValueError from the scan, or the command it starts. */
  datatype Outcome = Help | Usage(problem: UsageError) | Crash(fault: ParseError) | Start(command: Command)

  const DEFAULT_GAMMA: real := 2.2

  function TextArg(args: map<string, Value>, key: string): (s: Option<string>)
    requires WellTyped(args) && key != "color" && key != "gamma"
    ensures s.Some? <==> key in args
  {
    if key in args then Some(args[key].text) else None
  }

  /** The required-argument checks and the call main makes. */
  function Dispatch(p: Parsed, ops: PathOps): (o: Outcome)
    requires WellTyped(p.args)
    ensures o.Start? || o.Usage?
  {
    match p.op
    case None => Usage(NoCommand)
    case Some(Rgb) =>
      if "red" in p.args && "green" in p.args && "blue" in p.args then
        Start(Composite(p.args["red"].text, p.args["green"].text, p.args["blue"].text,
                        RgbOutputPath(TextArg(p.args, "outpic"), TextArg(p.args, "outdir"), ops),
                        if "gamma" in p.args then p.args["gamma"].fraction else DEFAULT_GAMMA))
      else Usage(MissingRgbFiles)
    case Some(op) =>
      if "file" in p.args && "color" in p.args then
        var file := p.args["file"].text;
        var color := p.args["color"].number;
        var outpic := TextArg(p.args, "outpic");
        var outdir := TextArg(p.args, "outdir");
        Start(if op == Hsd then RenderHsd(file, color, outpic, outdir)
              else RenderGoes(file, color, outpic, outdir))
      else Usage(MissingFileOrColor)
  }

  /** main up to the start of the command. */
  function Invocation(argv: seq<string>, conv: Converters, ops: PathOps): (o: Outcome)
    ensures o.Help? <==> |argv| <= 2
    ensures o.Crash? <==> |argv| > 2 && exists j :: j in Words(argv, 1) && BadNumberAt(argv, j, conv)
  {
    ScanFailure(argv, 1, NOTHING_PARSED, conv);
    if |argv| <= 2 then Help
    else
      match Scan(argv, 1, NOTHING_PARSED, conv)
      case Failure(e) => Crash(e)
      case Success(p) =>
        ScanWellTyped(argv, 1, NOTHING_PARSED, conv);
        Dispatch(p, ops)
  }

  /** main: show help for short command lines, scan argv, check the
      required arguments. */
  method RunCommandLine(argv: seq<string>, conv: Converters, ops: PathOps) returns (o: Outcome)
    ensures o == Invocation(argv, conv, ops)
  {
    if |argv| <= 2 {
      return Help;
    }
    var parsed := ParseArgs(argv, conv);
    if parsed.Failure? {
      return Crash(parsed.error);
    }
    ScanWellTyped(argv, 1, NOTHING_PARSED, conv);
    o := Dispatch(parsed.value, ops);
  }

  /** The exit status: 0 after help or a command that raised nothing; 1
      after a usage error, an uncaught ValueError or an exception the
      command raised. */
  function ExitStatus(o: Outcome, commandRaised: bool): (status: int)
    ensures status == 0 <==> o.Help? || (o.Start? && !commandRaised)
    ensures status == 0 || status == 1
  {
    match o
    case Help => 0
    case Usage(_) => 1
    case Crash(_) => 1
    case Start(_) => if commandRaised then 1 else 0
  }

  /** A keyword given on the command line: it stores a value somewhere. */
  predicate Supplied(argv: seq<string>, key: string)
  {
    LastValueAt(argv, Words(argv, 1), key).Some?
  }

  /** main returns 1 with a usage message exactly when no command word
      was read, or rgbfile lacks one of red/green/blue, or hsdfile and
      goesncfile lack file or color. */
  lemma UsageOfParsed(p: Parsed, ops: PathOps)
    requires WellTyped(p.args)
    ensures Dispatch(p, ops).Usage? <==>
              p.op.None?
              || (p.op == Some(Rgb) && !("red" in p.args && "green" in p.args && "blue" in p.args))
              || (p.op.Some? && p.op != Some(Rgb) && !("file" in p.args && "color" in p.args))
  {
  }

  lemma UsageCases(argv: seq<string>, conv: Converters, ops: PathOps)
    requires |argv| > 2 && Scan(argv, 1, NOTHING_PARSED, conv).Success?
    ensures var op := LastCommandIn(argv, Words(argv, 1), None);
      Invocation(argv, conv, ops).Usage? <==>
        op.None?
        || (op == Some(Rgb) && !(Supplied(argv, "red") && Supplied(argv, "green") && Supplied(argv, "blue")))
        || (op.Some? && op != Some(Rgb) && !(Supplied(argv, "file") && Supplied(argv, "color")))
  {
    var p := Scan(argv, 1, NOTHING_PARSED, conv).value;
    ScanWellTyped(argv, 1, NOTHING_PARSED, conv);
    assert Invocation(argv, conv, ops) == Dispatch(p, ops);
    UsageOfParsed(p, ops);
    ScanCommand(argv, 1, NOTHING_PARSED, conv);
    ScanKeys(argv, 1, NOTHING_PARSED, conv, "red");
    ScanKeys(argv, 1, NOTHING_PARSED, conv, "green");
    ScanKeys(argv, 1, NOTHING_PARSED, conv, "blue");
    ScanKeys(argv, 1, NOTHING_PARSED, conv, "file");
    ScanKeys(argv, 1, NOTHING_PARSED, conv, "color");
  }

  lemma HsdCommandOfParsed(p: Parsed, ops: PathOps)
    requires WellTyped(p.args) && Dispatch(p, ops).Start? && Dispatch(p, ops).command.RenderHsd?
    ensures p.op == Some(Hsd) && "file" in p.args && "color" in p.args
    ensures p.args["file"] == Text(Dispatch(p, ops).command.file)
    ensures p.args["color"] == Integer(Dispatch(p, ops).command.color)
    ensures Dispatch(p, ops).command.outpic == TextArg(p.args, "outpic")
    ensures Dispatch(p, ops).command.outdir == TextArg(p.args, "outdir")
  {
  }

  /** A GOES render takes the stored file, color, outpic and outdir. */
  lemma GoesCommandOfParsed(p: Parsed, ops: PathOps)
    requires WellTyped(p.args) && Dispatch(p, ops).Start? && Dispatch(p, ops).command.RenderGoes?
    ensures p.op == Some(Goes) && "file" in p.args && "color" in p.args
    ensures p.args["file"] == Text(Dispatch(p, ops).command.file)
    ensures p.args["color"] == Integer(Dispatch(p, ops).command.color)
    ensures Dispatch(p, ops).command.outpic == TextArg(p.args, "outpic")
    ensures Dispatch(p, ops).command.outdir == TextArg(p.args, "outdir")
  {
  }

  /** An rgb composite takes the stored red, green and blue files, the rgb
      output name, and the stored gamma or 2.2 when none was given. */
  lemma RgbCommandOfParsed(p: Parsed, ops: PathOps)
    requires WellTyped(p.args) && Dispatch(p, ops).Start? && Dispatch(p, ops).command.Composite?
    ensures p.op == Some(Rgb) && "red" in p.args && "green" in p.args && "blue" in p.args
    ensures var cmd := Dispatch(p, ops).command;
      p.args["red"] == Text(cmd.red) && p.args["green"] == Text(cmd.green) && p.args["blue"] == Text(cmd.blue)
    ensures Dispatch(p, ops).command.output
         == RgbOutputPath(TextArg(p.args, "outpic"), TextArg(p.args, "outdir"), ops)
    ensures "gamma" in p.args ==> p.args["gamma"] == Real(Dispatch(p, ops).command.gamma)
    ensures "gamma" !in p.args ==> Dispatch(p, ops).command.gamma == DEFAULT_GAMMA
  {
  }

  /** An HSD render gets the words after the last `file` and `color`. */
  lemma HsdRenderArguments(argv: seq<string>, conv: Converters, ops: PathOps)
    requires Invocation(argv, conv, ops).Start? && Invocation(argv, conv, ops).command.RenderHsd?
    ensures var cmd := Invocation(argv, conv, ops).command;
      var file := LastValueAt(argv, Words(argv, 1), "file");
      var color := LastValueAt(argv, Words(argv, 1), "color");
      file.Some? && color.Some?
      && cmd.file == argv[file.value + 1]
      && conv.toInt(argv[color.value + 1]) == Some(cmd.color)
      && LastCommandIn(argv, Words(argv, 1), None) == Some(Hsd)
  {
    var p := Scan(argv, 1, NOTHING_PARSED, conv).value;
    ScanWellTyped(argv, 1, NOTHING_PARSED, conv);
    assert Invocation(argv, conv, ops) == Dispatch(p, ops);
    HsdCommandOfParsed(p, ops);
    ScanCommand(argv, 1, NOTHING_PARSED, conv);
    ScanKeys(argv, 1, NOTHING_PARSED, conv, "file");
    ScanKeys(argv, 1, NOTHING_PARSED, conv, "color");
    ScanLastValue(argv, 1, NOTHING_PARSED, conv, "file");
    ScanLastValue(argv, 1, NOTHING_PARSED, conv, "color");
  }

  // ---- Ramp dispatch -------------------------------------------------------------------

  /** The colour ramps of colorscale. */
  datatype Ramp = Bw(bitNum: nat) | Bd | Color2 | Wvnrl

  /** The colour switch of hsd_render and goes_render: colours 1, 2 and 3
      select BD, Color2 and WVNRL on the temperatures, any other colour bw
      on the raw samples at the given bit depth. */
  function ColourRamp(color: int, bitNum: nat): (ramp: Ramp)
    ensures color == 1 <==> ramp == Bd
    ensures color == 2 <==> ramp == Color2
    ensures color == 3 <==> ramp == Wvnrl
    ensures ramp.Bw? <==> color !in {1, 2, 3}
    ensures ramp.Bw? ==> ramp.bitNum == bitNum
  {
    if color == 1 then Bd
    else if color == 2 then Color2
    else if color == 3 then Wvnrl
    else Bw(bitNum)
  }

  /** hsd_render calibrates the infrared bands only. */
  predicate HsdCalibrates(band: nat)
  {
    band > 3
  }

  /** The ramp hsd_render applies: the colour switch on the infrared
      bands, bw at the tile's bit depth on the others. */
  function HsdRamp(band: nat, bitNum: nat, color: int): (r: Ramp)
    ensures r.Bw? <==> !HsdCalibrates(band) || color !in {1, 2, 3}
    ensures r.Bw? ==> r.bitNum == bitNum
  {
    if HsdCalibrates(band) then ColourRamp(color, bitNum) else Bw(bitNum)
  }

  /** GOES-R samples are 14 bits deep. */
  const GOES_BIT_DEPTH: nat := 14

  /** The ramp goes_render applies to its always-calibrated data. */
  function GoesRamp(color: int): (r: Ramp)
    ensures r.Bw? <==> color !in {1, 2, 3}
    ensures r.Bw? ==> r.bitNum == GOES_BIT_DEPTH
  {
    ColourRamp(color, GOES_BIT_DEPTH)
  }

  /** goes_render differs from hsd_render on an infrared band only in the
      bit depth of its bw fallback, which is 14. */
  lemma GoesRampIsHsdRampAt14Bits(band: nat, color: int)
    requires HsdCalibrates(band)
    ensures GoesRamp(color) == HsdRamp(band, GOES_BIT_DEPTH, color)
    ensures GoesRamp(color).Bw? ==> GoesRamp(color) == Bw(GOES_BIT_DEPTH)
  {
  }

  /** The pixels a ramp makes: bw from the raw samples, the others from
      the temperatures. */
  function Pixels(ramp: Ramp, data: seq<u16>, temp: seq<real>): (px: seq<Colorscale.Rgb>)
    ensures |px| == if ramp.Bw? then |data| else |temp|
  {
    match ramp
    case Bw(bitNum) => Colorscale.BwScale(data, bitNum)
    case Bd => seq(|temp|, i requires 0 <= i < |temp| => Colorscale.Gray(Colorscale.BdLevel(temp[i])))
    case Color2 =>
      seq(|temp|, i requires 0 <= i < |temp| =>
        Colorscale.Rgb(Colorscale.Color2RLevel(temp[i]), Colorscale.Color2GLevel(temp[i]), Colorscale.Color2BLevel(temp[i])))
    case Wvnrl =>
      seq(|temp|, i requires 0 <= i < |temp| =>
        Colorscale.Rgb(Colorscale.WvnrlRLevel(temp[i]), Colorscale.WvnrlGLevel(temp[i]), Colorscale.WvnrlBLevel(temp[i])))
  }

  /** The exception hsd_render raises. */
  datatype RenderError = ReadFailed(readError: HsdError) | CalibrationFailed(calibrationError: CalibrationError)

  /** hsd_render's pixels: read with debug=True, calibrate the infrared
      bands with debug=True, apply the ramp. A read failure is reported as
      such, and only an infrared band can fail in calibration. */
  function HsdRendering(fs: FileSystem, pm: PlanckModel, path: string, color: int)
    : (r: Result<seq<Colorscale.Rgb>, RenderError>)
    ensures r.Failure? && r.error.ReadFailed? <==> ReadTile(fs, path, true).Failure?
    ensures r.Failure? && r.error.CalibrationFailed? ==>
              ReadTile(fs, path, true).Success? && HsdCalibrates(ReadTile(fs, path, true).value.band)
              && Calibrate(ReadTile(fs, path, true).value, pm, true) == Failure(r.error.calibrationError)
  {
    match ReadTile(fs, path, true)
    case Failure(e) => Failure(ReadFailed(e))
    case Success(t) =>
      if HsdCalibrates(t.band) then
        match Calibrate(t, pm, true)
        case Failure(e) => Failure(CalibrationFailed(e))
        case Success(temp) => Success(Pixels(HsdRamp(t.band, t.bitNum, color), t.data, temp))
      else Success(Pixels(Bw(t.bitNum), t.data, []))
  }

  /** hsd_render up to the reshape: the output name, then the pixels. */
  method HsdRender(fs: FileSystem, pm: PlanckModel, path: string, color: int,
                   outpic: Option<string>, outdir: Option<string>, ops: PathOps)
    returns (output: string, r: Result<seq<Colorscale.Rgb>, RenderError>)
    ensures output == OutputPath(path, outpic, outdir, ops)
    ensures r == HsdRendering(fs, pm, path, color)
  {
    output := OutputPath(path, outpic, outdir, ops);
    var read := HsdReadFile(fs, path, true);
    if read.Failure? {
      return output, Failure(ReadFailed(read.error));
    }
    var t := read.value;
    if t.band > 3 {
      var calibrated, updated := HsdCalibration(t, pm, true);
      if calibrated.Failure? {
        return output, Failure(CalibrationFailed(calibrated.error));
      }
      var pixels := InfraredPixels(color, t.data, t.bitNum, updated.temp.value);
      r := Success(pixels);
    } else {
      r := Success(Colorscale.BwScale(t.data, t.bitNum));
    }
  }

  /** The colour switch of hsd_render for a calibrated band. */
  method InfraredPixels(color: int, data: seq<u16>, bitNum: nat, temp: seq<real>)
    returns (pixels: seq<Colorscale.Rgb>)
    ensures pixels == Pixels(ColourRamp(color, bitNum), data, temp)
  {
    if color == 1 {
      pixels := Colorscale.BdScale(temp);
    } else if color == 2 {
      pixels := Colorscale.Color2Scale(temp);
    } else if color == 3 {
      pixels := Colorscale.WvnrlScale(temp);
    } else {
      pixels := Colorscale.BwScale(data, bitNum);
    }
  }

  /** The pixels always fill the tile, so reshape(height, width, 3) cannot
      fail. */
  lemma RenderedImageFitsTile(fs: FileSystem, pm: PlanckModel, path: string, color: int)
    requires HsdRendering(fs, pm, path, color).Success?
    ensures ReadTile(fs, path, true).Success?
    ensures var t := ReadTile(fs, path, true).value;
      |HsdRendering(fs, pm, path, color).value| == t.width * t.height
  {
  }

  /** Bands 4 to 6 carry zero constants, and hsd_render calibrates every
      band above 3 whatever the colour: it raises OverflowError when wl**5
      overflows, ZeroDivisionError for any other finite wavelength, and
      renders only an infinite or NaN wavelength, unless the tile is empty. */
  lemma MidInfraredBandsOutcome(fs: FileSystem, pm: PlanckModel, path: string, color: int)
    requires Sound(pm)
    requires ReadTile(fs, path, true).Success?
    requires 3 < ReadTile(fs, path, true).value.band <= LAST_UNCALIBRATED_BAND
    ensures var w := ReadTile(fs, path, true).value.wavelength;
      pm.overflows(w) ==> HsdRendering(fs, pm, path, color) == Failure(CalibrationFailed(Overflow))
    ensures var w := ReadTile(fs, path, true).value.wavelength;
      Finite(w) && !pm.overflows(w) ==>
        HsdRendering(fs, pm, path, color) == Failure(CalibrationFailed(ZeroDivision))
    ensures var t := ReadTile(fs, path, true).value;
      !Finite(t.wavelength) ==> (HsdRendering(fs, pm, path, color).Success? <==> |t.data| > 0)
  {
    var t := ReadTile(fs, path, true).value;
    assert RadiometryOf(t).k == ZERO_F64;
  }

  /** Bands 1 to 3 are rendered in grey from the raw samples: the colour
      and the Planck model play no part. */
  lemma VisibleBandsIgnoreColor(fs: FileSystem, pm: PlanckModel, pm': PlanckModel, path: string, c: int, c': int)
    requires ReadTile(fs, path, true).Success? && !HsdCalibrates(ReadTile(fs, path, true).value.band)
    ensures HsdRendering(fs, pm, path, c) == HsdRendering(fs, pm', path, c')
    ensures var t := ReadTile(fs, path, true).value;
      HsdRendering(fs, pm, path, c) == Success(Colorscale.BwScale(t.data, t.bitNum))
  {
  }
}

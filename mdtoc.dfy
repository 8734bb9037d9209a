/** The command line of the `mdtoc` tool: how the arguments become a
    configuration, how that configuration is checked, where the markdown is
    read from and which exit code an error gives. Reading, writing and the
    clipboard themselves are outside the model. */
module Mdtoc {
  import opened Common

  const Version: string := "1.0.0"

  /** The failures the tool reports, each with its message. */
  datatype ErrKind = InvalidParam(msg: string) | IoErr(msg: string) | ClipboardErr(msg: string)

  /** `Display` for `ErrKind`: a prefix naming the kind, then the message. */
  function Display(e: ErrKind): (text: string)
    ensures EndsWith(text, e.msg)
  {
    var prefix := match e
      case InvalidParam(_) => "Invalid Param: "
      case IoErr(_) => "IO Error: "
      case ClipboardErr(_) => "Clipboard Error: ";
    assert (prefix + e.msg)[|prefix|..] == e.msg;
    prefix + e.msg
  }

  /** Two errors are displayed alike only when they are the same error: the
      prefixes tell the kinds apart and the rest is the message. */
  lemma DisplayInjective(e1: ErrKind, e2: ErrKind)
    requires Display(e1) == Display(e2)
    ensures e1 == e2
  {
    var t1, t2 := Display(e1), Display(e2);
    if e1.InvalidParam? || e2.InvalidParam? {
      assert t1[1] == t2[1];
    }
    if e1.ClipboardErr? || e2.ClipboardErr? {
      assert t1[0] == t2[0];
    }
    var n := |t1| - |e1.msg|;
    assert e1.msg == t1[n..];
    assert e2.msg == t2[n..];
  }

  /** `Termination::report` for `ErrKind`: exit code 1 for a bad parameter,
      2 for an I/O error, 3 for a clipboard error. */
  function Report(e: ErrKind): (code: nat)
    ensures 1 <= code <= 3
    ensures code == 1 <==> e.InvalidParam?
    ensures code == 2 <==> e.IoErr?
    ensures code == 3 <==> e.ClipboardErr?
  {
    match e
    case InvalidParam(_) => 1
    case IoErr(_) => 2
    case ClipboardErr(_) => 3
  }

  /** What the options ask for; `Default` has every flag off and no
      file. */
  datatype Config = Config(
    inputFile: Option<string>,
    fromClip: bool,
    toc: bool,
    titleOrder: bool,
    insert: bool,
    outputFile: Option<string>,
    toClip: bool)

  const Default := Config(None, false, false, false, false, None, false)

  /** What `main` does once the options are read: show the usage text, show
      the version, or go on to the markdown with a configuration. */
  datatype Action = ShowUsage | ShowVersion | Handle(config: Config)

  /** Where the option loop ends: stopped early by `-h` or `-v`, failed on
      a missing file parameter, or run to the end of the arguments. */
  datatype Scanned = Stopped(action: Action) | Failed(error: ErrKind) | Configured(config: Config)

  const FileParamMissing := InvalidParam("`-f, --file` requires a file param")
  const WriteParamMissing := InvalidParam("`-w, --write` requires a file param")

  /** An option that takes a file: `-f` for the input, `-w` for the
      output. */
  predicate IsFileOption(arg: string) { arg == "-f" || arg == "--file" }
  predicate IsWriteOption(arg: string) { arg == "-w" || arg == "--write" }
  predicate IsHelp(arg: string) { arg == "-h" || arg == "--help" }
  predicate IsVersion(arg: string) { arg == "-v" || arg == "--version" }

  /** The effect of a flag that takes no parameter; anything the tool does
      not know leaves the configuration as it is. */
  function SetFlag(config: Config, arg: string): Config
  {
    if arg == "-fc" || arg == "--from-clip" then config.(fromClip := true)
    else if arg == "-t" || arg == "--toc" then config.(toc := true)
    else if arg == "-o" || arg == "--title-order" then config.(titleOrder := true)
    else if arg == "-i" || arg == "--insert" then config.(insert := true)
    else if arg == "-tc" || arg == "--to-clip" then config.(toClip := true)
    else config
  }

  /** The option loop of `main` over the remaining arguments, one `match`
      per argument. */
  function Scan(args: seq<string>, config: Config): (r: Scanned)
    ensures r.Stopped? ==> !r.action.Handle?
    ensures r.Failed? ==> r.error == FileParamMissing || r.error == WriteParamMissing
  {
    if args == [] then Configured(config)
    else
      var arg := args[0];
      if IsHelp(arg) then Stopped(ShowUsage)
      else if IsVersion(arg) then Stopped(ShowVersion)
      else if IsFileOption(arg) then
        if |args| >= 2 then Scan(args[2..], config.(inputFile := Some(args[1])))
        else Failed(FileParamMissing)
      else if IsWriteOption(arg) then
        if |args| >= 2 then Scan(args[2..], config.(outputFile := Some(args[1])))
        else Failed(WriteParamMissing)
      else Scan(args[1..], SetFlag(config, arg))
  }

  /** The option loop as `main` runs it: the arguments are taken one at a
      time, a file option takes the next one with it, and the
      configuration is updated field by field. */
  method ParseOptions(args: seq<string>) returns (r: Scanned)
    ensures r == Scan(args, Default)
  {
    var config := Default;
    var i := 0;
    while i < |args|
      invariant i <= |args|
      invariant Scan(args[i..], config) == Scan(args, Default)
      decreases |args| - i
    {
      var arg := args[i];
      assert args[i..][0] == arg;
      i := i + 1;
      if IsHelp(arg) {
        return Stopped(ShowUsage);
      } else if IsVersion(arg) {
        return Stopped(ShowVersion);
      } else if IsFileOption(arg) {
        if i < |args| {
          assert args[i - 1..][1] == args[i] && args[i - 1..][2..] == args[i + 1..];
          config := config.(inputFile := Some(args[i]));
          i := i + 1;
        } else {
          return Failed(FileParamMissing);
        }
      } else if IsWriteOption(arg) {
        if i < |args| {
          assert args[i - 1..][1] == args[i] && args[i - 1..][2..] == args[i + 1..];
          config := config.(outputFile := Some(args[i]));
          i := i + 1;
        } else {
          return Failed(WriteParamMissing);
        }
      } else {
        assert args[i - 1..][1..] == args[i..];
        config := SetFlag(config, arg);
      }
    }
    return Configured(config);
  }

  /** `verify`: reading from the clipboard and from a file at once is
      refused, and so is a configuration that writes nowhere. */
  function Verify(config: Config): (r: Result<(), ErrKind>)
    ensures r.Err? <==> (config.fromClip && config.inputFile.Some?) || (!config.toClip && config.outputFile.None?)
    ensures r.Err? ==> r.error.InvalidParam?
  {
    if config.fromClip && config.inputFile.Some? then
      Err(InvalidParam("`-f, --file` conflicts with `-fc, --from-clip`"))
    else if !config.toClip && config.outputFile.None? then
      Err(InvalidParam("`-w, --write` or `-tc, --to-clip` is required"))
    else Ok(())
  }

  /** `main` up to the point where the markdown is read, over the arguments
      after the program name: no argument at all shows the usage text. */
  method RunCommandLine(args: seq<string>) returns (r: Result<Action, ErrKind>)
    ensures r == CommandLine(args)
  {
    if |args| == 0 {
      return Ok(ShowUsage);
    }
    var scanned := ParseOptions(args);
    match scanned
    case Stopped(action) =>
      return Ok(action);
    case Failed(e) =>
      return Err(e);
    case Configured(config) =>
      var checked := Verify(config);
      if checked.Err? {
        return Err(checked.error);
      }
      return Ok(Handle(config));
  }

  /** What `RunCommandLine` computes: the usage text for no argument, the
      end of the option loop, then `Verify`. */
  function CommandLine(args: seq<string>): (r: Result<Action, ErrKind>)
    ensures r.Ok? && r.value.Handle? ==> Verify(r.value.config).Ok?
    ensures r.Err? ==> r.error.InvalidParam?
  {
    if args == [] then Ok(ShowUsage)
    else
      match Scan(args, Default)
      case Stopped(action) => Ok(action)
      case Failed(e) => Err(e)
      case Configured(config) =>
        match Verify(config)
        case Err(e) => Err(e)
        case Ok(_) => Ok(Handle(config))
  }

  /** Where `read_markdown` takes the markdown from. */
  datatype Source = Clipboard | File(name: string)

  /** The choice in `read_markdown`: the clipboard when asked for, else the
      input file, else a parameter error. */
  function SelectSource(config: Config): (r: Result<Source, ErrKind>)
    ensures r.Ok? <==> config.fromClip || config.inputFile.Some?
    ensures config.fromClip ==> r == Ok(Clipboard)
    ensures !config.fromClip && config.inputFile.Some? ==> r == Ok(File(config.inputFile.value))
    ensures r.Err? ==> r.error.InvalidParam?
  {
    if config.fromClip then Ok(Clipboard)
    else if config.inputFile.Some? then Ok(File(config.inputFile.value))
    else Err(InvalidParam("`-f, --file` or `-fc, --from-clip` is required"))
  }

  /** Arguments read to the end carry their configuration on to the
      arguments after them. */
  lemma {:induction false} ScanAppend(a: seq<string>, b: seq<string>, config: Config)
    requires Scan(a, config).Configured?
    ensures Scan(a + b, config) == Scan(b, Scan(a, config).config)
    decreases |a|
  {
    if a != [] {
      var ab := a + b;
      assert ab[0] == a[0];
      var arg := a[0];
      if IsFileOption(arg) || IsWriteOption(arg) {
        assert ab[1] == a[1] && ab[2..] == a[2..] + b;
        ScanAppend(a[2..], b, if IsFileOption(arg) then config.(inputFile := Some(a[1])) else config.(outputFile := Some(a[1])));
      } else {
        assert ab[1..] == a[1..] + b;
        ScanAppend(a[1..], b, SetFlag(config, arg));
      }
    } else {
      assert a + b == b;
    }
  }

  /** Help and version stop the loop at once, whatever follows. */
  lemma StopsAtHelpOrVersion(arg: string, rest: seq<string>, config: Config)
    requires IsHelp(arg) || IsVersion(arg)
    ensures Scan([arg] + rest, config) == Stopped(if IsHelp(arg) then ShowUsage else ShowVersion)
  {
  }

  /** After options read to the end, `-h` or `-v` makes `main` succeed
      without checking the configuration, even one `Verify` refuses. */
  lemma HelpSkipsVerify(before: seq<string>, arg: string, after: seq<string>)
    requires Scan(before, Default).Configured?
    requires IsHelp(arg) || IsVersion(arg)
    ensures CommandLine(before + [arg] + after) == Ok(if IsHelp(arg) then ShowUsage else ShowVersion)
  {
    assert before + [arg] + after == before + ([arg] + after);
    ScanAppend(before, [arg] + after, Default);
  }

  /** The lone `-h` of a usage query succeeds, though the same empty
      configuration would fail `Verify`. */
  lemma HelpAlone()
    ensures CommandLine(["-h"]) == Ok(ShowUsage)
    ensures Verify(Default).Err?
  {
  }

  /** A file option takes the next argument as its file, whatever it looks
      like, so `-f -h` names a file called `-h`. */
  lemma FileOptionTakesNext(opt: string, name: string, rest: seq<string>, config: Config)
    requires IsFileOption(opt) || IsWriteOption(opt)
    ensures Scan([opt, name] + rest, config)
         == Scan(rest, if IsFileOption(opt) then config.(inputFile := Some(name)) else config.(outputFile := Some(name)))
  {
    assert ([opt, name] + rest)[2..] == rest;
  }

  /** A file option as the last argument has no file to take: the loop
      fails with a parameter error. */
  lemma FileOptionLast(before: seq<string>, opt: string)
    requires Scan(before, Default).Configured?
    requires IsFileOption(opt) || IsWriteOption(opt)
    ensures Scan(before + [opt], Default) == Failed(if IsFileOption(opt) then FileParamMissing else WriteParamMissing)
    ensures CommandLine(before + [opt]).Err?
  {
    ScanAppend(before, [opt], Default);
  }

  /** A repeated file option keeps the last file. */
  lemma LastFileWins(opt: string, first: string, second: string, rest: seq<string>, config: Config)
    requires IsFileOption(opt)
    ensures Scan([opt, first, opt, second] + rest, config) == Scan(rest, config.(inputFile := Some(second)))
  {
    assert ([opt, first, opt, second] + rest)[2..] == [opt, second] + rest;
    FileOptionTakesNext(opt, first, [opt, second] + rest, config);
    FileOptionTakesNext(opt, second, rest, config.(inputFile := Some(first)));
  }

  /** A flag that takes no parameter is applied and the loop goes on with
      the next argument. */
  lemma FlagThenRest(arg: string, rest: seq<string>, config: Config)
    requires !IsHelp(arg) && !IsVersion(arg) && !IsFileOption(arg) && !IsWriteOption(arg)
    ensures Scan([arg] + rest, config) == Scan(rest, SetFlag(config, arg))
  {
    assert ([arg] + rest)[1..] == rest;
  }

  /** Each flag sets its own field and nothing else; an argument the tool
      does not know changes nothing. */
  lemma SetFlagOnlyItsField(arg: string, config: Config)
    ensures var c := SetFlag(config, arg);
      c.inputFile == config.inputFile && c.outputFile == config.outputFile
      && (c.fromClip <==> config.fromClip || arg == "-fc" || arg == "--from-clip")
      && (c.toc <==> config.toc || arg == "-t" || arg == "--toc")
      && (c.titleOrder <==> config.titleOrder || arg == "-o" || arg == "--title-order")
      && (c.insert <==> config.insert || arg == "-i" || arg == "--insert")
      && (c.toClip <==> config.toClip || arg == "-tc" || arg == "--to-clip")
  {
    SetFlagFromClip(arg, config);
    SetFlagToc(arg, config);
    SetFlagTitleOrder(arg, config);
    SetFlagInsert(arg, config);
    SetFlagToClip(arg, config);
  }

  lemma SetFlagFromClip(arg: string, config: Config)
    ensures SetFlag(config, arg).fromClip <==> config.fromClip || arg == "-fc" || arg == "--from-clip"
  {
  }

  lemma SetFlagToc(arg: string, config: Config)
    ensures SetFlag(config, arg).toc <==> config.toc || arg == "-t" || arg == "--toc"
  {
  }

  lemma SetFlagTitleOrder(arg: string, config: Config)
    ensures SetFlag(config, arg).titleOrder <==> config.titleOrder || arg == "-o" || arg == "--title-order"
  {
  }

  lemma SetFlagInsert(arg: string, config: Config)
    ensures SetFlag(config, arg).insert <==> config.insert || arg == "-i" || arg == "--insert"
  {
  }

  lemma SetFlagToClip(arg: string, config: Config)
    ensures SetFlag(config, arg).toClip <==> config.toClip || arg == "-tc" || arg == "--to-clip"
  {
  }

  /** A configuration `Verify` accepts may still name no source: the tool
      then fails only when `read_markdown` runs, with a parameter error. */
  lemma VerifiedWithoutSource()
    ensures CommandLine(["-tc"]) == Ok(Handle(Default.(toClip := true)))
    ensures SelectSource(Default.(toClip := true)).Err?
  {
    assert ["-tc"][1..] == [];
  }

  /** A configuration that passes `Verify` and names a source reads from
      exactly one place, the one its options chose. */
  lemma VerifiedSource(config: Config)
    requires Verify(config).Ok?
    requires config.fromClip || config.inputFile.Some?
    ensures SelectSource(config) == (if config.fromClip then Ok(Clipboard) else Ok(File(config.inputFile.value)))
    ensures config.fromClip ==> config.inputFile.None?
  {
  }

  /** The exit code of the process as `main` is written: `main` returns
      `Result<(), ErrKind>`, and the standard library reports any `Err` of
      such a result with exit code 1, without calling `Report`. */
  function ExitCodeAsWritten(r: Result<(), ErrKind>): (code: nat)
    ensures code == 0 <==> r.Ok?
  {
    if r.Ok? then 0 else 1
  }

  /** An I/O error ends the process with code 1, not the 2 that `Report`
      gives it. */
  lemma IoErrorExitsWithOne(msg: string)
    ensures ExitCodeAsWritten(Err(IoErr(msg))) == 1
    ensures Report(IoErr(msg)) == 2
  {
  }

  /** The exit code as evidently intended: 0 on success, `Report` of the
      error otherwise. */
  function ExitCode(r: Result<(), ErrKind>): (code: nat)
    ensures code == 0 <==> r.Ok?
    ensures r.Err? ==> code == Report(r.error)
  {
    if r.Ok? then 0 else Report(r.error)
  }

  /** With the intended mapping each kind of error has its own exit
      code. */
  lemma ExitCodeTellsKinds(e1: ErrKind, e2: ErrKind)
    requires ExitCode(Err(e1)) == ExitCode(Err(e2))
    ensures e1.InvalidParam? == e2.InvalidParam? && e1.IoErr? == e2.IoErr?
  {
  }
}

/**
  `main` of voxforgesphinx/cli.py: build the training layout for the
  chosen directory, dispatch the command word to a fixed sequence of
  stages, and map the way the run ends to an exit code and the lines
  written to standard error.
 */
module Cli {
  import opened Wrappers
  import opened PyStr
  import opened TrainLayout
  import opened SeqConcat

  /**
    The `Train` methods `main` calls; each is an external step here.
    `RunStage(Clean)` stands for `clean`'s own removals (voxforgesphinxtrain/train.py:263-271).
   */
  datatype Stage =
    | Clean | Download | Unpack | ConvertFlac | LinkMfc
    | Transcript | BuildLm | Templates | Setup | Run

  /** One step of a run: a `mkdir_p` done by the `Train` constructor, or a stage. */
  datatype Action = MakeDir(path: string) | RunStage(stage: Stage)

  /**
    How the steps of the run end. `Completes`: no step raises.
    `Interrupted(k)`: a `KeyboardInterrupt` arrives once `k` steps are done.
    `Fails(k)`: step `k` raises an ordinary exception (a failed subprocess,
    an `OSError`), which `main` does not catch.
   */
  datatype Event = Completes | Interrupted(done: nat) | Fails(step: nat)

  /**
    What `main` leaves behind: the steps that completed, the lines written
    to standard error, and the value returned (`None` when an exception
    escapes `main`).
   */
  datatype MainResult = MainResult(actions: seq<Action>, stderr: seq<string>, exit: Option<int>)

  /** The command word that runs `s` on its own. */
  function CommandName(s: Stage): string
  {
    match s
    case Clean => "clean"
    case Download => "download"
    case Unpack => "unpack"
    case ConvertFlac => "convert_flac"
    case LinkMfc => "link_mfc"
    case Transcript => "transcript"
    case BuildLm => "build_lm"
    case Templates => "templates"
    case Setup => "setup"
    case Run => "run"
  }

  /** The methods the `all` branch calls, in order. */
  const AllStages: seq<Stage> := [Clean, ConvertFlac, LinkMfc, Transcript, BuildLm, Templates, Setup]

  /** The `if`/`elif` chain: the methods a command calls, or `None` for an unknown command. */
  function StagesFor(command: string): Option<seq<Stage>>
  {
    if command == "all" then Some(AllStages)
    else if command == "download" then Some([Download])
    else if command == "unpack" then Some([Unpack])
    else if command == "convert_flac" then Some([ConvertFlac])
    else if command == "link_mfc" then Some([LinkMfc])
    else if command == "transcript" then Some([Transcript])
    else if command == "build_lm" then Some([BuildLm])
    else if command == "templates" then Some([Templates])
    else if command == "setup" then Some([Setup])
    else if command == "run" then Some([Run])
    else if command == "clean" then Some([Clean])
    else None
  }

  /** The methods a command calls; none for an unknown one. */
  function Calls(command: string): seq<Stage>
  {
    match StagesFor(command)
    case Some(stages) => stages
    case None => []
  }

  /**
    What `clean` runs as written. A tab counts as eight columns in Python 2,
    so `def configure` and `def do_all` (train.py:273-283) are local
    functions of `clean`, while the calls at column eight stay in its
    body: after the removals come `convert_flac` through `setup`, and then
    `self.configure()` (train.py:284) raises `AttributeError`.
   */
  const CleanBody: seq<Stage> := [Clean, ConvertFlac, LinkMfc, Transcript, BuildLm, Templates, Setup]

  /**
    Calling the methods `calls` one after the other, as written: the stages
    that run, and whether an `AttributeError` ends the sequence. The first
    `clean` runs its whole body and raises; nothing after it is called.
   */
  function Performed(calls: seq<Stage>): (seq<Stage>, bool)
  {
    if calls == [] then ([], false)
    else if calls[0] == Clean then (CleanBody, true)
    else
      var rest := Performed(calls[1..]);
      ([calls[0]] + rest.0, rest.1)
  }

  /** The commands whose `clean` call raises. */
  predicate Crashes(command: string)
  {
    command == "all" || command == "clean"
  }

  /** `n` spaces. */
  function Spaces(n: nat): string
  {
    if n == 0 then "" else Spaces(n - 1) + " "
  }

  /** The two lines `main` writes for a `CLIError` raised with message `msg`. */
  function ErrorLines(programName: string, msg: string): seq<string>
  {
    [programName + ": " + "Error: " + msg + "\n", Spaces(|programName|) + "  for help use --help\n"]
  }

  /**
    The three directories `Train(dir)` ensures (`BaseDirs(dir)`, which
    `EnsuredDirsOfBase` ties to the full layout), then the stages.
   */
  function Steps(dir: string, stages: seq<Stage>): seq<Action>
  {
    var dirs := BaseDirs(dir);
    [MakeDir(dirs[0]), MakeDir(dirs[1]), MakeDir(dirs[2])] + seq(|stages|, i requires 0 <= i < |stages| => RunStage(stages[i]))
  }

  /** Three directory steps, then one step per stage, in order. */
  lemma StepsShape(dir: string, stages: seq<Stage>)
    ensures |Steps(dir, stages)| == 3 + |stages|
    ensures forall i :: 0 <= i < |stages| ==> Steps(dir, stages)[3 + i] == RunStage(stages[i])
  {
  }

  /** The steps `main` attempts, as written. */
  function Planned(command: string, dir: string): seq<Action>
  {
    Steps(dir, Performed(Calls(command)).0)
  }

  /**
    How `main` ends once it attempts `plan`. A `KeyboardInterrupt` during
    the steps returns 0; any other exception, an `AttributeError` from a
    `crashing` sequence included, leaves `main` without a return value.
    When every step is done an unknown command raises `CLIError`, which
    prints two lines and returns 2; a known command returns 0.
   */
  function Ends(argv0: string, command: string, plan: seq<Action>, crashing: bool, event: Event): MainResult
  {
    if event.Interrupted? && event.done < |plan| then MainResult(plan[..event.done], [], Some(0))
    else if event.Fails? && event.step < |plan| then MainResult(plan[..event.step], [], None)
    else if StagesFor(command).None? then MainResult(plan, ErrorLines(LastSegment(argv0), "Command [" + command + "] unknown."), Some(2))
    else if crashing then MainResult(plan, [], None)
    else MainResult(plan, [], Some(0))
  }

  /** `main` run as `argv0 command --dir dir`, as written. */
  function Main(argv0: string, command: string, dir: string, event: Event): MainResult
  {
    Ends(argv0, command, Planned(command, dir), Performed(Calls(command)).1, event)
  }

  /**
    `main` as evidently intended: `clean` only removes the training outputs
    and returns, so every command runs exactly the methods it calls.
   */
  function IntendedMain(argv0: string, command: string, dir: string, event: Event): MainResult
  {
    Ends(argv0, command, Steps(dir, Calls(command)), false, event)
  }

  // ---------------------------------------------------------------------------
  // The dispatch table
  // ---------------------------------------------------------------------------

  /**
    `all` calls clean, convert_flac, link_mfc, transcript, build_lm, templates
    and setup, and neither unpack, download nor run; as written its first
    call, `clean`, already runs all seven stages and raises, so the calls
    after it are never reached.
   */
  lemma AllCommand()
    ensures StagesFor("all") == Some(AllStages)
    ensures |AllStages| == 7
    ensures Unpack !in AllStages && Download !in AllStages && Run !in AllStages
    ensures AllStages[0] == Clean && Performed(AllStages) == (CleanBody, true)
  {
  }

  /**
    Each stage's own command word calls exactly that method; as written,
    every method but `clean` runs just its own stage, and `clean` runs its
    whole body and raises.
   */
  lemma SingleStageCommands(s: Stage)
    ensures StagesFor(CommandName(s)) == Some([s])
    ensures Performed([s]) == if s == Clean then (CleanBody, true) else ([s], false)
  {
    assert [s][1..] == [] && [s] + [] == [s];
    assert Performed([s][1..]) == ([], false);
  }

  /** Different stages have different command words, none of them `all`. */
  lemma CommandNamesDistinct(s: Stage, t: Stage)
    ensures CommandName(s) != "all"
    ensures s != t ==> CommandName(s) != CommandName(t)
  {
  }

  /** A command is known exactly when it is `all` or some stage's command word. */
  lemma KnownCommands(command: string)
    ensures StagesFor(command).Some? <==> (command == "all" || exists s :: CommandName(s) == command)
  {
    if command == "download" { assert CommandName(Download) == command; }
    if command == "unpack" { assert CommandName(Unpack) == command; }
    if command == "convert_flac" { assert CommandName(ConvertFlac) == command; }
    if command == "link_mfc" { assert CommandName(LinkMfc) == command; }
    if command == "transcript" { assert CommandName(Transcript) == command; }
    if command == "build_lm" { assert CommandName(BuildLm) == command; }
    if command == "templates" { assert CommandName(Templates) == command; }
    if command == "setup" { assert CommandName(Setup) == command; }
    if command == "run" { assert CommandName(Run) == command; }
    if command == "clean" { assert CommandName(Clean) == command; }
  }

  /** The names of `Train`'s composite helpers and abbreviations are not commands. */
  lemma UnknownExamples()
    ensures StagesFor("configure") == None && StagesFor("do_all") == None
    ensures StagesFor("convert") == None && StagesFor("link") == None
    ensures StagesFor("") == None
  {
  }

  /** The index of the first `clean` among `calls`, or `|calls|` when there is none. */
  function FirstClean(calls: seq<Stage>): (k: nat)
    ensures k <= |calls|
  {
    if calls == [] || calls[0] == Clean then 0 else 1 + FirstClean(calls[1..])
  }

  lemma {:induction false} FirstCleanSpec(calls: seq<Stage>)
    ensures var k := FirstClean(calls); Clean !in calls[..k] && (k < |calls| ==> calls[k] == Clean)
  {
    if calls != [] && calls[0] != Clean {
      FirstCleanSpec(calls[1..]);
      assert calls[..FirstClean(calls)] == [calls[0]] + calls[1..][..FirstClean(calls[1..])];
    }
  }

  /**
    Calling methods in turn runs them one by one up to the first `clean`,
    which runs its body and raises; without a `clean` nothing raises.
   */
  lemma {:induction false} PerformedStopsAtClean(calls: seq<Stage>)
    ensures var k := FirstClean(calls);
      Performed(calls) == if k == |calls| then (calls, false) else (calls[..k] + CleanBody, true)
  {
    if calls != [] && calls[0] != Clean {
      var t := calls[1..];
      PerformedStopsAtClean(t);
      var k := FirstClean(t);
      if k == |t| {
        assert calls == [calls[0]] + t;
      } else {
        assert calls[..k + 1] == [calls[0]] + t[..k];
        assert FirstClean(calls) == k + 1;
        assert Performed(calls) == ([calls[0]] + (t[..k] + CleanBody), true);
        assert [calls[0]] + (t[..k] + CleanBody) == ([calls[0]] + t[..k]) + CleanBody;
      }
    } else if calls != [] {
      assert FirstClean(calls) == 0 && calls[..0] + CleanBody == CleanBody;
    }
  }

  /** As written, `all` and `clean` run the seven stages and raise; every other command runs exactly what it calls. */
  lemma PerformedOf(command: string)
    ensures Performed(Calls(command)) == if Crashes(command) then (CleanBody, true) else (Calls(command), false)
  {
    if !Crashes(command) {
      assert Clean !in Calls(command);
      FirstCleanSpec(Calls(command));
      PerformedStopsAtClean(Calls(command));
    }
  }

  // ---------------------------------------------------------------------------
  // Runs of `main`
  // ---------------------------------------------------------------------------

  /** The planned steps start with the base, wav and etc directories, whatever the command, known or not. */
  lemma DirectoriesFirst(command: string, dir: string)
    ensures var plan := Planned(command, dir);
      var l := Derive(dir, DefaultName, DefaultDictionary);
      && |plan| >= 3
      && plan[..3] == [MakeDir(l.basedir), MakeDir(l.wavdir), MakeDir(l.etcdir)]
      && (StagesFor(command).None? ==> |plan| == 3)
  {
    EnsuredDirsOfBase(dir, DefaultName, DefaultDictionary);
  }

  /** Three directory steps, then one step per stage run. */
  lemma PlanLength(command: string, dir: string)
    ensures |Planned(command, dir)| == 3 + |Performed(Calls(command)).0|
  {
  }

  /**
    After the directories come the stages run, in order: the command's own
    for every command but `all` and `clean`, and `clean`'s body for those two.
   */
  lemma StagesAfterDirectories(command: string, dir: string)
    requires StagesFor(command).Some?
    ensures var plan := Planned(command, dir);
      var run := if Crashes(command) then CleanBody else StagesFor(command).value;
      && |plan| == 3 + |run|
      && forall i :: 0 <= i < |run| ==> plan[3 + i] == RunStage(run[i])
  {
    PerformedOf(command);
  }

  /** Whatever happens, the completed steps are a prefix of the planned ones, and nothing is written to standard error unless `main` returns 2. */
  lemma StepsArePlanned(argv0: string, command: string, dir: string, event: Event)
    ensures var o := Main(argv0, command, dir, event); var plan := Planned(command, dir);
      && |o.actions| <= |plan| && o.actions == plan[..|o.actions|]
      && (o.stderr != [] <==> o.exit == Some(2))
  {
  }

  /**
    The return value: 2 exactly when an unknown command got past the
    directories; none when a step fails or, unless interrupted first, for
    `all` and `clean`; 0 for an interrupt and for any other known command
    that completes. `all` and `clean` return 0 only when interrupted.
   */
  lemma ExitCodes(argv0: string, command: string, dir: string, event: Event)
    ensures var o := Main(argv0, command, dir, event); var plan := Planned(command, dir);
      var interrupted := event.Interrupted? && event.done < |plan|;
      && (o.exit == Some(2) <==> StagesFor(command).None? && !(event.Interrupted? && event.done < 3) && !(event.Fails? && event.step < 3))
      && (o.exit == None <==> (event.Fails? && event.step < |plan|) || (Crashes(command) && !interrupted))
      && (interrupted ==> o.exit == Some(0))
      && (event.Completes? ==> o.actions == plan && (o.exit == Some(0) <==> StagesFor(command).Some? && !Crashes(command)))
      && (Crashes(command) ==> (o.exit == Some(0) <==> interrupted))
  {
    PlanLength(command, dir);
    PerformedOf(command);
  }

  /**
    `clean`, run to the end, removes the outputs, runs convert_flac through
    setup, and leaves `main` on the `AttributeError`; `all` does exactly the same.
   */
  lemma CleanRunsTrainingStages(argv0: string, dir: string, event: Event)
    ensures var o := Main(argv0, "clean", dir, Completes);
      && o.exit == None && o.stderr == [] && |o.actions| == 10
      && o.actions[3..] == [RunStage(Clean), RunStage(ConvertFlac), RunStage(LinkMfc), RunStage(Transcript),
                            RunStage(BuildLm), RunStage(Templates), RunStage(Setup)]
    ensures Main(argv0, "all", dir, event) == Main(argv0, "clean", dir, event)
  {
    PerformedOf("clean");
    PerformedOf("all");
  }

  /**
    As intended, every known command runs its directories and then exactly
    the methods it calls and returns 0, `clean` removing the outputs only
    and `all` running its seven stages; an unknown command still returns 2.
   */
  lemma IntendedRuns(argv0: string, command: string, dir: string)
    ensures var o := IntendedMain(argv0, command, dir, Completes); var stages := Calls(command);
      && |o.actions| == 3 + |stages|
      && (forall i :: 0 <= i < |stages| ==> o.actions[3 + i] == RunStage(stages[i]))
      && o.exit == Some(if StagesFor(command).Some? then 0 else 2)
    ensures IntendedMain(argv0, "clean", dir, Completes).actions[3..] == [RunStage(Clean)]
  {
    var stages := Calls(command);
    StepsShape(dir, stages);
    StepsShape(dir, [Clean]);
    assert IntendedMain(argv0, command, dir, Completes).actions == Steps(dir, stages);
    assert Calls("clean") == [Clean];
  }

  /** An unknown command prints `prog: Error: Command [x] unknown.` and an indented hint, `prog` being the last part of `argv[0]`. */
  lemma UnknownCommandMessage(argv0: string, command: string, dir: string)
    requires StagesFor(command).None?
    ensures var o := Main(argv0, command, dir, Completes); var prog := LastSegment(argv0);
      && o.exit == Some(2)
      && o.stderr == [prog + ": Error: Command [" + command + "] unknown.\n", Spaces(|prog|) + "  for help use --help\n"]
      && '/' !in prog
  {
    LastSegmentSpec(argv0);
    var prog := LastSegment(argv0);
    var msg := "Command [" + command + "] unknown.";
    assert ": " + "Error: " == ": Error: ";
    assert ": Error: " + "Command [" == ": Error: Command [";
    assert "] unknown." + "\n" == "] unknown.\n";
    AroundFifth(prog, ": ", "Error: ", "Command [", command, "] unknown.", "\n");
  }

  /** The hint line is indented by as many spaces as the program name is long. */
  lemma {:induction false} SpacesSpec(n: nat)
    ensures |Spaces(n)| == n && forall i :: 0 <= i < n ==> Spaces(n)[i] == ' '
  {
    if n > 0 {
      SpacesSpec(n - 1);
    }
  }

  /**
    An interrupt returns 0 when it comes during the steps, and otherwise
    only for a known command other than `all` and `clean`; an interrupt
    before the first step leaves nothing done.
   */
  lemma InterruptedRun(argv0: string, command: string, dir: string, k: nat)
    ensures var o := Main(argv0, command, dir, Interrupted(k));
      o.exit == Some(0) <==> (k < |Planned(command, dir)| || (StagesFor(command).Some? && !Crashes(command)))
    ensures k == 0 ==> Main(argv0, command, dir, Interrupted(k)).actions == []
  {
    PlanLength(command, dir);
    PerformedOf(command);
  }
}

/**
 * The command-line option scan at the start of `main` (src/main.c).
 *
 * The scan walks `argv` from index 1.  An argument counts as an option only
 * when it is a two-character string `-x`; every other argument is passed
 * over (the parameter overrides `block/par=value` are read later, elsewhere).
 * The options `-i`, `-r`, `-d` (and `-t` in the MPI build) take the next
 * argument as their value and step over it.  C guarantees `argv[argc] ==
 * NULL`, so a value-taking option in last place stores NULL.
 *
 * The scan is specified in two layers: `Positions` says which indices the
 * loop treats as options, `Apply` says what the options met there do to the
 * settings.  The method `ScanArgs` is the loop itself, proved equal to
 * `Parse`, and the lemmas state the resulting rules for each setting.
 */
module MainArgs {
  import opened Wrappers

  /** The two builds the scan differs in: `-t` exists only with MPI, and
      only the serial build treats an unknown option as a request for help. */
  datatype Build = Serial | Mpi

  /** A `char *` taken from the command line: NULL or an argument's text. */
  datatype CStr = Null | Arg(text: string)

  /** The input-file pointer: still the built-in `definput` ("athinput"),
      or set from the command line.  The source compares pointers, so
      `-i athinput` is `Given`, not `DefaultInput`. */
  datatype Input = DefaultInput | Given(arg: CStr)

  /** The variables the scan sets. */
  datatype Config = Config(
    athinput: Input,
    ires: bool,        // restart requested
    resFile: CStr,     // restart file
    rundir: CStr,      // run directory
    done: bool,        // parse the input and stop
    useWtlim: bool,    // a wall-time limit was given (MPI build)
    wtlim: CStr)       // its `hh:mm:ss` text

  const Initial := Config(DefaultInput, false, Null, Null, false, false, Null)

  /** How the scan ends: with settings to run on, or by exiting after
      printing the usage text (`-h`) or the configuration (`-c`). */
  datatype Outcome = Proceed(cfg: Config) | Usage | ShowConfig

  /** An option met by the scan: its letter and the argument after it. */
  datatype Opt = Opt(letter: char, value: CStr)

  /** `argv[i][0] == '-' && argv[i][1] != '\0' && argv[i][2] == '\0'`. */
  predicate IsOption(a: string)
  {
    |a| == 2 && a[0] == '-' && a[1] != '\0'
  }

  /** Options that step over the following argument. */
  predicate Takes(build: Build, letter: char)
  {
    letter == 'i' || letter == 'r' || letter == 'd' || (build == Mpi && letter == 't')
  }

  /** Options the switch has a case for. */
  predicate Known(build: Build, letter: char)
  {
    Takes(build, letter) || letter == 'n' || letter == 'h' || letter == 'c'
  }

  /** Options after which the program exits instead of running. */
  predicate Stops(build: Build, letter: char)
  {
    letter == 'h' || letter == 'c' || (build == Serial && !Known(build, letter))
  }

  /** `argv[j]`, where `argv[argc]` is NULL. */
  function At(argv: seq<string>, j: nat): CStr
  {
    if j < |argv| then Arg(argv[j]) else Null
  }

  /** `argv[j]` is an option. */
  predicate OptionAt(argv: seq<string>, j: int)
  {
    0 <= j < |argv| && IsOption(argv[j])
  }

  /** `argv[p]` is an option that takes the next argument as its value. */
  predicate TakesAt(build: Build, argv: seq<string>, p: int)
  {
    0 <= p < |argv| && IsOption(argv[p]) && Takes(build, argv[p][1])
  }

  /** `ps` lists, in increasing order, exactly the indices from `i` on that
      hold a two-character `-x` argument and are not the value of a preceding
      value-taking option. */
  ghost predicate OptionIndices(build: Build, argv: seq<string>, i: nat, ps: seq<nat>)
  {
    && (forall k :: 0 <= k < |ps| ==> i <= ps[k] < |argv| && IsOption(argv[ps[k]]))
    && (forall k, l :: 0 <= k < l < |ps| ==> ps[k] < ps[l])
    && (forall k, l :: 0 <= k < l < |ps| && TakesAt(build, argv, ps[k]) ==> ps[k] + 1 < ps[l])
    && (forall j {:trigger OptionAt(argv, j)} :: i <= j && OptionAt(argv, j) && j !in ps ==>
          j - 1 in ps && TakesAt(build, argv, j - 1))
  }

  /** The indices from `i` on that the loop treats as options, in order. */
  function Positions(build: Build, argv: seq<string>, i: nat): (ps: seq<nat>)
    decreases |argv| - i
    ensures OptionIndices(build, argv, i, ps)
  {
    if i >= |argv| then []
    else if !IsOption(argv[i]) then
      SkipIndex(build, argv, i, Positions(build, argv, i + 1));
      Positions(build, argv, i + 1)
    else
      var next := if TakesAt(build, argv, i) then i + 2 else i + 1;
      TakeIndex(build, argv, i, next, Positions(build, argv, next));
      [i] + Positions(build, argv, next)
  }

  lemma SkipIndex(build: Build, argv: seq<string>, i: nat, ps: seq<nat>)
    requires i < |argv| && !IsOption(argv[i])
    requires OptionIndices(build, argv, i + 1, ps)
    ensures OptionIndices(build, argv, i, ps)
  {
  }

  lemma TakeIndex(build: Build, argv: seq<string>, i: nat, next: nat, ps: seq<nat>)
    requires i < |argv| && IsOption(argv[i])
    requires next == if TakesAt(build, argv, i) then i + 2 else i + 1
    requires OptionIndices(build, argv, next, ps)
    ensures OptionIndices(build, argv, i, [i] + ps)
  {
    var qs := [i] + ps;
    assert forall k :: 0 < k < |qs| ==> qs[k] == ps[k - 1];
    forall j {:trigger OptionAt(argv, j)} | i <= j && OptionAt(argv, j) && j !in qs
      ensures j - 1 in qs && TakesAt(build, argv, j - 1)
    {
      if j >= next {
        assert j - 1 in ps;
      }
    }
  }

  /** The options at positions `ps`, each with the argument after it. */
  function Options(argv: seq<string>, ps: seq<nat>): (opts: seq<Opt>)
    requires forall k :: 0 <= k < |ps| ==> ps[k] < |argv| && IsOption(argv[ps[k]])
    ensures |opts| == |ps|
  {
    if ps == [] then []
    else [OptAt(argv, ps[0])] + Options(argv, ps[1..])
  }

  /** The option at index `p`, with the argument after it. */
  function OptAt(argv: seq<string>, p: nat): Opt
    requires p < |argv| && IsOption(argv[p])
  {
    Opt(argv[p][1], At(argv, p + 1))
  }

  /** What the switch does with each option in turn, starting from `c`:
      `-h`, `-c` and (serial build) an unknown letter end the program,
      every other option updates the settings. */
  function Apply(build: Build, opts: seq<Opt>, c: Config): Outcome
  {
    if opts == [] then Proceed(c)
    else if Stops(build, opts[0].letter) then
      if opts[0].letter == 'c' then ShowConfig else Usage
    else Apply(build, opts[1..], StepConfig(build, opts[0], c))
  }

  /** The outcome of the whole scan of `argv`. */
  function Parse(build: Build, argv: seq<string>): Outcome
  {
    Apply(build, Options(argv, Positions(build, argv, 1)), Initial)
  }

  /** The option loop of `main`. */
  method ScanArgs(build: Build, argv: seq<string>) returns (r: Outcome)
    ensures r == Parse(build, argv)
  {
    var athinput, ires, resFile, rundir, done, useWtlim, wtlim :=
      DefaultInput, false, Null, Null, false, false, Null;
    var i := 1;
    while i < |argv|
      invariant 1 <= i <= |argv| + 1
      invariant ScanFrom(build, argv, i, Config(athinput, ires, resFile, rundir, done, useWtlim, wtlim))
                == ScanFrom(build, argv, 1, Initial)
      decreases |argv| - i
    {
      ghost var c := Config(athinput, ires, resFile, rundir, done, useWtlim, wtlim);
      ghost var i0 := i;
      var a := argv[i];
      if |a| == 2 && a[0] == '-' && a[1] != '\0' {
        match a[1] {
          case 'i' =>
            i := i + 1;
            athinput := Given(At(argv, i));
          case 'r' =>
            ires := true;
            i := i + 1;
            resFile := At(argv, i);
            if athinput == DefaultInput {
              athinput := Given(resFile);
            }
          case 'd' =>
            i := i + 1;
            rundir := At(argv, i);
          case 'n' =>
            done := true;
          case 'h' =>
            ScanFromApplies(build, argv, 1, Initial);
            return Usage;
          case 'c' =>
            ScanFromApplies(build, argv, 1, Initial);
            return ShowConfig;
          case 't' =>
            if build == Mpi {
              useWtlim := true;
              i := i + 1;
              wtlim := At(argv, i);
            } else {
              ScanFromApplies(build, argv, 1, Initial);
            return Usage;
            }
          case _ =>
            if build == Serial {
              ScanFromApplies(build, argv, 1, Initial);
            return Usage;
            }
        }
        assert Config(athinput, ires, resFile, rundir, done, useWtlim, wtlim)
            == StepConfig(build, OptAt(argv, i0), c);
      }
      i := i + 1;
    }
    ScanFromApplies(build, argv, 1, Initial);
    return Proceed(Config(athinput, ires, resFile, rundir, done, useWtlim, wtlim));
  }

  /** The option loop as a recursion on the index: the outcome of scanning
      from `argv[i]` on with settings `c`. */
  function ScanFrom(build: Build, argv: seq<string>, i: nat, c: Config): Outcome
    decreases |argv| - i
  {
    if i >= |argv| then Proceed(c)
    else if !IsOption(argv[i]) then ScanFrom(build, argv, i + 1, c)
    else if Stops(build, argv[i][1]) then (if argv[i][1] == 'c' then ShowConfig else Usage)
    else ScanFrom(build, argv, if TakesAt(build, argv, i) then i + 2 else i + 1,
                  StepConfig(build, OptAt(argv, i), c))
  }

  /** The loop meets the options `Positions` lists and does with them what
      `Apply` says. */
  lemma {:induction false} ScanFromApplies(build: Build, argv: seq<string>, i: nat, c: Config)
    ensures ScanFrom(build, argv, i, c) == Apply(build, Options(argv, Positions(build, argv, i)), c)
    decreases |argv| - i
  {
    if i < |argv| {
      if !IsOption(argv[i]) {
        ScanFromApplies(build, argv, i + 1, c);
      } else if !Stops(build, argv[i][1]) {
        var next := if TakesAt(build, argv, i) then i + 2 else i + 1;
        ScanFromApplies(build, argv, next, StepConfig(build, OptAt(argv, i), c));
        ApplyAtOption(build, argv, i, next, c);
      }
    }
  }

  lemma ApplyAtOption(build: Build, argv: seq<string>, i: nat, next: nat, c: Config)
    requires i < |argv| && IsOption(argv[i]) && !Stops(build, argv[i][1])
    requires next == if TakesAt(build, argv, i) then i + 2 else i + 1
    ensures Apply(build, Options(argv, Positions(build, argv, i)), c)
         == Apply(build, Options(argv, Positions(build, argv, next)), StepConfig(build, OptAt(argv, i), c))
  {
    assert Positions(build, argv, i) == [i] + Positions(build, argv, next);
    assert Options(argv, [i] + Positions(build, argv, next))[1..]
        == Options(argv, Positions(build, argv, next));
  }

  /** The value of the last option with letter `ch`, if there is one. */
  function LastValue(opts: seq<Opt>, ch: char): (v: Option<CStr>)
    ensures v.None? <==> forall k :: 0 <= k < |opts| ==> opts[k].letter != ch
    ensures v.Some? ==> exists k :: 0 <= k < |opts| && opts[k].letter == ch && opts[k].value == v.value
                           && forall l :: k < l < |opts| ==> opts[l].letter != ch
  {
    if opts == [] then None
    else
      var v := LastValue(opts[1..], ch);
      if v.Some? then
        ghost var k :| 0 <= k < |opts[1..]| && opts[1..][k].letter == ch && opts[1..][k].value == v.value
                       && forall l :: k < l < |opts[1..]| ==> opts[1..][l].letter != ch;
        assert opts[k + 1] == opts[1..][k];
        assert forall l :: k + 1 < l < |opts| ==> opts[l] == opts[1..][l - 1];
        v
      else if opts[0].letter == ch then
        assert forall l :: 0 < l < |opts| ==> opts[l] == opts[1..][l - 1];
        Some(opts[0].value)
      else
        assert forall l :: 0 < l < |opts| ==> opts[l] == opts[1..][l - 1];
        None
  }

  /** The value of the first option with letter `ch`, if there is one. */
  function FirstValue(opts: seq<Opt>, ch: char): (v: Option<CStr>)
    ensures v.None? <==> forall k :: 0 <= k < |opts| ==> opts[k].letter != ch
    ensures v.Some? ==> exists k :: 0 <= k < |opts| && opts[k].letter == ch && opts[k].value == v.value
                           && forall l :: 0 <= l < k ==> opts[l].letter != ch
  {
    if opts == [] then None
    else if opts[0].letter == ch then Some(opts[0].value)
    else
      var v := FirstValue(opts[1..], ch);
      assert forall l :: 0 < l < |opts| ==> opts[l] == opts[1..][l - 1];
      if v.Some? then
        ghost var k :| 0 <= k < |opts[1..]| && opts[1..][k].letter == ch && opts[1..][k].value == v.value
                       && forall l :: 0 <= l < k ==> opts[1..][l].letter != ch;
        assert opts[k + 1] == opts[1..][k];
        v
      else
        v
  }

  /** The letter of the first option that ends the program, if any. */
  function FirstStop(build: Build, opts: seq<Opt>): (r: Option<char>)
    ensures r.None? <==> forall k :: 0 <= k < |opts| ==> !Stops(build, opts[k].letter)
    ensures r.Some? ==> exists k :: 0 <= k < |opts| && opts[k].letter == r.value && Stops(build, r.value)
                           && forall l :: 0 <= l < k ==> !Stops(build, opts[l].letter)
  {
    if opts == [] then None
    else if Stops(build, opts[0].letter) then Some(opts[0].letter)
    else
      var r := FirstStop(build, opts[1..]);
      assert forall l :: 0 < l < |opts| ==> opts[l] == opts[1..][l - 1];
      if r.Some? then
        ghost var k :| 0 <= k < |opts[1..]| && opts[1..][k].letter == r.value && Stops(build, r.value)
                       && forall l :: 0 <= l < k ==> !Stops(build, opts[1..][l].letter);
        assert opts[k + 1] == opts[1..][k];
        r
      else
        r
  }

  /** The scan runs to the end exactly when no option met ends the program;
      otherwise the first such option decides: `-c` shows the configuration,
      `-h` (or, in the serial build, an unknown letter) prints the usage. */
  lemma {:induction false} ApplyOutcome(build: Build, opts: seq<Opt>, c: Config)
    ensures Apply(build, opts, c).Proceed? <==> FirstStop(build, opts).None?
    ensures Apply(build, opts, c) == ShowConfig <==> FirstStop(build, opts) == Some('c')
    ensures Apply(build, opts, c) == Usage <==> FirstStop(build, opts).Some? && FirstStop(build, opts) != Some('c')
    decreases |opts|
  {
    if opts != [] && !Stops(build, opts[0].letter) {
      ApplyOutcome(build, opts[1..], StepConfig(build, opts[0], c));
    }
  }

  /** The settings after one option that does not stop the scan. */
  function StepConfig(build: Build, o: Opt, c: Config): Config
  {
    match o.letter
    case 'i' => c.(athinput := Given(o.value))
    case 'r' =>
      c.(ires := true, resFile := o.value,
         athinput := if c.athinput == DefaultInput then Given(o.value) else c.athinput)
    case 'd' => c.(rundir := o.value)
    case 'n' => c.(done := true)
    case 't' => if build == Mpi then c.(useWtlim := true, wtlim := o.value) else c
    case _ => c
  }

  /** The input file: the value of the last `-i` if there is one; otherwise
      the value of the first `-r`, provided nothing set it before the scan;
      otherwise unchanged.  A later `-r` never replaces an input file that
      an `-i` or an earlier `-r` has set. */
  lemma {:induction false} InputFileRule(build: Build, opts: seq<Opt>, c: Config)
    requires Apply(build, opts, c).Proceed?
    ensures Apply(build, opts, c).cfg.athinput ==
              match LastValue(opts, 'i')
              case Some(f) => Given(f)
              case None =>
                if c.athinput == DefaultInput && FirstValue(opts, 'r').Some?
                then Given(FirstValue(opts, 'r').value)
                else c.athinput
    decreases |opts|
  {
    if opts != [] {
      assert Apply(build, opts, c) == Apply(build, opts[1..], StepConfig(build, opts[0], c));
      InputFileRule(build, opts[1..], StepConfig(build, opts[0], c));
    }
  }

  /** `-r` raises the restart flag, and the restart file is the value of
      the last `-r`. */
  lemma {:induction false} RestartRule(build: Build, opts: seq<Opt>, c: Config)
    requires Apply(build, opts, c).Proceed?
    ensures Apply(build, opts, c).cfg.ires == (c.ires || LastValue(opts, 'r').Some?)
    ensures Apply(build, opts, c).cfg.resFile ==
              if LastValue(opts, 'r').Some? then LastValue(opts, 'r').value else c.resFile
    decreases |opts|
  {
    if opts != [] {
      assert Apply(build, opts, c) == Apply(build, opts[1..], StepConfig(build, opts[0], c));
      RestartRule(build, opts[1..], StepConfig(build, opts[0], c));
    }
  }

  /** The run directory is the value of the last `-d`. */
  lemma {:induction false} RundirRule(build: Build, opts: seq<Opt>, c: Config)
    requires Apply(build, opts, c).Proceed?
    ensures Apply(build, opts, c).cfg.rundir ==
              if LastValue(opts, 'd').Some? then LastValue(opts, 'd').value else c.rundir
    decreases |opts|
  {
    if opts != [] {
      assert Apply(build, opts, c) == Apply(build, opts[1..], StepConfig(build, opts[0], c));
      RundirRule(build, opts[1..], StepConfig(build, opts[0], c));
    }
  }

  /** Any `-n` raises `done`. */
  lemma {:induction false} DoneRule(build: Build, opts: seq<Opt>, c: Config)
    requires Apply(build, opts, c).Proceed?
    ensures Apply(build, opts, c).cfg.done == (c.done || LastValue(opts, 'n').Some?)
    decreases |opts|
  {
    if opts != [] {
      assert Apply(build, opts, c) == Apply(build, opts[1..], StepConfig(build, opts[0], c));
      DoneRule(build, opts[1..], StepConfig(build, opts[0], c));
    }
  }

  /** In the MPI build, `-t` turns the wall-time limit on, and its text is
      the value of the last `-t`; the serial build never reaches here with a
      `-t`, since it prints the usage instead. */
  lemma {:induction false} WallLimitRule(build: Build, opts: seq<Opt>, c: Config)
    requires Apply(build, opts, c).Proceed?
    ensures Apply(build, opts, c).cfg.useWtlim == (c.useWtlim || LastValue(opts, 't').Some?)
    ensures Apply(build, opts, c).cfg.wtlim ==
              if LastValue(opts, 't').Some? then LastValue(opts, 't').value else c.wtlim
    decreases |opts|
  {
    if opts != [] {
      assert Apply(build, opts, c) == Apply(build, opts[1..], StepConfig(build, opts[0], c));
      WallLimitRule(build, opts[1..], StepConfig(build, opts[0], c));
    }
  }
}

/**
 * `load_arguments`: the scan of the argument vector into the configuration
 * (options, root paths, marker and the two separators).  The vector is the
 * whole of `sys.argv`, program name included, as `load_arguments` loops over it.
 */
module Arguments {
  import opened Text

  datatype Config = Config(
    options: seq<string>,
    paths: seq<string>,
    marker: string,
    fsep: string,
    esep: string)

  /** The dictionary the scan starts from. */
  function Defaults(): Config {
    Config([], [], "***", " - ", " - ")
  }

  predicate NoAct(cfg: Config) { "noact" in cfg.options }
  predicate KeepEp(cfg: Config) { "keepep" in cfg.options }

  /** The branch of the if/elif chain an argument takes; each test is a substring test. */
  datatype Kind = OptionsArg | PathsArg | MarkerArg | FSepArg | ESepArg | OtherArg

  function KindOf(arg: string): Kind {
    if Contains(arg, "-options:") then OptionsArg
    else if Contains(arg, "-paths:") then PathsArg
    else if Contains(arg, "-marker:") then MarkerArg
    else if Contains(arg, "-fseparator:") then FSepArg
    else if Contains(arg, "-eseparator:") then ESepArg
    else OtherArg
  }

  /** The option names an `-options:` argument contributes: `arg[9:].split(",")`. */
  function OptionItems(arg: string): seq<string> {
    Split(Drop(arg, 9), ",")
  }

  /** A `-paths:` argument counts only if the first comma-separated piece of its value is non-empty. */
  predicate PathsAccepted(arg: string) {
    |Split(Drop(arg, 7), ",")[0]| > 0
  }

  /** The paths a `-paths:` argument contributes: `arg[7:].split(",,")`. */
  function PathItems(arg: string): seq<string> {
    Split(Drop(arg, 7), ",,")
  }

  /** Kinds that set a single string, and where their value starts. */
  predicate IsSetting(kind: Kind) {
    kind == MarkerArg || kind == FSepArg || kind == ESepArg
  }

  function Offset(kind: Kind): nat
    requires IsSetting(kind)
  {
    if kind == MarkerArg then 8 else 12
  }

  function Setting(cfg: Config, kind: Kind): string
    requires IsSetting(kind)
  {
    match kind
    case MarkerArg => cfg.marker
    case FSepArg => cfg.fsep
    case ESepArg => cfg.esep
  }

  /** The effect of one argument on the dictionary. */
  function Step(cfg: Config, arg: string): Config {
    match KindOf(arg)
    case OptionsArg => cfg.(options := cfg.options + OptionItems(arg))
    case PathsArg => if PathsAccepted(arg) then cfg.(paths := cfg.paths + PathItems(arg)) else cfg
    case MarkerArg => cfg.(marker := Drop(arg, 8))
    case FSepArg => cfg.(fsep := Drop(arg, 12))
    case ESepArg => cfg.(esep := Drop(arg, 12))
    case OtherArg => cfg
  }

  /** The dictionary after scanning `argv` from left to right. */
  function Scanned(argv: seq<string>): Config
    decreases |argv|
  {
    if argv == [] then Defaults() else Step(Scanned(argv[..|argv| - 1]), argv[|argv| - 1])
  }

  /** The trailing separator added to every path but the root itself. */
  function WithSlash(p: string): string {
    if p == "/" then p else p + "/"
  }

  /**
   * `load_arguments`: the scan of the vector, then a "/" appended in place
   * to every path that is not exactly "/", even one that already ends in "/".
   */
  method LoadArguments(argv: seq<string>) returns (cfg: Config)
    ensures cfg.options == Scanned(argv).options
    ensures cfg.marker == Scanned(argv).marker
    ensures cfg.fsep == Scanned(argv).fsep && cfg.esep == Scanned(argv).esep
    ensures |cfg.paths| == |Scanned(argv).paths|
    ensures forall n :: 0 <= n < |cfg.paths| ==> cfg.paths[n] == WithSlash(Scanned(argv).paths[n])
  {
    var arguments := Defaults();
    for i := 0 to |argv|
      invariant arguments == Scanned(argv[..i])
    {
      var arg := argv[i];
      if Contains(arg, "-options:") {
        arguments := arguments.(options := arguments.options + Split(Drop(arg, 9), ","));
      } else if Contains(arg, "-paths:") {
        if |Split(Drop(arg, 7), ",")[0]| > 0 {
          arguments := arguments.(paths := arguments.paths + Split(Drop(arg, 7), ",,"));
        }
      } else if Contains(arg, "-marker:") {
        arguments := arguments.(marker := Drop(arg, 8));
      } else if Contains(arg, "-fseparator:") {
        arguments := arguments.(fsep := Drop(arg, 12));
      } else if Contains(arg, "-eseparator:") {
        arguments := arguments.(esep := Drop(arg, 12));
      }
      assert argv[..i + 1][..i] == argv[..i];
    }
    assert argv[..|argv|] == argv;
    var paths := arguments.paths;
    for n := 0 to |paths|
      invariant |paths| == |arguments.paths|
      invariant forall k :: 0 <= k < n ==> paths[k] == WithSlash(arguments.paths[k])
      invariant forall k :: n <= k < |paths| ==> paths[k] == arguments.paths[k]
    {
      if paths[n] != "/" {
        paths := paths[n := paths[n] + "/"];
      }
    }
    cfg := arguments.(paths := paths);
  }

  /** What one argument adds to the options. */
  function OptionsOf(arg: string): seq<string> {
    if KindOf(arg) == OptionsArg then OptionItems(arg) else []
  }

  /** What one argument adds to the paths. */
  function PathsOf(arg: string): seq<string> {
    if KindOf(arg) == PathsArg && PathsAccepted(arg) then PathItems(arg) else []
  }

  /** The contributions `f(xs[0]) + f(xs[1]) + ...`, left to right. */
  function Collect(f: string -> seq<string>, xs: seq<string>): seq<string>
    decreases |xs|
  {
    if xs == [] then [] else Collect(f, xs[..|xs| - 1]) + f(xs[|xs| - 1])
  }

  lemma {:induction false} CollectMember(f: string -> seq<string>, xs: seq<string>, x: string)
    ensures x in Collect(f, xs) <==> exists j :: 0 <= j < |xs| && x in f(xs[j])
    decreases |xs|
  {
    if xs != [] {
      var init := xs[..|xs| - 1];
      CollectMember(f, init, x);
      if exists j :: 0 <= j < |init| && x in f(init[j]) {
        var j :| 0 <= j < |init| && x in f(init[j]);
        assert xs[j] == init[j];
      }
      if exists j :: 0 <= j < |xs| && x in f(xs[j]) {
        var j :| 0 <= j < |xs| && x in f(xs[j]);
        if j < |init| {
          assert init[j] == xs[j];
        }
      }
    }
  }

  /** The options and paths of the scan are the arguments' contributions in order. */
  lemma {:induction false} ScannedCollects(argv: seq<string>)
    ensures Scanned(argv).options == Collect(OptionsOf, argv)
    ensures Scanned(argv).paths == Collect(PathsOf, argv)
    decreases |argv|
  {
    if argv != [] {
      var init := argv[..|argv| - 1];
      var a := argv[|argv| - 1];
      ScannedCollects(init);
      assert Scanned(argv) == Step(Scanned(init), a);
      match KindOf(a)
      case OptionsArg =>
      case PathsArg =>
      case _ =>
    }
  }

  /**
   * Options accumulate: a name is an option exactly when some `-options:`
   * argument lists it.
   */
  lemma OptionsCollected(argv: seq<string>, o: string)
    ensures o in Scanned(argv).options <==> exists j :: 0 <= j < |argv| && o in OptionsOf(argv[j])
  {
    ScannedCollects(argv);
    CollectMember(OptionsOf, argv, o);
  }

  /**
   * Paths accumulate: a path is listed exactly when some accepted `-paths:`
   * argument holds it between double commas.
   */
  lemma PathsCollected(argv: seq<string>, p: string)
    ensures p in Scanned(argv).paths <==> exists j :: 0 <= j < |argv| && p in PathsOf(argv[j])
  {
    ScannedCollects(argv);
    CollectMember(PathsOf, argv, p);
  }

  /** A `-paths:` argument is accepted exactly when its value is non-empty and does not start with a comma. */
  lemma PathsAcceptedIff(arg: string)
    ensures PathsAccepted(arg) <==> |Drop(arg, 7)| > 0 && Drop(arg, 7)[0] != ','
  {
    FirstCommaPiece(Drop(arg, 7));
  }

  /** One argument sets the marker or a separator only when it is of that kind. */
  lemma StepSetting(cfg: Config, arg: string, kind: Kind)
    requires IsSetting(kind)
    ensures Setting(Step(cfg, arg), kind) == if KindOf(arg) == kind then Drop(arg, Offset(kind)) else Setting(cfg, kind)
  {
    match KindOf(arg)
    case OptionsArg =>
    case PathsArg =>
    case MarkerArg =>
    case FSepArg =>
    case ESepArg =>
    case OtherArg =>
  }

  /** Marker and separators: the last argument of their kind wins. */
  lemma {:induction false} SettingLastWins(argv: seq<string>, kind: Kind, j: nat)
    requires IsSetting(kind) && j < |argv| && KindOf(argv[j]) == kind
    requires forall k :: j < k < |argv| ==> KindOf(argv[k]) != kind
    ensures Setting(Scanned(argv), kind) == Drop(argv[j], Offset(kind))
    decreases |argv|
  {
    var init := argv[..|argv| - 1];
    var last := argv[|argv| - 1];
    assert Scanned(argv) == Step(Scanned(init), last);
    StepSetting(Scanned(init), last, kind);
    if j < |init| {
      assert forall k :: j < k < |init| ==> init[k] == argv[k];
      SettingLastWins(init, kind, j);
      assert init[j] == argv[j];
    }
  }

  /** Marker and separators keep their defaults when no argument of their kind is given. */
  lemma {:induction false} SettingDefault(argv: seq<string>, kind: Kind)
    requires IsSetting(kind)
    requires forall k :: 0 <= k < |argv| ==> KindOf(argv[k]) != kind
    ensures Setting(Scanned(argv), kind) == Setting(Defaults(), kind)
    decreases |argv|
  {
    if argv != [] {
      var init := argv[..|argv| - 1];
      var last := argv[|argv| - 1];
      assert forall k :: 0 <= k < |init| ==> init[k] == argv[k];
      SettingDefault(init, kind);
      StepSetting(Scanned(init), last, kind);
    }
  }
}

/**
 * `JSHint::Lint` (lib/jshint/lint.rb:15-93): an object that resolves its
 * configuration and file list when it is made, and whose `run` checks once
 * that Java works, announces itself, and launches the JSHint engine on the
 * files with the configuration flattened into one argument.
 *
 * The processes it starts are not run here: each launch is recorded as an
 * event, and what a launch yields (the probe's output, the engine's exit
 * status) is a parameter.
 */
module Lint {
  import opened Wrappers
  import opened Values
  import opened Text
  import opened Json
  import opened Config
  import opened Selection

  const TestJarClass: string := "Test"
  const RhinoJarClass: string := "org.mozilla.javascript.tools.shell.Main"
  const RunningMessage: string := "Running JSHint...\n\n"

  /** Where the vendored Java archives and jshint.js were installed. */
  datatype Installation = Installation(testJar: string, rhinoJar: string, jshintFile: string)

  /**
   * The `Utils` helpers the class calls, whose code is not part of this
   * model: loading a config file, de-duplicating a file list, and
   * subtracting the excluded files from the included ones.
   */
  datatype Utils = Utils(
    loadConfigFile: Value -> Hash,
    uniqueFiles: seq<string> -> seq<string>,
    excludeFiles: (seq<string>, seq<string>) -> seq<string>)

  /** `Dir[pattern]` and `File.size(path)`. */
  datatype FileSystem = FileSystem(glob: string -> seq<string>, size: string -> nat)

  /** The exceptions `run` raises. */
  datatype LintError =
    | NoJavaException
    | ArgumentError(className: string)
    | LintCheckFailure

  datatype Outcome = Done | Raised(error: LintError)

  /** What the object does to the outside world. */
  datatype Event =
    | JavaWithOutput(command: string)
    | Xputs(message: string)
    | JavaWithStatus(command: string)

  /** The shell command both `call_java_with_*` helpers run. */
  function JavaCommand(jar: string, mainClass: string, arguments: string): string
  {
    "java -cp " + jar + " " + mainClass + " " + arguments
  }

  function ProbeCommand(inst: Installation): string
  {
    JavaCommand(inst.testJar, TestJarClass, "")
  }

  /** The engine's arguments: the script, the option token, the files separated by spaces. */
  function EngineArguments(inst: Installation, token: string, files: seq<string>): string
  {
    inst.jshintFile + " " + token + " " + Join(" ", files)
  }

  function EngineCommand(inst: Installation, token: string, files: seq<string>): string
  {
    JavaCommand(inst.rhinoJar, RhinoJarClass, EngineArguments(inst, token, files))
  }

  /** `options[:config_path] || JSHint.config_path` */
  function CustomConfigPath(options: Options, globalConfigPath: Value): Value
  {
    if Truthy(options.configPath) then options.configPath else globalConfigPath
  }

  /** The files `initialize` leaves in `@file_list` when selecting against `config`. */
  function SelectedFiles(options: Options, config: Hash, utils: Utils, fs: FileSystem): seq<string>
    requires PatternsAreStrings(options, config, Paths) && PatternsAreStrings(options, config, ExcludePaths)
  {
    var included := FilesMatchingPaths(options, config, Paths, fs.glob, utils.uniqueFiles);
    var excluded := FilesMatchingPaths(options, config, ExcludePaths, fs.glob, utils.uniqueFiles);
    NonEmptyFiles(utils.excludeFiles(included, excluded), fs.size)
  }

  /** `ks.each { |k| h.delete(k) }` as the loop it is. */
  method DeleteKeys(h: Hash, ks: seq<string>) returns (r: Hash)
    ensures r == RemoveAll(h, ks)
  {
    r := h;
    for i := 0 to |ks|
      invariant r == RemoveAll(h, ks[..i])
    {
      RemoveAllSnoc(h, ks[..i], ks[i]);
      assert ks[..i + 1] == ks[..i] + [ks[i]];
      r := Remove(r, ks[i]);
    }
    assert ks[..|ks|] == ks;
  }

  /**
   * File selection reads the selection keys as the merge left them: the
   * predef normalisation does not touch them and they are deleted only later.
   */
  lemma SelectionSeesMergedKeys(defaultConfig: Hash, customConfig: Hash, f: Field)
    requires UniqueKeys(customConfig)
    ensures ConfigValue(SelectionConfig(defaultConfig, customConfig), FieldName(f)) ==
      ConfigValue(if FieldName(f) in Keys(customConfig) then customConfig else defaultConfig, FieldName(f))
  {
    var m := Merge(defaultConfig, customConfig);
    NormalizePredefSpec(m, FieldName(f));
    MergeGet(defaultConfig, customConfig, FieldName(f));
  }

  /** The state a step leaves and the events it causes. */
  datatype Step = Step(outcome: Outcome, javaOk: bool, events: seq<Event>)

  /**
   * `check_java`: probes only while the flag is unset; the probe passes
   * exactly when its output, stripped, is `OK`, and a pass sets the flag
   * for good; a failure raises NoJavaException and leaves the flag unset.
   */
  function CheckJavaSpec(javaOk: bool, inst: Installation, probeOutput: string): (r: Step)
    ensures r.javaOk == (javaOk || Strip(probeOutput) == "OK")
    ensures r.outcome.Done? <==> r.javaOk
    ensures r.outcome.Raised? ==> r.outcome.error == NoJavaException
    ensures r.events == if javaOk then [] else [JavaWithOutput(ProbeCommand(inst))]
  {
    if javaOk then Step(Done, true, [])
    else if Strip(probeOutput) == "OK" then Step(Done, true, [JavaWithOutput(ProbeCommand(inst))])
    else Step(Raised(NoJavaException), false, [JavaWithOutput(ProbeCommand(inst))])
  }

  /**
   * The probe passes exactly on the word OK surrounded by whitespace, the
   * trailing newline the test program prints included.
   */
  lemma ProbeAcceptsExactly(inst: Installation, out: string)
    ensures CheckJavaSpec(false, inst, out).outcome.Done?
      <==> exists p, q :: AllSpace(p) && AllSpace(q) && out == p + "OK" + q
  {
    if Strip(out) == "OK" {
      var i := StripSplits(out);
      assert out == out[..i] + "OK" + out[i + 2..];
    }
    if exists p, q :: AllSpace(p) && AllSpace(q) && out == p + "OK" + q {
      var p, q :| AllSpace(p) && AllSpace(q) && out == p + "OK" + q;
      StripSurrounded(p, "OK", q);
    }
  }

  /**
   * `run`: the Java check first; then the announcement; then the option
   * token, whose conversion may raise; then the engine, whose failure
   * raises LintCheckFailure.
   */
  function RunSpec(javaOk: bool, config: Hash, files: seq<string>, inst: Installation,
                   probeOutput: string, engineSucceeds: bool): (r: Step)
    ensures r.javaOk == (javaOk || Strip(probeOutput) == "OK")
    ensures !r.javaOk ==> r.outcome == Raised(NoJavaException) && r.events == [JavaWithOutput(ProbeCommand(inst))]
    ensures javaOk ==> forall i :: 0 <= i < |r.events| ==> !r.events[i].JavaWithOutput?
    ensures (exists i :: 0 <= i < |r.events| && r.events[i].JavaWithStatus?) <==> r.javaOk && OptionString(config).Success?
    ensures r.javaOk && OptionString(config).Failure? ==> r.outcome == Raised(ArgumentError(OptionString(config).error.className))
    ensures r.javaOk && OptionString(config).Success? ==>
      r.events[|r.events| - 1] == JavaWithStatus(EngineCommand(inst, OptionToken(config).value, files))
      && (r.outcome == Done <==> engineSucceeds)
      && (r.outcome == Raised(LintCheckFailure) <==> !engineSucceeds)
  {
    var gate := CheckJavaSpec(javaOk, inst, probeOutput);
    if gate.outcome.Raised? then gate
    else
      var announced := gate.events + [Xputs(RunningMessage)];
      match OptionToken(config)
      case Failure(e) => Step(Raised(ArgumentError(e.className)), true, announced)
      case Success(token) =>
        var launched := announced + [JavaWithStatus(EngineCommand(inst, token, files))];
        assert launched[|launched| - 1].JavaWithStatus?;
        Step(if engineSucceeds then Done else Raised(LintCheckFailure), true, launched)
  }

  /** Once a run gets past the Java check, later runs never probe again. */
  lemma ProbeRemembered(javaOk: bool, config: Hash, files: seq<string>, inst: Installation,
                        out1: string, ok1: bool, out2: string, ok2: bool)
    requires RunSpec(javaOk, config, files, inst, out1, ok1).outcome != Raised(NoJavaException)
    ensures var second := RunSpec(RunSpec(javaOk, config, files, inst, out1, ok1).javaOk, config, files, inst, out2, ok2);
      forall i :: 0 <= i < |second.events| ==> !second.events[i].JavaWithOutput?
  {
  }

  /** A failed check remembers nothing: the run after it probes again. */
  lemma ProbeRetried(javaOk: bool, config: Hash, files: seq<string>, inst: Installation,
                     out1: string, ok1: bool, out2: string, ok2: bool)
    requires RunSpec(javaOk, config, files, inst, out1, ok1).outcome == Raised(NoJavaException)
    ensures var second := RunSpec(RunSpec(javaOk, config, files, inst, out1, ok1).javaOk, config, files, inst, out2, ok2);
      second.events != [] && second.events[0] == JavaWithOutput(ProbeCommand(inst))
  {
    var first := RunSpec(javaOk, config, files, inst, out1, ok1);
    assert !javaOk && !first.javaOk;
  }

  /**
   * The launched command carries the option token, and undoing the token's
   * `$` escapes and then its Ruby quoting gives option_string back. (What
   * the shell makes of the token on its way to the engine is not modelled.)
   */
  lemma EngineGetsOptions(javaOk: bool, config: Hash, files: seq<string>, inst: Installation,
                          out: string, ok: bool, i: nat)
    requires var r := RunSpec(javaOk, config, files, inst, out, ok); i < |r.events| && r.events[i].JavaWithStatus?
    ensures OptionToken(config).Success?
    ensures RunSpec(javaOk, config, files, inst, out, ok).events[i].command
      == EngineCommand(inst, OptionToken(config).value, files)
    ensures ReadLiteral(UnescapeDollars(OptionToken(config).value)) == Some((OptionString(config).value, ""))
  {
    var r := RunSpec(javaOk, config, files, inst, out, ok);
    assert 0 <= i < |r.events| && r.events[i].JavaWithStatus?;
    assert r.javaOk && OptionString(config).Success?;
    TokenCarriesOptions(config);
    var gate := CheckJavaSpec(javaOk, inst, out);
    var token := OptionToken(config).value;
    assert gate.outcome.Done?;
    assert r.events == gate.events + [Xputs(RunningMessage)] + [JavaWithStatus(EngineCommand(inst, token, files))];
    assert |gate.events| <= 1 && forall j :: 0 <= j < |gate.events| ==> gate.events[j].JavaWithOutput?;
    assert i == |r.events| - 1;
  }

  class Lint {
    var config: Hash
    var fileList: seq<string>
    var javaOk: bool
    ghost var events: seq<Event>

    /** The configuration is a proper Hash and no longer holds the selection keys. */
    ghost predicate Valid()
      reads this
    {
      UniqueKeys(config) && (forall k :: k in SelectionKeys ==> k !in Keys(config))
    }

    /** `initialize(options)` */
    constructor (options: Options, utils: Utils, fs: FileSystem, defaultConfigFile: Value, globalConfigPath: Value)
      requires UniqueKeys(utils.loadConfigFile(defaultConfigFile))
      requires UniqueKeys(utils.loadConfigFile(CustomConfigPath(options, globalConfigPath)))
      requires var c := SelectionConfig(utils.loadConfigFile(defaultConfigFile),
                                        utils.loadConfigFile(CustomConfigPath(options, globalConfigPath)));
        PatternsAreStrings(options, c, Paths) && PatternsAreStrings(options, c, ExcludePaths)
      ensures var d := utils.loadConfigFile(defaultConfigFile);
        var c := utils.loadConfigFile(CustomConfigPath(options, globalConfigPath));
        config == ResolveConfig(d, c) && fileList == SelectedFiles(options, SelectionConfig(d, c), utils, fs)
      ensures !javaOk && events == []
      ensures Valid()
    {
      var defaultConfig := utils.loadConfigFile(defaultConfigFile);
      var customConfig := utils.loadConfigFile(CustomConfigPath(options, globalConfigPath));
      config := Merge(defaultConfig, customConfig);
      fileList := [];
      javaOk := false;
      events := [];
      new;
      config := NormalizePredef(config);
      var included := FilesMatchingPaths(options, config, Paths, fs.glob, utils.uniqueFiles);
      var excluded := FilesMatchingPaths(options, config, ExcludePaths, fs.glob, utils.uniqueFiles);
      fileList := utils.excludeFiles(included, excluded);
      fileList := DeleteEmptyFiles(fileList, fs.size);
      config := DeleteKeys(config, SelectionKeys);
      ResolveConfigUnique(defaultConfig, customConfig);
      forall k | k in SelectionKeys ensures k !in Keys(config) {
        RemoveAllGet(SelectionConfig(defaultConfig, customConfig), SelectionKeys, k);
      }
    }

    /** `check_java` */
    method CheckJava(inst: Installation, probeOutput: string) returns (r: Outcome)
      modifies this`javaOk, this`events
      ensures var s := CheckJavaSpec(old(javaOk), inst, probeOutput);
        r == s.outcome && javaOk == s.javaOk && events == old(events) + s.events
    {
      if !javaOk {
        events := events + [JavaWithOutput(ProbeCommand(inst))];
        if Strip(probeOutput) == "OK" {
          javaOk := true;
        } else {
          return Raised(NoJavaException);
        }
      }
      return Done;
    }

    /** `run` */
    method Run(inst: Installation, probeOutput: string, engineSucceeds: bool) returns (r: Outcome)
      modifies this`javaOk, this`events
      ensures var s := RunSpec(old(javaOk), config, fileList, inst, probeOutput, engineSucceeds);
        r == s.outcome && javaOk == s.javaOk && events == old(events) + s.events
      ensures Valid() <==> old(Valid())
    {
      r := CheckJava(inst, probeOutput);
      if r.Raised? {
        return;
      }
      events := events + [Xputs(RunningMessage)];
      var token := OptionToken(config);
      if token.Failure? {
        return Raised(ArgumentError(token.error.className));
      }
      events := events + [JavaWithStatus(EngineCommand(inst, token.value, fileList))];
      if !engineSucceeds {
        return Raised(LintCheckFailure);
      }
      return Done;
    }
  }
}

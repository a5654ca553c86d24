/**
 * `convert_audio` (audio-converter.py:45-121): the checks in their order, the
 * output-path resolution, the directory creation and the delegated
 * conversion. Everything that touches the outside world is an answer supplied
 * in an `Environment`; the method records, in order, the side effects it asks
 * for, so that what happens before a failure can be stated.
 */
module Converter {
  import opened Wrappers
  import opened PosixPath
  import opened Formats
  import opened OutputPath

  /** The answers the outside world gives during one conversion. */
  datatype Environment = Environment(
    ffmpegAvailable: bool,  // check_ffmpeg()
    inputIsFile: bool,      // os.path.isfile(input_file)
    outputIsDir: bool,      // os.path.isdir(output_file), asked only when an output is given
    makedirsSucceeds: bool, // os.makedirs(output_dir, exist_ok=True) raises nothing
    loadSucceeds: bool,     // AudioSegment.from_file(input_file) raises nothing
    exportSucceeds: bool)   // audio.export(output_file, format=...) raises nothing

  /** A side effect on the file system or the media engine. */
  datatype Effect =
    | MakeDirs(dir: string)
    | Load(path: string)
    | Export(path: string, format: string)

  /** How a conversion ends; only `Converted` makes `convert_audio` return True. */
  datatype Outcome =
    | Converted(path: string)
    | EngineUnavailable
    | InputNotFound
    | UnsupportedFormat
    | DirectoryCreationFailed(dir: string)
    | ConversionFailed

  /** The three checks made before any path is computed or any effect happens. */
  predicate ChecksPass(outputFormat: string, env: Environment) {
    env.ffmpegAvailable && env.inputIsFile && ValidateFormat(outputFormat)
  }

  /** The output path, once the checks have passed. */
  function Target(inputFile: string, outputFormat: string, outputArg: Option<string>,
                  env: Environment): string
  {
    ResolveOutput(inputFile, outputFormat, outputArg, env.outputIsDir)
  }

  /** The directory `makedirs` is asked to create; empty means it is not called. */
  function DirToCreate(inputFile: string, outputFormat: string, outputArg: Option<string>,
                       env: Environment): string
  {
    Dirname(Target(inputFile, outputFormat, outputArg, env))
  }

  /** A conversion succeeds when every check and every step it reaches succeeds. */
  predicate ConversionSucceeds(inputFile: string, outputFormat: string, outputArg: Option<string>,
                               env: Environment): (succeeds: bool)
    ensures succeeds ==>
      && env.ffmpegAvailable && env.inputIsFile && ValidateFormat(outputFormat)
      && env.loadSucceeds && env.exportSucceeds
    ensures (&& env.ffmpegAvailable && env.inputIsFile && env.makedirsSucceeds
             && env.loadSucceeds && env.exportSucceeds) ==>
      (succeeds <==> ValidateFormat(outputFormat))
  {
    && ChecksPass(outputFormat, env)
    && (DirToCreate(inputFile, outputFormat, outputArg, env) == [] || env.makedirsSucceeds)
    && env.loadSucceeds
    && env.exportSucceeds
  }

  /**
   * The effects of writing `outputFile` when nothing fails, in order: create its
   * directory when it has one, load the input, export.
   */
  function PlannedWrites(inputFile: string, outputFile: string, outputFormat: string): seq<Effect> {
    var dir := Dirname(outputFile);
    (if dir != [] then [MakeDirs(dir)] else []) + [Load(inputFile), Export(outputFile, outputFormat)]
  }

  /** The effects of a run that passes the checks and in which nothing fails. */
  function PlannedEffects(inputFile: string, outputFormat: string, outputArg: Option<string>,
                          env: Environment): seq<Effect>
  {
    PlannedWrites(inputFile, Target(inputFile, outputFormat, outputArg, env), outputFormat)
  }

  /** What one run returns and which effects it asked for, in order. */
  datatype Run = Run(outcome: Outcome, effects: seq<Effect>)

  /**
   * The run of lines 84-117 on a resolved `outputFile`: each step happens only
   * if the one before it succeeded, and the first failure ends the run. This
   * and `ConvertRun` state as values what the methods `WriteOutput` and
   * `ConvertAudio` do step by step; the lemmas below are proved about them.
   */
  function WriteRun(inputFile: string, outputFile: string, outputFormat: string, env: Environment): (r: Run)
    ensures r.effects != []
    ensures r.outcome.Converted? <==>
      (Dirname(outputFile) == [] || env.makedirsSucceeds) && env.loadSucceeds && env.exportSucceeds
    ensures r.outcome.Converted? ==> r.outcome.path == outputFile
    ensures r.outcome.DirectoryCreationFailed? ==> r.outcome.dir == Dirname(outputFile) != []
    ensures !r.outcome.EngineUnavailable? && !r.outcome.InputNotFound? && !r.outcome.UnsupportedFormat?
  {
    var dir := Dirname(outputFile);
    var made := if dir != [] then [MakeDirs(dir)] else [];
    if dir != [] && !env.makedirsSucceeds then Run(DirectoryCreationFailed(dir), made)
    else if !env.loadSucceeds then Run(ConversionFailed, made + [Load(inputFile)])
    else if !env.exportSucceeds then
      Run(ConversionFailed, made + [Load(inputFile), Export(outputFile, outputFormat)])
    else Run(Converted(outputFile), made + [Load(inputFile), Export(outputFile, outputFormat)])
  }

  /**
   * The whole run of `convert_audio`: the engine, the input file and the format
   * are checked in that order, and only then is anything written.
   */
  function ConvertRun(inputFile: string, outputFormat: string, outputArg: Option<string>,
                      env: Environment): (r: Run)
    ensures r.effects == [] <==>
      r.outcome.EngineUnavailable? || r.outcome.InputNotFound? || r.outcome.UnsupportedFormat?
    ensures r.outcome.Converted? ==> r.outcome.path == Target(inputFile, outputFormat, outputArg, env)
  {
    if !env.ffmpegAvailable then Run(EngineUnavailable, [])
    else if !env.inputIsFile then Run(InputNotFound, [])
    else if !ValidateFormat(outputFormat) then Run(UnsupportedFormat, [])
    else WriteRun(inputFile, Target(inputFile, outputFormat, outputArg, env), outputFormat, env)
  }

  /**
   * The second half of `convert_audio` (lines 84-117): create the output's
   * directory when it has one, then load and export, stopping at the first failure.
   */
  method WriteOutput(inputFile: string, outputFile: string, outputFormat: string, env: Environment)
    returns (outcome: Outcome, effects: seq<Effect>)
    ensures Run(outcome, effects) == WriteRun(inputFile, outputFile, outputFormat, env)
  {
    effects := [];
    var outputDir := Dirname(outputFile);
    if outputDir != [] {
      effects := effects + [MakeDirs(outputDir)];
      if !env.makedirsSucceeds {
        return DirectoryCreationFailed(outputDir), effects;
      }
    }
    effects := effects + [Load(inputFile)];
    if !env.loadSucceeds {
      return ConversionFailed, effects;
    }
    effects := effects + [Export(outputFile, outputFormat)];
    if !env.exportSucceeds {
      return ConversionFailed, effects;
    }
    return Converted(outputFile), effects;
  }

  /**
   * Lines 68-82 of `convert_audio`, step by step: `output_file` starts as the
   * argument and is reassigned in the branch that applies.
   */
  method ResolveOutputFile(inputFile: string, outputFormat: string, outputArg: Option<string>,
                           outputIsDir: bool)
    returns (outputFile: string)
    ensures outputFile == ResolveOutput(inputFile, outputFormat, outputArg, outputIsDir)
  {
    var originalFilename := Stem(inputFile);
    if !Given(outputArg) {
      outputFile := originalFilename + "." + outputFormat;
    } else if outputIsDir {
      outputFile := Join(outputArg.value, originalFilename + "." + outputFormat);
    } else {
      outputFile := outputArg.value;
      var outputDir := Dirname(outputFile);
      if outputDir != [] {
        outputFile := Join(outputDir, originalFilename + "." + outputFormat);
      }
    }
  }

  /** `convert_audio`, with the outside world's answers taken from `env`. */
  method ConvertAudio(inputFile: string, outputFormat: string, outputArg: Option<string>,
                      env: Environment)
    returns (outcome: Outcome, effects: seq<Effect>)
    ensures Run(outcome, effects) == ConvertRun(inputFile, outputFormat, outputArg, env)
  {
    if !env.ffmpegAvailable {
      return EngineUnavailable, [];
    }
    if !env.inputIsFile {
      return InputNotFound, [];
    }
    if !ValidateFormat(outputFormat) {
      return UnsupportedFormat, [];
    }
    var outputFile := ResolveOutputFile(inputFile, outputFormat, outputArg, env.outputIsDir);
    outcome, effects := WriteOutput(inputFile, outputFile, outputFormat, env);
  }

  /** It returns True exactly when every step succeeds, and then names the resolved path. */
  lemma SucceedsExactlyWhenEveryStepDoes(inputFile: string, outputFormat: string,
                                         outputArg: Option<string>, env: Environment)
    ensures ConvertRun(inputFile, outputFormat, outputArg, env).outcome.Converted? <==>
      ConversionSucceeds(inputFile, outputFormat, outputArg, env)
    ensures ConvertRun(inputFile, outputFormat, outputArg, env).outcome.Converted? ==>
      ConvertRun(inputFile, outputFormat, outputArg, env).outcome.path ==
        Target(inputFile, outputFormat, outputArg, env)
  {
  }

  /**
   * The checks run in the order engine, input file, format; the first that
   * fails decides the outcome, and nothing has been touched by then.
   */
  lemma ChecksComeFirst(inputFile: string, outputFormat: string, outputArg: Option<string>,
                        env: Environment)
    ensures !env.ffmpegAvailable ==>
      ConvertRun(inputFile, outputFormat, outputArg, env).outcome == EngineUnavailable
    ensures env.ffmpegAvailable && !env.inputIsFile ==>
      ConvertRun(inputFile, outputFormat, outputArg, env).outcome == InputNotFound
    ensures env.ffmpegAvailable && env.inputIsFile && !ValidateFormat(outputFormat) ==>
      ConvertRun(inputFile, outputFormat, outputArg, env).outcome == UnsupportedFormat
    ensures !ChecksPass(outputFormat, env) <==>
      ConvertRun(inputFile, outputFormat, outputArg, env).effects == []
  {
  }

  /** Writing follows the plan: the effects are a non-empty prefix of the planned ones. */
  lemma WriteFollowsThePlan(inputFile: string, outputFile: string, outputFormat: string, env: Environment)
    ensures var r := WriteRun(inputFile, outputFile, outputFormat, env);
      && 0 < |r.effects| <= |PlannedWrites(inputFile, outputFile, outputFormat)|
      && r.effects == PlannedWrites(inputFile, outputFile, outputFormat)[..|r.effects|]
      && (r.outcome.Converted? ==> r.effects == PlannedWrites(inputFile, outputFile, outputFormat))
  {
    var plan := PlannedWrites(inputFile, outputFile, outputFormat);
    var dir := Dirname(outputFile);
    if dir != [] {
      assert plan == [MakeDirs(dir), Load(inputFile), Export(outputFile, outputFormat)];
      assert plan[..1] == [MakeDirs(dir)];
      assert plan[..2] == [MakeDirs(dir), Load(inputFile)];
    } else {
      assert plan == [Load(inputFile), Export(outputFile, outputFormat)];
      assert plan[..1] == [Load(inputFile)];
    }
  }

  /** While writing, `makedirs` is asked only for the output's own directory, and only if it has one. */
  lemma WriteMakesOnlyTheOutputDirectory(inputFile: string, outputFile: string, outputFormat: string,
                                         env: Environment, d: string)
    ensures MakeDirs(d) in WriteRun(inputFile, outputFile, outputFormat, env).effects <==>
      d == Dirname(outputFile) && d != []
  {
    var dir := Dirname(outputFile);
    var made := if dir != [] then [MakeDirs(dir)] else [];
    assert MakeDirs(d) in made + [Load(inputFile)] <==> MakeDirs(d) in made;
    assert MakeDirs(d) in made + [Load(inputFile), Export(outputFile, outputFormat)] <==> MakeDirs(d) in made;
  }

  /** While writing, the export is asked for last, and only once the directory and the load have succeeded. */
  lemma WriteExportsLast(inputFile: string, outputFile: string, outputFormat: string,
                         env: Environment, p: string, f: string)
    ensures Export(p, f) in WriteRun(inputFile, outputFile, outputFormat, env).effects <==>
      && (Dirname(outputFile) == [] || env.makedirsSucceeds)
      && env.loadSucceeds
      && p == outputFile && f == outputFormat
  {
    var dir := Dirname(outputFile);
    var made := if dir != [] then [MakeDirs(dir)] else [];
    assert Export(p, f) !in made;
    assert Export(p, f) in made + [Load(inputFile)] <==> Export(p, f) in made;
    assert Export(p, f) in made + [Load(inputFile), Export(outputFile, outputFormat)] <==>
      Export(p, f) == Export(outputFile, outputFormat);
  }

  /**
   * Once the checks pass, the effects are the planned ones, in order, up to and
   * including the first that fails; a successful run has asked for all of them.
   */
  lemma EffectsFollowThePlan(inputFile: string, outputFormat: string, outputArg: Option<string>,
                             env: Environment)
    requires ChecksPass(outputFormat, env)
    ensures var r := ConvertRun(inputFile, outputFormat, outputArg, env);
      && 0 < |r.effects| <= |PlannedEffects(inputFile, outputFormat, outputArg, env)|
      && r.effects == PlannedEffects(inputFile, outputFormat, outputArg, env)[..|r.effects|]
      && (r.outcome.Converted? ==> r.effects == PlannedEffects(inputFile, outputFormat, outputArg, env))
  {
    WriteFollowsThePlan(inputFile, Target(inputFile, outputFormat, outputArg, env), outputFormat, env);
  }

  /**
   * `makedirs` is asked for exactly when the checks pass and the output path has
   * a directory part, and it is asked for that directory.
   */
  lemma MakeDirsOnlyForADirectoryPart(inputFile: string, outputFormat: string,
                                      outputArg: Option<string>, env: Environment, d: string)
    ensures MakeDirs(d) in ConvertRun(inputFile, outputFormat, outputArg, env).effects <==>
      ChecksPass(outputFormat, env) && d == DirToCreate(inputFile, outputFormat, outputArg, env) && d != []
    ensures ConvertRun(inputFile, outputFormat, outputArg, env).outcome.DirectoryCreationFailed? <==>
      ChecksPass(outputFormat, env) && DirToCreate(inputFile, outputFormat, outputArg, env) != [] &&
      !env.makedirsSucceeds
  {
    WriteMakesOnlyTheOutputDirectory(inputFile, Target(inputFile, outputFormat, outputArg, env),
                                     outputFormat, env, d);
  }

  /**
   * No export happens unless the checks pass, the directory exists or was made,
   * and the input was loaded; the export targets the resolved path in the
   * requested format.
   */
  lemma ExportOnlyAfterEverythingElse(inputFile: string, outputFormat: string,
                                      outputArg: Option<string>, env: Environment, p: string, f: string)
    ensures Export(p, f) in ConvertRun(inputFile, outputFormat, outputArg, env).effects <==>
      && ChecksPass(outputFormat, env)
      && (DirToCreate(inputFile, outputFormat, outputArg, env) == [] || env.makedirsSucceeds)
      && env.loadSucceeds
      && p == Target(inputFile, outputFormat, outputArg, env) && f == outputFormat
  {
    WriteExportsLast(inputFile, Target(inputFile, outputFormat, outputArg, env), outputFormat, env, p, f);
  }
}

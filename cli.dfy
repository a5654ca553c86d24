/**
 * The command-line boundary (audio-converter.py:123-159): separators in the
 * path arguments are unified to `/`, the conversion runs, and its result
 * becomes the exit status.
 */
module Cli {
  import opened Wrappers
  import opened OutputPath
  import opened Converter

  const Backslash: char := '\\'
  const Slash: char := '/'

  /** `s.replace('\\', '/')`: every backslash becomes a slash, every other character stays. */
  function NormalizeSeparators(s: string): (r: string)
    ensures |r| == |s|
    ensures forall i :: 0 <= i < |s| ==> r[i] == if s[i] == Backslash then Slash else s[i]
  {
    if s == [] then []
    else [if s[0] == Backslash then Slash else s[0]] + NormalizeSeparators(s[1..])
  }

  /** A normalised path has no backslash left. */
  lemma NormalizedHasNoBackslash(s: string)
    ensures Backslash !in NormalizeSeparators(s)
  {
    var r := NormalizeSeparators(s);
    forall i | 0 <= i < |r| ensures r[i] != Backslash {
    }
  }

  /** Normalising twice is normalising once. */
  lemma NormalizeIdempotent(s: string)
    ensures NormalizeSeparators(NormalizeSeparators(s)) == NormalizeSeparators(s)
  {
  }

  /** A Windows-style path becomes a POSIX one. */
  lemma NormalizeExample()
    ensures NormalizeSeparators("a\\b.mp3") == "a/b.mp3"
  {
    var r := NormalizeSeparators("a\\b.mp3");
    assert |r| == 7;
    forall i | 0 <= i < 7 ensures r[i] == "a/b.mp3"[i] {
    }
  }

  /**
   * `args.output.replace('\\', '/') if args.output else None`: an absent or
   * empty output argument becomes `None`.
   */
  function NormalizeOutputArg(outputArg: Option<string>): (r: Option<string>)
    ensures Given(r) == Given(outputArg)
    ensures Given(r) ==> r.value == NormalizeSeparators(outputArg.value)
  {
    if Given(outputArg) then Some(NormalizeSeparators(outputArg.value)) else None
  }

  /** `sys.exit(0 if success else 1)`. */
  function ExitCode(success: bool): (code: int)
    ensures code == 0 <==> success
    ensures code == 0 || code == 1
  {
    if success then 0 else 1
  }

  /**
   * `main` after argument parsing: normalise the paths, convert, and exit with
   * status 0 exactly when the conversion succeeded.
   */
  method RunCli(inputArg: string, outputFormat: string, outputArg: Option<string>, env: Environment)
    returns (exitCode: int, effects: seq<Effect>)
    ensures exitCode == 0 || exitCode == 1
    ensures exitCode == 0 <==>
      ConversionSucceeds(NormalizeSeparators(inputArg), outputFormat, NormalizeOutputArg(outputArg), env)
    ensures effects ==
      ConvertRun(NormalizeSeparators(inputArg), outputFormat, NormalizeOutputArg(outputArg), env).effects
  {
    var inputFile := NormalizeSeparators(inputArg);
    var outputFile := NormalizeOutputArg(outputArg);
    var outcome;
    outcome, effects := ConvertAudio(inputFile, outputFormat, outputFile, env);
    SucceedsExactlyWhenEveryStepDoes(inputFile, outputFormat, outputFile, env);
    exitCode := ExitCode(outcome.Converted?);
  }
}

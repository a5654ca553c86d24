# Audio converter: a verified model of its conversion logic

The tool is a small command-line program (`audio-converter.py`). It converts
one audio file into one of seven formats by delegating to FFmpeg through
pydub. This project models in Dafny what the program itself decides:

- which format tokens it accepts (case-insensitively);
- how it derives the output path from the input file name, the requested
  format and the optional output argument, using POSIX `basename`,
  `dirname`, `splitext` and `join`;
- the order of its checks and side effects, and which failure ends a run;
- how the command line turns backslashes into slashes and a result into an
  exit status.

The outside world is represented by an `Environment` of answers:

- whether FFmpeg is available;
- whether the input is a file;
- whether the output argument is a directory;
- whether `makedirs`, the load and the export succeed.

A run returns an `Outcome` and the ordered list of `Effect`s it asked for
(create a directory, load, export). That list is what lets the model state
what happens before a failure.

Modules:

- `Wrappers`: an `Option` type for the optional output argument.
- `PosixPath`: Python's `posixpath.basename`, `dirname`, `splitext` and
  `join`, with lemmas on joining a directory with a plain file name.
- `Formats`: the supported list, case folding and `validate_format`.
- `OutputPath`: the input's stem and the three-way choice on the output
  argument.
- `Converter`: `convert_audio`. The imperative methods are proved equal to
  the functional specifications `ConvertRun` and `WriteRun`. Lemmas about
  those specifications state the ordering and the "nothing else happens"
  properties.
- `Cli`: the separator normalisation, the output-argument handling and the
  exit status of `main`.

Where the program's documentation and its code disagree, the model follows
the code:

- With no output argument, the documentation says the file goes next to the
  input. The code builds a bare file name (`stem.fmt`), so the file is
  written to the working directory (`OutputPath.ResolveWithoutOutput`).
- The documentation says the output file always carries the requested
  extension. The code uses an output argument that is not a directory and
  has no directory part verbatim, whatever its extension
  (`OutputPath.ResolveVerbatim`). Even a rebuilt path has the requested
  extension only when the input's stem is non-empty and not made of dots
  only (`OutputPath.RebuiltPathHasRequestedExtension`). An input named `...`
  or `dir/` yields `....mp3` or `.mp3`, which `splitext` does not split at all
  (`OutputPath.DottedStemLosesExtension`).
- The format is validated case-insensitively but written into the file name
  as given: `MP3` yields `song.MP3` (`OutputPath.ResolveExampleFormatCase`).

## Model

| member | source | states |
|---|---|---|
| Formats.SupportedFormats | audio-converter.py:29-33 | exactly seven tokens, pairwise distinct, non-empty and already lower case |
| Formats.ValidateFormat | audio-converter.py:35-43 | a token is accepted exactly when it equals some supported format up to letter case |
| Formats.ValidateIgnoresCase | audio-converter.py:43 | two spellings that differ only in case are accepted or refused alike |
| Formats.ValidFormatShape | audio-converter.py:33-43 | every accepted token has 3 or 4 characters and contains neither `.` nor `/` |
| Formats.ValidateAcceptsAnyCase | audio-converter.py:43 | `MP3`, `mp3` and `Flac` are accepted |
| Formats.ValidateRejectsOthers | audio-converter.py:43 | the empty token, `xyz` and `.mp3` are refused |
| Formats.ToLower | audio-converter.py:43 | lower-casing keeps the length and maps each character on its own |
| PosixPath.LastIndex | audio-converter.py:69 | the result is -1 or an index holding the character, with no occurrence after it |
| PosixPath.LastIndexAppend | audio-converter.py:69 | the last occurrence in a concatenation lies in the right part if it has one, else in the left |
| PosixPath.Basename | audio-converter.py:69 | the basename is a separator-free suffix of the path, preceded by a separator unless it is the whole path |
| PosixPath.RStripSlashes | audio-converter.py:80 | the result is a prefix without a trailing separator, and only separators were removed |
| PosixPath.Dirname | audio-converter.py:80 | the dirname is a prefix of the path, and it is non-empty exactly when the path contains a separator |
| PosixPath.SplitExt | audio-converter.py:69 | root and extension concatenate back to the path; a non-empty extension is one dot followed by no dot and no separator |
| PosixPath.Join | audio-converter.py:77 | an absolute right side wins; otherwise the result is left side, then a separator exactly when the left side is non-empty and does not already end in one, then right side |
| PosixPath.SplitExtLeadingDots | audio-converter.py:69 | a name whose part before its last dot is empty or all dots (`.hidden`, `..wav`) is not split |
| PosixPath.SplitExtWithoutDot | audio-converter.py:69 | a name without a dot has an empty extension |
| PosixPath.BasenameOfJoin | audio-converter.py:77 | joining a directory with a separator-free name gives back that name as basename |
| PosixPath.DirnameOfJoin | audio-converter.py:85 | joining a directory with a separator-free name gives back that directory, minus trailing separators unless it is all separators, as dirname |
| PosixPath.JoinExamples | audio-converter.py:77 | `join` adds a separator only when missing, adds none to an empty left side, and lets an absolute right side win |
| PosixPath.DirnameExamples | audio-converter.py:80 | `c/renamed.ogg` has dirname `c`, a bare name has none, a root-level file has `/` |
| OutputPath.Stem | audio-converter.py:69 | the stem has no separator and is the basename minus a possibly empty last extension that starts with its only dot |
| OutputPath.StemOfDottedName | audio-converter.py:69 | the stem of `dir/dots.ext`, with nothing but dots before the last dot, is the whole file name |
| OutputPath.TargetName | audio-converter.py:74 | the name `stem.fmt` has no separator when the format has none, and its last dot is the one before the format when the format has no dot |
| OutputPath.Given | audio-converter.py:72 | the output argument counts as given exactly when it is neither `None` nor the empty string |
| OutputPath.ResolveOutput | audio-converter.py:69-82 | with no argument the path is `stem.fmt`; a non-directory argument without a directory part is kept as it is; in every other case the path ends in `stem.fmt` |
| OutputPath.RebuiltFileName | audio-converter.py:72-82 | whenever the path is rebuilt, its basename is exactly `stem.fmt` |
| OutputPath.DottedStemLosesExtension | audio-converter.py:69-82 | when the input's stem is empty or all dots, the rebuilt file name has no extension for `splitext` |
| OutputPath.SplitTargetName | audio-converter.py:74 | `splitext` of `stem.fmt` gives back the stem and `.fmt` when the stem is not all dots |
| OutputPath.DirnameIsStripped | audio-converter.py:80 | a dirname is all separators or has no trailing separator |
| OutputPath.ResolveWithoutOutput | audio-converter.py:72-74 | with no (or an empty) output argument the path is `stem.fmt` and has no directory part |
| OutputPath.ResolveIntoDirectory | audio-converter.py:75-77 | an output directory yields `join(dir, stem.fmt)`, whose basename is `stem.fmt` and whose dirname is the directory |
| OutputPath.ResolveKeepsOnlyDirectory | audio-converter.py:78-82 | a non-directory output argument with a directory part keeps only that directory; the name becomes `stem.fmt` |
| OutputPath.ResolveVerbatim | audio-converter.py:78-82 | a non-directory output argument without a directory part is used unchanged |
| OutputPath.RebuiltPathHasRequestedExtension | audio-converter.py:68-82 | whenever the path is rebuilt and the input's stem is non-empty and not all dots, its file name splits into that stem and `.` plus the requested format |
| OutputPath.StemOfPath | audio-converter.py:69 | the stem of `dir/stem.ext` is `stem` |
| OutputPath.StemExamples | audio-converter.py:69 | the stem of `a/song.wav` and of `song.wav` is `song` |
| OutputPath.StemDropsOnlyLastExtension | audio-converter.py:69 | the stem of `x/b.c.wav` is `b.c` |
| OutputPath.StemKeepsLeadingDot | audio-converter.py:69 | a name that is only a leading-dot extension, `.hidden`, is its own stem |
| OutputPath.TargetNameExamples | audio-converter.py:74 | the target names for sample inputs and formats, with the format's case kept |
| OutputPath.ResolveExampleWithoutOutput | audio-converter.py:72-74 | `song.wav` to mp3 with no output goes to `song.mp3` |
| OutputPath.ResolveExampleFormatCase | audio-converter.py:72-74 | an empty output argument counts as absent, and the format keeps its case: `song.MP3` |
| OutputPath.ResolveExampleIntoDirectory | audio-converter.py:75-77 | `song.wav` into directory `b/` goes to `b/song.flac` |
| OutputPath.ResolveExampleKeepsOnlyDirectory | audio-converter.py:78-82 | output `c/renamed.ogg` becomes `c/song.ogg` |
| OutputPath.ResolveExampleVerbatim | audio-converter.py:78-82 | output `renamed.txt` is used as given, extension included |
| Converter.ConversionSucceeds | audio-converter.py:54-112 | success needs the engine, the input file, a supported format, the load and the export; when the outside world cooperates, the format alone decides |
| Converter.WriteRun | audio-converter.py:84-117 | the writing phase always asks for at least one effect; it converts exactly when the directory step (if any), the load and the export succeed, and then names the output path; a directory failure names the non-empty dirname; it never reports a check failure |
| Converter.ConvertRun | audio-converter.py:54-117 | a run asks for no effect exactly when one of the three checks failed; a success names the resolved path |
| Converter.ResolveOutputFile | audio-converter.py:68-82 | the step-by-step reassignment of the output path computes the resolved path |
| Converter.WriteOutput | audio-converter.py:84-117 | directory creation, load and export, stopping at the first failure, produce exactly the outcome and effects of the write specification |
| Converter.ConvertAudio | audio-converter.py:54-117 | the whole conversion produces exactly the outcome and effects of the run specification |
| Converter.SucceedsExactlyWhenEveryStepDoes | audio-converter.py:54-112 | the conversion reports success exactly when every check and every step succeeds, and then names the resolved path |
| Converter.ChecksComeFirst | audio-converter.py:54-66 | the engine, the input file and the format are checked in that order; the first failing check decides the outcome; no effect happens exactly when a check fails |
| Converter.WriteFollowsThePlan | audio-converter.py:84-117 | the writing effects are a non-empty prefix of create-directory, load, export; success means all of them |
| Converter.WriteMakesOnlyTheOutputDirectory | audio-converter.py:84-92 | `makedirs` is asked for exactly the output's own directory, and only when it has one |
| Converter.WriteExportsLast | audio-converter.py:103-117 | the export is asked for exactly when the directory step and the load succeeded, and only for the output path and format |
| Converter.EffectsFollowThePlan | audio-converter.py:84-117 | once the checks pass, the effects are a prefix of the planned ones, and a success has all of them |
| Converter.MakeDirsOnlyForADirectoryPart | audio-converter.py:84-92 | `makedirs` runs exactly when the checks pass and the resolved path has a directory part; its failure ends the run exactly then |
| Converter.ExportOnlyAfterEverythingElse | audio-converter.py:103-117 | no export unless the checks, the directory step and the load succeeded; it targets the resolved path in the requested format |
| Cli.NormalizeSeparators | audio-converter.py:155 | every backslash becomes a slash and every other character stays in place |
| Cli.NormalizedHasNoBackslash | audio-converter.py:155-156 | a normalised path contains no backslash |
| Cli.NormalizeIdempotent | audio-converter.py:155-156 | normalising twice equals normalising once |
| Cli.NormalizeExample | audio-converter.py:155 | `a\b.mp3` becomes `a/b.mp3` |
| Cli.NormalizeOutputArg | audio-converter.py:156 | an absent or empty output argument stays absent; a given one is normalised |
| Cli.ExitCode | audio-converter.py:159 | the status is 0 exactly on success and 1 otherwise |
| Cli.RunCli | audio-converter.py:155-159 | the process exits with 0 exactly when the conversion of the normalised arguments succeeds, else 1, with the effects of that conversion |

## Left out

- `check_ffmpeg` (lines 7-27) is not modelled. Running `ffmpeg -version` and looking for `ffmpeg.exe` are process and file-system calls, so their combined answer is the `ffmpegAvailable` field of `Environment`.
- `os.path.isfile`, `os.path.isdir` and `os.makedirs` are answers in `Environment` rather than a model of a file system. The `exist_ok=True` behaviour is folded into `makedirsSucceeds`.
- pydub's `AudioSegment.from_file` and `export`, and the FFmpeg work behind them, are not modelled. Only whether each raises is modelled: `loadSucceeds` and `exportSucceeds`.
- The messages printed on every path (lines 23-26, 59, 64-65, 89, 91, 105, 108, 111, 115-116, 120) are left out: they are console output only.
- The outer `except` at lines 119-121 is not modelled. It catches exceptions that the inner handlers let through, and its only effect is to make the result False. Examples are a `PermissionError` from `subprocess.run` in `check_ffmpeg`, since line 19 catches only `SubprocessError` and `FileNotFoundError`, and a failing `print`. `os.path.isfile` and `os.path.isdir` never raise: they answer False on an error, which the `Environment` answers cover.
- Argument parsing with `argparse` (lines 127-152) is not modelled, nor is the help-and-exit-1 branch when no argument is given (lines 148-150). These are library and process behaviour. `Cli.RunCli` starts from already parsed arguments.
- Formats.ToLower: maps only `A`-`Z`, whereas Python's `str.lower` is Unicode-aware. The membership verdict is unaffected, because no other character lower-cases to a letter of the seven tokens.
- Only POSIX path semantics are modelled. The program targets Windows, where `os.path` is `ntpath` (drive letters, both separators). After the command line has turned every backslash into a slash, the POSIX rules describe how the separators are split. Drive prefixes such as `C:` are not modelled.

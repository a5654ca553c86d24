/**
 * Where the converted file goes: the stem of the input file and the
 * three-way choice on the optional output argument (audio-converter.py:68-82).
 */
module OutputPath {
  import opened Wrappers
  import opened PosixPath
  import opened Formats

  /** `os.path.splitext(os.path.basename(input_file))[0]`: the input's file name minus its last extension. */
  function Stem(inputFile: string): (stem: string)
    ensures Sep !in stem
    ensures exists ext ::
      && stem + ext == Basename(inputFile)
      && (ext == [] || (ext[0] == ExtSep && ExtSep !in ext[1..]))
  {
    var base := Basename(inputFile);
    var parts := SplitExt(base);
    assert forall c :: c in parts.0 ==> c in base;
    parts.0
  }

  /** `f"{original_filename}.{output_format}"`: the format is used as given, not lower-cased. */
  function TargetName(inputFile: string, outputFormat: string): (name: string)
    ensures Sep !in outputFormat ==> Sep !in name
    ensures ExtSep !in outputFormat ==> LastIndex(name, ExtSep) == |Stem(inputFile)|
  {
    var stem := Stem(inputFile);
    LastIndexAppend(stem + [ExtSep], outputFormat, ExtSep);
    LastIndexUnique(stem + [ExtSep], ExtSep, |stem|);
    stem + [ExtSep] + outputFormat
  }

  /**
   * Python's truthiness of the output argument: `None` and the empty string
   * both mean "no output given".
   */
  predicate Given(outputArg: Option<string>): (given: bool)
    ensures given <==> outputArg != None && outputArg != Some("")
  {
    outputArg.Some? && outputArg.value != []
  }

  /**
   * The output path `convert_audio` hands to the exporter. `outputIsDir` is what
   * `os.path.isdir` says of the output argument; it is only consulted when that
   * argument is given.
   */
  function ResolveOutput(inputFile: string, outputFormat: string, outputArg: Option<string>,
                         outputIsDir: bool): (r: string)
    ensures !Given(outputArg) ==> r == TargetName(inputFile, outputFormat)
    ensures Given(outputArg) && !outputIsDir && Dirname(outputArg.value) == [] ==> r == outputArg.value
    ensures Given(outputArg) && (outputIsDir || Dirname(outputArg.value) != []) ==>
      var name := TargetName(inputFile, outputFormat);
      |name| <= |r| && r[|r| - |name|..] == name
  {
    var name := TargetName(inputFile, outputFormat);
    if !Given(outputArg) then name
    else if outputIsDir then Join(outputArg.value, name)
    else if Dirname(outputArg.value) != [] then Join(Dirname(outputArg.value), name)
    else outputArg.value
  }

  /** A dirname either is all separators or has no trailing separator left to strip. */
  lemma DirnameIsStripped(p: string)
    ensures AllSlashes(Dirname(p)) || RStripSlashes(Dirname(p)) == Dirname(p)
  {
  }

  /**
   * With a plain file name, `splitext` of `stem.fmt` gives back the stem and
   * `.fmt`, provided the stem is not made of dots only.
   */
  lemma {:induction false} SplitTargetName(stem: string, fmt: string)
    requires Sep !in stem && !AllDots(stem)
    requires Sep !in fmt && ExtSep !in fmt
    ensures SplitExt(stem + [ExtSep] + fmt) == (stem, [ExtSep] + fmt)
  {
    var p := stem + [ExtSep] + fmt;
    LastIndexAppend(stem + [ExtSep], fmt, ExtSep);
    LastIndexUnique(stem + [ExtSep], ExtSep, |stem|);
    assert LastIndex(p, ExtSep) == |stem|;
    LastIndexUnique(p, Sep, -1);
    assert p[..|stem|] == stem;
    assert p[0..|stem|] == stem;
    assert p[|stem|..] == [ExtSep] + fmt;
  }

  /**
   * No output argument: the file is named after the input's stem and the
   * requested format and has no directory part, so it lands in the working
   * directory, not next to the input.
   */
  lemma {:induction false} ResolveWithoutOutput(inputFile: string, outputFormat: string,
                                                outputArg: Option<string>, outputIsDir: bool)
    requires !Given(outputArg)
    requires ValidateFormat(outputFormat)
    ensures ResolveOutput(inputFile, outputFormat, outputArg, outputIsDir) ==
      Stem(inputFile) + "." + outputFormat
    ensures Dirname(ResolveOutput(inputFile, outputFormat, outputArg, outputIsDir)) == []
  {
    ValidFormatShape(outputFormat);
    var r := ResolveOutput(inputFile, outputFormat, outputArg, outputIsDir);
    assert r == Stem(inputFile) + [ExtSep] + outputFormat;
    assert Sep !in r;
  }

  /**
   * Output argument that is an existing directory: the file is `stem.fmt` inside
   * it, and the directory to create is that argument minus trailing separators.
   */
  lemma {:induction false} ResolveIntoDirectory(inputFile: string, outputFormat: string, dir: string)
    requires dir != []
    requires ValidateFormat(outputFormat)
    ensures ResolveOutput(inputFile, outputFormat, Some(dir), true) ==
      Join(dir, TargetName(inputFile, outputFormat))
    ensures Basename(ResolveOutput(inputFile, outputFormat, Some(dir), true)) ==
      TargetName(inputFile, outputFormat)
    ensures Dirname(ResolveOutput(inputFile, outputFormat, Some(dir), true)) ==
      if AllSlashes(dir) then dir else RStripSlashes(dir)
  {
    ValidFormatShape(outputFormat);
    var name := TargetName(inputFile, outputFormat);
    assert Sep !in name;
    BasenameOfJoin(dir, name);
    DirnameOfJoin(dir, name);
  }

  /**
   * Output argument that is not a directory but has a directory part: only that
   * directory is kept; the file name supplied in the argument is discarded in
   * favour of `stem.fmt`.
   */
  lemma {:induction false} ResolveKeepsOnlyDirectory(inputFile: string, outputFormat: string, out: string)
    requires Dirname(out) != []
    requires ValidateFormat(outputFormat)
    ensures ResolveOutput(inputFile, outputFormat, Some(out), false) ==
      Join(Dirname(out), TargetName(inputFile, outputFormat))
    ensures Basename(ResolveOutput(inputFile, outputFormat, Some(out), false)) ==
      TargetName(inputFile, outputFormat)
    ensures Dirname(ResolveOutput(inputFile, outputFormat, Some(out), false)) == Dirname(out)
  {
    ValidFormatShape(outputFormat);
    var name := TargetName(inputFile, outputFormat);
    assert Sep !in name;
    assert out != [];
    assert ResolveOutput(inputFile, outputFormat, Some(out), false) == Join(Dirname(out), name);
    BasenameOfJoin(Dirname(out), name);
    DirnameOfJoin(Dirname(out), name);
    DirnameIsStripped(out);
  }

  /**
   * Output argument that is not a directory and has no directory part: it is
   * used verbatim, whatever its name and extension.
   */
  lemma ResolveVerbatim(inputFile: string, outputFormat: string, out: string)
    requires out != [] && Dirname(out) == []
    ensures ResolveOutput(inputFile, outputFormat, Some(out), false) == out
  {
  }

  /**
   * Whenever the output path is rebuilt (every case but the verbatim one), its
   * file name splits into the input's stem and `.` plus the requested format.
   */
  lemma {:induction false} RebuiltPathHasRequestedExtension(inputFile: string, outputFormat: string,
                                                            outputArg: Option<string>, outputIsDir: bool)
    requires ValidateFormat(outputFormat)
    requires !AllDots(Stem(inputFile))
    requires !Given(outputArg) || outputIsDir || Dirname(outputArg.value) != []
    ensures SplitExt(Basename(ResolveOutput(inputFile, outputFormat, outputArg, outputIsDir))) ==
      (Stem(inputFile), "." + outputFormat)
  {
    ValidFormatShape(outputFormat);
    RebuiltFileName(inputFile, outputFormat, outputArg, outputIsDir);
    SplitTargetName(Stem(inputFile), outputFormat);
  }

  /**
   * The other side of the previous lemma: when the input's stem is empty or
   * made of dots only (an input named "..." or "dir/"), the rebuilt file name
   * ("....mp3", ".mp3") has no extension at all for `splitext`.
   */
  lemma {:induction false} DottedStemLosesExtension(inputFile: string, outputFormat: string,
                                                     outputArg: Option<string>, outputIsDir: bool)
    requires ValidateFormat(outputFormat)
    requires AllDots(Stem(inputFile))
    requires !Given(outputArg) || outputIsDir || Dirname(outputArg.value) != []
    ensures SplitExt(Basename(ResolveOutput(inputFile, outputFormat, outputArg, outputIsDir))) ==
      (TargetName(inputFile, outputFormat), [])
  {
    ValidFormatShape(outputFormat);
    RebuiltFileName(inputFile, outputFormat, outputArg, outputIsDir);
    SplitExtLeadingDots(Stem(inputFile), outputFormat);
  }

  /** Whenever the output path is rebuilt, its file name is `stem.fmt`. */
  lemma {:induction false} RebuiltFileName(inputFile: string, outputFormat: string,
                                           outputArg: Option<string>, outputIsDir: bool)
    requires ValidateFormat(outputFormat)
    requires !Given(outputArg) || outputIsDir || Dirname(outputArg.value) != []
    ensures Basename(ResolveOutput(inputFile, outputFormat, outputArg, outputIsDir)) ==
      TargetName(inputFile, outputFormat)
  {
    ValidFormatShape(outputFormat);
    var name := TargetName(inputFile, outputFormat);
    if !Given(outputArg) {
      ResolveWithoutOutput(inputFile, outputFormat, outputArg, outputIsDir);
      LastIndexUnique(name, Sep, -1);
    } else if outputIsDir {
      ResolveIntoDirectory(inputFile, outputFormat, outputArg.value);
    } else {
      ResolveKeepsOnlyDirectory(inputFile, outputFormat, outputArg.value);
    }
  }

  /**
   * The stem of `dir/stem.ext` (or of `stem.ext`) is `stem`, as long as the
   * stem is not made of dots only and the extension has no dot.
   */
  lemma {:induction false} StemOfPath(p: string, dir: string, stem: string, ext: string)
    requires p == dir + stem + [ExtSep] + ext
    requires dir == [] || dir[|dir| - 1] == Sep
    requires Sep !in stem && !AllDots(stem)
    requires Sep !in ext && ExtSep !in ext
    ensures Stem(p) == stem
  {
    var name := stem + [ExtSep] + ext;
    assert Sep !in name;
    assert p == Join(dir, name);
    BasenameOfJoin(dir, name);
    SplitTargetName(stem, ext);
  }

  /**
   * The stem of `dir/dots.ext`, where everything before the last dot is a dot
   * (".hidden", "..wav"), is the whole file name.
   */
  lemma {:induction false} StemOfDottedName(p: string, dir: string, dots: string, ext: string)
    requires p == dir + dots + [ExtSep] + ext
    requires dir == [] || dir[|dir| - 1] == Sep
    requires AllDots(dots)
    requires Sep !in ext && ExtSep !in ext
    ensures Stem(p) == dots + [ExtSep] + ext
  {
    var name := dots + [ExtSep] + ext;
    forall i | 0 <= i < |name| ensures name[i] != Sep {
      if i < |dots| { assert name[i] == dots[i]; }
      else if i > |dots| { assert name[i] == ext[i - |dots| - 1]; }
    }
    assert p == Join(dir, name);
    BasenameOfJoin(dir, name);
    SplitExtLeadingDots(dots, ext);
  }

  /** How the example paths below are spelled out of their parts. */
  lemma ExampleSpellings()
    ensures "a/" + "song" + [ExtSep] + "wav" == "a/song.wav"
    ensures "" + "song" + [ExtSep] + "wav" == "song.wav"
    ensures "x/" + "b.c" + [ExtSep] + "wav" == "x/b.c.wav"
    ensures "song" + [ExtSep] + "mp3" == "song.mp3"
    ensures "song" + [ExtSep] + "MP3" == "song.MP3"
    ensures "song" + [ExtSep] + "flac" == "song.flac"
    ensures "song" + [ExtSep] + "ogg" == "song.ogg"
  {
  }

  /** The stem drops the directory and the extension: "a/song.wav" and "song.wav" give "song". */
  lemma StemExamples()
    ensures Stem("a/song.wav") == "song"
    ensures Stem("song.wav") == "song"
  {
    ExampleSpellings();
    assert !AllDots("song") by { assert "song"[0] != ExtSep; }
    StemOfPath("a/song.wav", "a/", "song", "wav");
    StemOfPath("song.wav", "", "song", "wav");
  }

  /** Only the last extension is dropped: "x/b.c.wav" gives "b.c". */
  lemma StemDropsOnlyLastExtension()
    ensures Stem("x/b.c.wav") == "b.c"
  {
    ExampleSpellings();
    assert !AllDots("b.c") by { assert "b.c"[0] != ExtSep; }
    StemOfPath("x/b.c.wav", "x/", "b.c", "wav");
  }

  /** A name whose only dot leads it has no extension: ".hidden" stays ".hidden". */
  lemma StemKeepsLeadingDot()
    ensures Stem(".hidden") == ".hidden"
  {
    var h := ".hidden";
    LastIndexUnique(h, Sep, -1);
    LastIndexUnique(h, ExtSep, 0);
    assert h[0..] == h;
  }

  /** The file names the examples below produce. */
  lemma TargetNameExamples()
    ensures TargetName("song.wav", "mp3") == "song.mp3"
    ensures TargetName("a/song.wav", "MP3") == "song.MP3"
    ensures TargetName("a/song.wav", "flac") == "song.flac"
    ensures TargetName("a/song.wav", "ogg") == "song.ogg"
  {
    StemExamples();
    ExampleSpellings();
  }

  /** No output argument: "song.wav" to mp3 gives "song.mp3". */
  lemma ResolveExampleWithoutOutput()
    ensures ResolveOutput("song.wav", "mp3", None, false) == "song.mp3"
  {
    TargetNameExamples();
  }

  /** An empty output argument counts as none, and the format keeps its case: "song.MP3". */
  lemma ResolveExampleFormatCase()
    ensures ResolveOutput("a/song.wav", "MP3", Some(""), false) == "song.MP3"
  {
    TargetNameExamples();
  }

  /** Existing directory "b/": "a/song.wav" to flac gives "b/song.flac". */
  lemma ResolveExampleIntoDirectory()
    ensures ResolveOutput("a/song.wav", "flac", Some("b/"), true) == "b/song.flac"
  {
    TargetNameExamples();
    JoinExamples();
  }

  /** Output "c/renamed.ogg": the name "renamed" is dropped and "c/song.ogg" results. */
  lemma ResolveExampleKeepsOnlyDirectory()
    ensures ResolveOutput("a/song.wav", "ogg", Some("c/renamed.ogg"), false) == "c/song.ogg"
  {
    TargetNameExamples();
    JoinExamples();
    DirnameExamples();
  }

  /** Output "renamed.txt": kept as it is, extension included, although mp3 was requested. */
  lemma ResolveExampleVerbatim()
    ensures ResolveOutput("a/song.wav", "mp3", Some("renamed.txt"), false) == "renamed.txt"
  {
    DirnameExamples();
  }
}

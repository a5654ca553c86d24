/**
 * The four POSIX path helpers the converter relies on (Python's `posixpath`):
 * `basename`, `dirname`, `splitext` and `join`. Paths are strings whose
 * separator is `/`; the command line turns every `\` into `/` before any of
 * these run, so the Windows variants are not needed.
 */
module PosixPath {

  const Sep: char := '/'
  const ExtSep: char := '.'

  /** Index of the last occurrence of `c` in `s`, or -1 (Python's `str.rfind`). */
  function LastIndex(s: string, c: char): (r: int)
    ensures -1 <= r < |s|
    ensures r >= 0 ==> s[r] == c
    ensures forall j :: r < j < |s| ==> s[j] != c
    decreases |s|
  {
    if |s| == 0 then -1
    else if s[|s| - 1] == c then |s| - 1
    else LastIndex(s[..|s| - 1], c)
  }

  /** The three facts in LastIndex's contract pin its value down. */
  lemma LastIndexUnique(s: string, c: char, k: int)
    requires -1 <= k < |s|
    requires k >= 0 ==> s[k] == c
    requires forall j :: k < j < |s| ==> s[j] != c
    ensures LastIndex(s, c) == k
  {
  }

  /** The last `c` of `a + b` lies in `b` when `b` has one, and in `a` otherwise. */
  lemma LastIndexAppend(a: string, b: string, c: char)
    ensures LastIndex(a + b, c) ==
      if LastIndex(b, c) >= 0 then |a| + LastIndex(b, c) else LastIndex(a, c)
  {
    var s := a + b;
    var rb := LastIndex(b, c);
    if rb >= 0 {
      forall j | |a| + rb < j < |s| ensures s[j] != c {
        assert s[j] == b[j - |a|];
      }
      LastIndexUnique(s, c, |a| + rb);
    } else {
      var ra := LastIndex(a, c);
      forall j | ra < j < |s| ensures s[j] != c {
        if j >= |a| { assert s[j] == b[j - |a|]; }
      }
      LastIndexUnique(s, c, ra);
    }
  }

  predicate AllSlashes(s: string) {
    forall i :: 0 <= i < |s| ==> s[i] == Sep
  }

  predicate AllDots(s: string) {
    forall i :: 0 <= i < |s| ==> s[i] == ExtSep
  }

  /** `s.rstrip('/')`: drops the trailing run of separators and nothing else. */
  function RStripSlashes(s: string): (r: string)
    ensures |r| <= |s| && r == s[..|r|]
    ensures AllSlashes(s[|r|..])
    ensures r == [] || r[|r| - 1] != Sep
    decreases |s|
  {
    if |s| > 0 && s[|s| - 1] == Sep then RStripSlashes(s[..|s| - 1]) else s
  }

  /** The part of `p` up to and including its last separator. */
  function Head(p: string): string {
    p[..LastIndex(p, Sep) + 1]
  }

  /** `posixpath.basename`: everything after the last separator. */
  function Basename(p: string): (r: string)
    ensures Sep !in r
    ensures |r| <= |p| && r == p[|p| - |r|..]
    ensures |r| < |p| ==> p[|p| - |r| - 1] == Sep
  {
    var i := LastIndex(p, Sep) + 1;
    assert p[..i] + p[i..] == p;
    p[i..]
  }

  /**
   * `posixpath.dirname`: the head with its trailing separators removed, except
   * when the head consists of separators only (then it is kept, e.g. "/" or "//").
   */
  function Dirname(p: string): (r: string)
    ensures Sep in p <==> r != []
    ensures |r| <= |p| && r == p[..|r|]
  {
    var head := Head(p);
    if head != [] && !AllSlashes(head) then
      var r := RStripSlashes(head);
      assert r == p[..|r|] by { assert r == head[..|r|]; }
      r
    else
      head
  }

  /**
   * `posixpath.splitext`: splits at the last dot of the final component, unless
   * everything in that component before the dot is a dot too (".profile",
   * "..wav"), in which case the extension is empty.
   */
  function SplitExt(p: string): (r: (string, string))
    ensures r.0 + r.1 == p
    ensures r.1 == [] || (r.1[0] == ExtSep && ExtSep !in r.1[1..] && Sep !in r.1)
  {
    var sepIndex := LastIndex(p, Sep);
    var dotIndex := LastIndex(p, ExtSep);
    if dotIndex > sepIndex && !AllDots(p[sepIndex + 1..dotIndex]) then
      assert p[..dotIndex] + p[dotIndex..] == p;
      (p[..dotIndex], p[dotIndex..])
    else
      (p, [])
  }

  /**
   * A final component whose part before its last dot is made of dots only
   * (".hidden", "..wav", "....mp3") is not split: its extension is empty.
   */
  lemma {:induction false} SplitExtLeadingDots(dots: string, ext: string)
    requires AllDots(dots)
    requires Sep !in ext && ExtSep !in ext
    ensures SplitExt(dots + [ExtSep] + ext) == (dots + [ExtSep] + ext, [])
  {
    var p := dots + [ExtSep] + ext;
    LastIndexAppend(dots + [ExtSep], ext, ExtSep);
    LastIndexUnique(dots + [ExtSep], ExtSep, |dots|);
    assert LastIndex(p, ExtSep) == |dots|;
    forall i | 0 <= i < |p| ensures p[i] != Sep {
      if i < |dots| { assert p[i] == dots[i]; }
      else if i > |dots| { assert p[i] == ext[i - |dots| - 1]; }
    }
    LastIndexUnique(p, Sep, -1);
    assert p[0..|dots|] == dots;
  }

  /** A name without any dot has no extension. */
  lemma {:induction false} SplitExtWithoutDot(p: string)
    requires ExtSep !in p
    ensures SplitExt(p) == (p, [])
  {
    LastIndexUnique(p, ExtSep, -1);
  }

  /** `posixpath.join` of two components. */
  function Join(a: string, b: string): (r: string)
    ensures |b| > 0 && b[0] == Sep ==> r == b
    ensures !(|b| > 0 && b[0] == Sep) ==>
      && |a| + |b| <= |r| <= |a| + |b| + 1
      && r[..|a|] == a && r[|r| - |b|..] == b
      && (|r| == |a| + |b| + 1 ==> r[|a|] == Sep)
      && (|r| == |a| + |b| + 1 <==> a != [] && a[|a| - 1] != Sep)
  {
    if |b| > 0 && b[0] == Sep then b
    else if a == [] || a[|a| - 1] == Sep then a + b
    else
      a + [Sep] + b
  }

  /** Joining a directory with a plain file name yields a path whose basename is that name. */
  lemma {:induction false} BasenameOfJoin(d: string, name: string)
    requires Sep !in name
    ensures Basename(Join(d, name)) == name
  {
    var j := Join(d, name);
    var front := j[..|j| - |name|];
    assert j == front + name;
    LastIndexAppend(front, name, Sep);
    assert LastIndex(name, Sep) == -1;
  }

  /**
   * Joining a directory with a plain file name yields a path whose dirname is
   * that directory, minus trailing separators (kept when it is all separators).
   */
  lemma {:induction false} DirnameOfJoin(d: string, name: string)
    requires Sep !in name
    ensures Dirname(Join(d, name)) == if AllSlashes(d) then d else RStripSlashes(d)
  {
    var j := Join(d, name);
    LastIndexAppend(if d == [] || d[|d| - 1] == Sep then d else d + [Sep], name, Sep);
    assert LastIndex(name, Sep) == -1;
    if d == [] || d[|d| - 1] == Sep {
      assert j == d + name;
      if d != [] { LastIndexUnique(d, Sep, |d| - 1); }
      assert Head(j) == d;
    } else {
      var d' := d + [Sep];
      assert j == d' + name;
      LastIndexUnique(d', Sep, |d|);
      assert Head(j) == d';
      assert !AllSlashes(d');
      assert RStripSlashes(d') == RStripSlashes(d);
      assert !AllSlashes(d);
      assert RStripSlashes(d) == d;
    }
  }

  /** `join` adds a separator only when the left side lacks one, and an absolute right side wins. */
  lemma JoinExamples()
    ensures Join("b/", "song.flac") == "b/song.flac"
    ensures Join("c", "song.ogg") == "c/song.ogg"
    ensures Join("", "song.mp3") == "song.mp3"
    ensures Join("c", "/abs.mp3") == "/abs.mp3"
  {
    assert "b/" + "song.flac" == "b/song.flac";
    assert "c" + [Sep] + "song.ogg" == "c/song.ogg";
  }

  /** `dirname` of a path with one separator, of a bare name, and of a root-level file. */
  lemma DirnameExamples()
    ensures Dirname("c/renamed.ogg") == "c"
    ensures Dirname("renamed.txt") == ""
    ensures Dirname("/x.mp3") == "/"
  {
    var out := "c/renamed.ogg";
    LastIndexUnique(out, Sep, 1);
    assert Head(out) == "c/";
    assert RStripSlashes("c/") == "c" by { assert "c/"[..1] == "c"; }
    assert !AllSlashes("c/") by { assert "c/"[0] != Sep; }
    LastIndexUnique("renamed.txt", Sep, -1);
    LastIndexUnique("/x.mp3", Sep, 0);
    assert Head("/x.mp3") == "/";
  }
}

/**
 * The fixed list of supported output formats and the case-insensitive
 * membership test applied to the requested format (audio-converter.py:29-43).
 */
module Formats {

  /** The seven format tokens, in the order the tool lists them. */
  function SupportedFormats(): (fs: seq<string>)
    ensures |fs| == 7
    ensures forall i, j :: 0 <= i < j < |fs| ==> fs[i] != fs[j]
    ensures forall i :: 0 <= i < |fs| ==> fs[i] != [] && ToLower(fs[i]) == fs[i]
  {
    ["mp3", "wav", "ogg", "m4a", "flac", "aac", "wma"]
  }

  /**
   * Lower-casing of one character. Python's `str.lower` is Unicode-aware; only
   * A-Z is mapped here, which decides membership exactly, because no other
   * character lower-cases to one of the ASCII letters the tokens are made of.
   */
  function LowerChar(c: char): char {
    if 'A' <= c <= 'Z' then (c as int - 'A' as int + 'a' as int) as char else c
  }

  /** `str.lower`, character by character. */
  function ToLower(s: string): (r: string)
    ensures |r| == |s|
    ensures forall i :: 0 <= i < |s| ==> r[i] == LowerChar(s[i])
  {
    if s == [] then [] else [LowerChar(s[0])] + ToLower(s[1..])
  }

  /** Two strings that differ only in the case of their letters. */
  predicate EqualsIgnoringCase(s: string, t: string) {
    |s| == |t| && forall i :: 0 <= i < |s| ==> LowerChar(s[i]) == LowerChar(t[i])
  }

  /** `validate_format`: lower-case the token and look it up in the supported list. */
  function ValidateFormat(token: string): (ok: bool)
    ensures ok <==> exists t :: t in SupportedFormats() && EqualsIgnoringCase(token, t)
  {
    var fs := SupportedFormats();
    var low := ToLower(token);
    if low in fs then
      assert EqualsIgnoringCase(token, low);
      true
    else
      assert forall t :: t in fs && EqualsIgnoringCase(token, t) ==> low == t by {
        forall t | t in fs && EqualsIgnoringCase(token, t) ensures low == t {
          assert ToLower(t) == t;
        }
      }
      false
  }

  /** Case never matters: two spellings of the same token validate alike. */
  lemma {:induction false} ValidateIgnoresCase(s: string, t: string)
    requires EqualsIgnoringCase(s, t)
    ensures ValidateFormat(s) == ValidateFormat(t)
  {
    assert ToLower(s) == ToLower(t);
  }

  /** Every accepted token is three or four characters without a dot or a separator. */
  lemma ValidFormatShape(token: string)
    requires ValidateFormat(token)
    ensures 3 <= |token| <= 4
    ensures '.' !in token && '/' !in token
  {
    var low := ToLower(token);
    assert low in SupportedFormats();
    forall i | 0 <= i < |token| ensures token[i] != '.' && token[i] != '/' {
      assert low[i] == LowerChar(token[i]);
    }
  }

  /** The requested format may be spelled in any case. */
  lemma ValidateAcceptsAnyCase()
    ensures ValidateFormat("MP3") && ValidateFormat("mp3") && ValidateFormat("Flac")
  {
    assert ToLower("MP3") == "mp3";
    assert ToLower("Flac") == "flac";
  }

  /** Tokens outside the list, the empty one and a dotted extension included, are refused. */
  lemma ValidateRejectsOthers()
    ensures !ValidateFormat("") && !ValidateFormat("xyz") && !ValidateFormat(".mp3")
  {
  }
}

/** The media-extension pattern of internal/tasks/rename/plan.go: a dot and a video
    extension, or a dot, an optional language part and a subtitle extension, at the end of
    the name, in any case. */
module MediaNames {
  import opened Options
  import opened Paths

  /** The extensions of the pattern, in lower case. */
  datatype Media = Media(video: seq<string>, subtitles: seq<string>) {
    ghost predicate Valid() {
      && (forall i | 0 <= i < |video| :: Word(video[i])) && (forall i | 0 <= i < |subtitles| :: Word(subtitles[i]))
      && forall w :: !(w in video && w in subtitles)
    }
  }

  const MEDIA := Media(["mp4", "avi", "wmv", "flv", "mov", "mkv", "webm", "mpg", "mpeg", "3gp", "iso", "ts"],
                       ["ass", "srt", "ssa", "idx", "sub"])

  predicate WordChar(c: char) {
    'a' <= c <= 'z' || '0' <= c <= '9'
  }

  ghost predicate Word(s: string) {
    s != "" && forall i | 0 <= i < |s| :: WordChar(s[i])
  }

  /** The first two letters of a word tell the two lists apart. */
  predicate StartsLikeSubtitle(w: string) {
    |w| > 1 && ((w[0] == 'a' && w[1] == 's') || (w[0] == 's' && w[1] in {'r', 's', 'u'}) ||
                (w[0] == 'i' && w[1] == 'd'))
  }

  lemma MediaIsValid()
    ensures MEDIA.Valid()
  {
    forall i | 0 <= i < |MEDIA.video| ensures Word(MEDIA.video[i]) && !StartsLikeSubtitle(MEDIA.video[i]) {
      VideoWord(i);
    }
    forall i | 0 <= i < |MEDIA.subtitles| ensures Word(MEDIA.subtitles[i]) && StartsLikeSubtitle(MEDIA.subtitles[i]) {
      SubtitleWord(i);
    }
  }

  lemma VideoWord(i: nat)
    requires i < 12
    ensures Word(MEDIA.video[i]) && !StartsLikeSubtitle(MEDIA.video[i])
  {
  }

  lemma SubtitleWord(i: nat)
    requires i < 5
    ensures Word(MEDIA.subtitles[i]) && StartsLikeSubtitle(MEDIA.subtitles[i])
  {
  }

  /** Case-insensitive matching: the long s and the Kelvin sign fold to s and k. */
  function Lower(c: char): char {
    if 'A' <= c <= 'Z' then (c as int + 32) as char
    else if c == '\U{017F}' then 's'
    else if c == '\U{212A}' then 'k'
    else c
  }

  function LowerAll(s: string): (r: string)
    ensures |r| == |s| && forall i | 0 <= i < |s| :: r[i] == Lower(s[i])
  {
    seq(|s|, i requires 0 <= i < |s| => Lower(s[i]))
  }

  predicate IsVideo(m: Media, s: string) {
    LowerAll(s) in m.video
  }

  predicate IsSubtitle(m: Media, s: string) {
    LowerAll(s) in m.subtitles
  }

  predicate LanguageChar(c: char) {
    'a' <= Lower(c) <= 'z' || c == '-' || c == '_'
  }

  predicate IsLanguage(s: string) {
    2 <= |s| <= 5 && forall i | 0 <= i < |s| :: LanguageChar(s[i])
  }

  /** A language part of `k` characters between two dots, and a subtitle extension. */
  predicate Tagged(m: Media, s: string, k: int) {
    2 <= k <= 5 && k + 2 <= |s| && s[0] == '.' && s[k + 1] == '.' && IsLanguage(s[1..k + 1]) &&
      IsSubtitle(m, s[k + 2..])
  }

  /** The whole of `s` matches the pattern. */
  predicate Matches(m: Media, s: string) {
    s != "" && s[0] == '.' && (IsVideo(m, s[1..]) || IsSubtitle(m, s[1..]) || exists k | 2 <= k <= 5 :: Tagged(m, s, k))
  }

  /** The leftmost match in `name` from position `i` on. */
  function MatchFrom(m: Media, name: string, i: nat): (r: Option<nat>)
    requires i <= |name|
    ensures r.Some? ==> i <= r.value <= |name| && Matches(m, name[r.value..])
    ensures r.None? ==> forall j | i <= j <= |name| :: !Matches(m, name[j..])
    ensures r.Some? ==> forall j | i <= j < r.value :: !Matches(m, name[j..])
    decreases |name| - i
  {
    if Matches(m, name[i..]) then Some(i)
    else if i == |name| then None
    else MatchFrom(m, name, i + 1)
  }

  /** The submatch `videoOrSubtitle` finds. */
  function Extension(m: Media, name: string): Option<string> {
    var at := MatchFrom(m, name, 0);
    if at.None? then None else Some(name[at.value..])
  }

  /** `subtitle`: the part after the last dot is a subtitle extension. */
  predicate EndsInSubtitle(m: Media, s: string) {
    exists i | 0 <= i < |s| :: s[i] == '.' && IsSubtitle(m, s[i + 1..])
  }

  // ----- The shape of a match -----

  ghost predicate NoDot(s: string) {
    forall i | 0 <= i < |s| :: s[i] != '.'
  }

  lemma WordHasNoDot(s: string)
    requires Word(LowerAll(s))
    ensures NoDot(s) && s != "" && SafeChars(s)
  {
    forall i | 0 <= i < |s| ensures s[i] != '.' && PlainChar(s[i]) && s[i] != '/' {
      assert WordChar(LowerAll(s)[i]);
    }
  }

  lemma LanguageHasNoDot(s: string)
    requires IsLanguage(s)
    ensures NoDot(s) && SafeChars(s)
  {
    forall i | 0 <= i < |s| ensures s[i] != '.' && PlainChar(s[i]) && s[i] != '/' {
      assert LanguageChar(s[i]);
    }
  }

  function LastDot(s: string): int {
    if s == "" then -1 else if s[|s| - 1] == '.' then |s| - 1 else LastDot(s[..|s| - 1])
  }

  lemma {:induction false} LastDotIs(s: string, k: nat)
    requires k < |s| && s[k] == '.' && NoDot(s[k + 1..])
    ensures LastDot(s) == k
  {
    if k < |s| - 1 {
      assert s[|s| - 1] == s[k + 1..][|s| - k - 2];
      assert s[..|s| - 1][k + 1..] == s[k + 1..][..|s| - k - 2];
      LastDotIs(s[..|s| - 1], k);
    }
  }

  ghost predicate SafeChars(s: string) {
    PlainChars(s) && NoSlash(s)
  }

  lemma SafeConcat(a: string, b: string)
    requires SafeChars(a) && SafeChars(b)
    ensures SafeChars(a + b)
  {
  }

  lemma SafeTagged(m: Media, s: string, k: int)
    requires m.Valid() && Tagged(m, s, k)
    ensures SafeChars(s) && NoDot(s[k + 2..]) && s[k + 2..] != ""
  {
    var word := s[k + 2..];
    assert Word(LowerAll(word));
    WordHasNoDot(word);
    LanguageHasNoDot(s[1..k + 1]);
    SafeConcat(".", s[1..k + 1]);
    SafeConcat("." + s[1..k + 1], ".");
    SafeConcat("." + s[1..k + 1] + ".", word);
    assert s == "." + s[1..k + 1] + "." + word;
  }

  /** A match is a dot and a word, or a dot, a language, a dot and a word. */
  lemma MatchShape(m: Media, s: string) returns (k: nat)
    requires m.Valid() && Matches(m, s)
    ensures k + 1 < |s| && s[0] == '.' && s[k] == '.' && NoDot(s[k + 1..])
    ensures k == 0 ==> IsVideo(m, s[1..]) || IsSubtitle(m, s[1..])
    ensures k > 0 ==> IsLanguage(s[1..k]) && IsSubtitle(m, s[k + 1..])
    ensures SafeChars(s)
  {
    if IsVideo(m, s[1..]) || IsSubtitle(m, s[1..]) {
      k := 0;
      assert Word(LowerAll(s[1..]));
      WordHasNoDot(s[1..]);
      SafeConcat(".", s[1..]);
      assert s == "." + s[1..];
    } else {
      var j :| 2 <= j <= 5 && Tagged(m, s, j);
      k := j + 1;
      SafeTagged(m, s, j);
    }
  }

  /** The last dot of `x + ext` is that of `ext`. */
  lemma LastDotBehind(x: string, ext: string, k: nat, j: nat)
    requires k < |ext| && ext[k] == '.' && NoDot(ext[k + 1..])
    requires j < |x + ext| && (x + ext)[j] == '.' && NoDot((x + ext)[j + 1..])
    ensures j == |x| + k && (x + ext)[j + 1..] == ext[k + 1..]
  {
    assert (x + ext)[|x| + k + 1..] == ext[k + 1..];
    LastDotIs(x + ext, |x| + k);
    LastDotIs(x + ext, j);
  }

  lemma LanguageBehind(x: string, ext: string, j: nat)
    requires |x| > 1 && |x| <= j <= |x + ext| && IsLanguage((x + ext)[1..j])
    ensures LanguageChar(x[|x| - 1])
  {
    assert (x + ext)[1..j][|x| - 2] == x[|x| - 1];
  }

  /** When a longer text matches as well, it does so with a language part. */
  lemma LongerMatch(m: Media, x: string, ext: string)
    requires m.Valid() && Matches(m, ext) && Matches(m, x + ext) && x != ""
    ensures EndsInSubtitle(m, ext)
    ensures x[|x| - 1] == '.' || LanguageChar(x[|x| - 1])
  {
    var k := MatchShape(m, ext);
    var j := MatchShape(m, x + ext);
    LastDotBehind(x, ext, k, j);
    if |x| > 1 {
      LanguageBehind(x, ext, j);
    } else {
      assert x[0] == (x + ext)[0];
    }
  }

  /** The match in `x + ext` is `ext`, if no longer one is. */
  lemma ExtensionIs(m: Media, x: string, ext: string)
    requires Matches(m, ext)
    requires forall i | 0 <= i < |x| :: !Matches(m, x[i..] + ext)
    ensures Extension(m, x + ext) == Some(ext)
  {
    var name := x + ext;
    assert name[|x|..] == ext;
    forall i | 0 <= i < |x| ensures !Matches(m, name[i..]) {
      assert name[i..] == x[i..] + ext;
    }
  }

  lemma VideoExtensionIs(m: Media, x: string, ext: string)
    requires m.Valid() && Matches(m, ext) && !EndsInSubtitle(m, ext)
    ensures Extension(m, x + ext) == Some(ext)
  {
    forall i | 0 <= i < |x| ensures !Matches(m, x[i..] + ext) {
      if Matches(m, x[i..] + ext) {
        LongerMatch(m, x[i..], ext);
      }
    }
    ExtensionIs(m, x, ext);
  }

  /** A subtitle extension behind a number is recognised as it was written. */
  lemma SubtitleExtensionIs(m: Media, x: string, ext: string)
    requires m.Valid() && Matches(m, ext) && EndsInSubtitle(m, ext)
    requires x != "" && !LanguageChar(x[|x| - 1]) && x[|x| - 1] != '.'
    ensures Extension(m, x + ext) == Some(ext)
  {
    forall i | 0 <= i < |x| ensures !Matches(m, x[i..] + ext) {
      if Matches(m, x[i..] + ext) {
        LongerMatch(m, x[i..], ext);
      }
    }
    ExtensionIs(m, x, ext);
  }
}

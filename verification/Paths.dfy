/** Slash-separated paths, as internal/tasks/rename/plan.go checks and takes them apart. */
module Paths {
  /** `strings.Split(s, "/")`. */
  function Split(s: string): (r: seq<string>)
    ensures |r| > 0
  {
    if s == "" then [""]
    else
      var rest := Split(s[1..]);
      if s[0] == '/' then [""] + rest else [[s[0]] + rest[0]] + rest[1..]
  }

  /** `strings.Join(segments, "/")`. */
  function Join(segments: seq<string>): string {
    if segments == [] then ""
    else if |segments| == 1 then segments[0]
    else segments[0] + "/" + Join(segments[1..])
  }

  predicate IsControl(c: char) {
    c < ' ' || '\U{007F}' <= c <= '\U{009F}'
  }

  predicate PlainChar(c: char) {
    !IsControl(c) && c != '\\'
  }

  ghost predicate PlainChars(s: string) {
    forall i | 0 <= i < |s| :: PlainChar(s[i])
  }

  ghost predicate NoSlash(s: string) {
    forall i | 0 <= i < |s| :: s[i] != '/'
  }

  predicate ProperSegment(s: string) {
    s != "" && s != "." && s != ".."
  }

  /** `validPath`. A path that `path.Clean` would change has an improper segment. */
  predicate ValidPath(s: string) {
    && s != "" && (forall i | 0 <= i < |s| :: PlainChar(s[i])) && s[0] != '/'
    && forall i | 0 <= i < |Split(s)| :: ProperSegment(Split(s)[i])
  }

  /** `validName`. */
  predicate ValidName(s: string) {
    ValidPath(s) && forall i | 0 <= i < |s| :: s[i] != '/'
  }

  /** `path.Dir` and `path.Base` of a valid path. */
  function Dir(s: string): string {
    var segments := Split(s);
    if |segments| == 1 then "." else Join(segments[..|segments| - 1])
  }

  function Base(s: string): string {
    var segments := Split(s);
    segments[|segments| - 1]
  }

  // ----- Splitting and joining -----

  lemma JoinEmptyFirst(rest: seq<string>)
    requires rest != []
    ensures Join([""] + rest) == ['/'] + Join(rest)
  {
    assert ([""] + rest)[1..] == rest;
    assert "" + "/" + Join(rest) == ['/'] + Join(rest);
  }

  lemma CharFirst(c: char, a: string, b: string)
    ensures [c] + a + "/" + b == [c] + (a + "/" + b)
  {
  }

  lemma JoinLongerFirst(c: char, rest: seq<string>)
    requires rest != []
    ensures Join([[c] + rest[0]] + rest[1..]) == [c] + Join(rest)
  {
    var longer := [[c] + rest[0]] + rest[1..];
    assert longer[1..] == rest[1..];
    if |rest| > 1 {
      CharFirst(c, rest[0], Join(rest[1..]));
    }
  }

  lemma {:induction false} JoinOfSplit(s: string)
    ensures Join(Split(s)) == s
    ensures forall i | 0 <= i < |Split(s)| :: NoSlash(Split(s)[i])
  {
    if s != "" {
      JoinOfSplit(s[1..]);
      var rest := Split(s[1..]);
      assert s == [s[0]] + s[1..];
      if s[0] == '/' {
        JoinEmptyFirst(rest);
      } else {
        JoinLongerFirst(s[0], rest);
      }
    }
  }

  lemma {:induction false} SplitSegment(a: string)
    requires NoSlash(a)
    ensures Split(a) == [a]
  {
    if a != "" {
      SplitSegment(a[1..]);
      assert [a[0]] + a[1..] == a;
    }
  }

  lemma {:induction false} SplitAtSlash(a: string, s: string)
    requires NoSlash(a)
    ensures Split(a + "/" + s) == [a] + Split(s)
  {
    var t := a + "/" + s;
    if a == "" {
      assert t[1..] == s;
    } else {
      SplitAtSlash(a[1..], s);
      assert t[1..] == a[1..] + "/" + s;
      assert [a[0]] + a[1..] == a;
      assert ([a[1..]] + Split(s))[1..] == Split(s);
    }
  }

  ghost predicate NoSlashes(segments: seq<string>) {
    forall i | 0 <= i < |segments| :: NoSlash(segments[i])
  }

  lemma {:induction false} SplitOfJoin(segments: seq<string>)
    requires segments != [] && NoSlashes(segments)
    ensures Split(Join(segments)) == segments
  {
    if |segments| == 1 {
      SplitSegment(segments[0]);
    } else {
      SplitOfJoin(segments[1..]);
      SplitAtSlash(segments[0], Join(segments[1..]));
      assert segments == [segments[0]] + segments[1..];
    }
  }

  lemma {:induction false} JoinAppend(segments: seq<string>, last: string)
    ensures Join(segments + [last]) == if segments == [] then last else Join(segments) + "/" + last
  {
    if |segments| > 0 {
      JoinAppend(segments[1..], last);
      assert (segments + [last])[1..] == segments[1..] + [last];
      if |segments| > 1 {
        assert segments[0] + "/" + (Join(segments[1..]) + "/" + last)
             == (segments[0] + "/" + Join(segments[1..])) + "/" + last;
      }
    }
  }

  // ----- Valid paths are lists of good segments -----

  ghost predicate GoodSegment(s: string) {
    ProperSegment(s) && PlainChars(s) && NoSlash(s)
  }

  ghost predicate GoodSegments(segments: seq<string>) {
    segments != [] && forall i | 0 <= i < |segments| :: GoodSegment(segments[i])
  }

  lemma {:induction false} JoinChars(segments: seq<string>)
    ensures PlainChars(Join(segments)) <==> forall i | 0 <= i < |segments| :: PlainChars(segments[i])
  {
    if |segments| > 1 {
      var a, rest := segments[0], Join(segments[1..]);
      JoinChars(segments[1..]);
      ConcatChars(a, "/");
      ConcatChars(a + "/", rest);
      assert segments == [a] + segments[1..];
      assert PlainChars("/");
    }
  }

  lemma ConcatChars(a: string, b: string)
    ensures PlainChars(a + b) <==> PlainChars(a) && PlainChars(b)
  {
    if PlainChars(a + b) {
      assert forall i | 0 <= i < |a| :: a[i] == (a + b)[i];
      assert forall i | 0 <= i < |b| :: b[i] == (a + b)[|a| + i];
    }
  }

  lemma JoinIsValid(segments: seq<string>)
    requires GoodSegments(segments)
    ensures ValidPath(Join(segments)) && Split(Join(segments)) == segments
  {
    SplitOfJoin(segments);
    JoinChars(segments);
    assert GoodSegment(segments[0]);
    assert Join(segments) != "" && Join(segments)[0] == segments[0][0];
  }

  lemma ValidSplits(s: string)
    requires ValidPath(s)
    ensures GoodSegments(Split(s)) && Join(Split(s)) == s
  {
    JoinOfSplit(s);
    JoinChars(Split(s));
  }

  /** Not empty, not one or two dots, and without slash, backslash and control characters. */
  ghost predicate AllowedSegment(s: string) {
    && s != "" && s != "." && s != ".."
    && forall i | 0 <= i < |s| :: s[i] != '/' && s[i] != '\\' && 32 <= s[i] as int && !(127 <= s[i] as int <= 159)
  }

  ghost predicate SlashedFrom(s: string, segments: seq<string>) {
    segments != [] && s == Join(segments) && forall i | 0 <= i < |segments| :: AllowedSegment(segments[i])
  }

  lemma AllowedIsGood(s: string)
    ensures AllowedSegment(s) <==> GoodSegment(s)
  {
  }

  /** A path is valid exactly when it is made of allowed segments with slashes between them. */
  lemma ValidExactly(s: string)
    ensures ValidPath(s) <==> exists segments :: SlashedFrom(s, segments)
  {
    forall x ensures AllowedSegment(x) <==> GoodSegment(x) {
      AllowedIsGood(x);
    }
    if ValidPath(s) {
      ValidSplits(s);
      assert SlashedFrom(s, Split(s));
    }
    if segments :| SlashedFrom(s, segments) {
      JoinIsValid(segments);
    }
  }

  lemma ValidNameIsSegment(s: string)
    requires ValidName(s)
    ensures GoodSegment(s)
  {
    SplitSegment(s);
    assert ProperSegment(Split(s)[0]);
  }
}

/** The media-extension pattern spelled out (internal/tasks/rename/plan.go): which texts match it. */
module MediaPatterns {
  import opened Options
  import opened Paths
  import opened MediaNames

  /** The character stands for `w` in any case: itself, its capital, or one of the two other
      characters that fold to a letter. */
  ghost predicate Folds(c: char, w: char) {
    || c == w || ('a' <= w <= 'z' && c as int == w as int - 32)
    || (w == 's' && c == '\U{017F}') || (w == 'k' && c == '\U{212A}')
  }

  ghost predicate FoldsTo(s: string, w: string) {
    |s| == |w| && forall i | 0 <= i < |s| :: Folds(s[i], w[i])
  }

  /** The text is one of the words in some case. */
  ghost predicate OneOf(words: seq<string>, s: string) {
    exists w :: w in words && FoldsTo(s, w)
  }

  lemma LowerFolds(c: char, w: char)
    requires WordChar(w)
    ensures Lower(c) == w <==> Folds(c, w)
  {
  }

  lemma WordFolds(s: string, w: string)
    requires Word(w)
    ensures LowerAll(s) == w <==> FoldsTo(s, w)
  {
    forall i | 0 <= i < |s| && i < |w| ensures Lower(s[i]) == w[i] <==> Folds(s[i], w[i]) {
      LowerFolds(s[i], w[i]);
    }
    assert LowerAll(s) == w ==> |s| == |w| && forall i | 0 <= i < |s| :: LowerAll(s)[i] == w[i];
    if FoldsTo(s, w) {
      assert forall i | 0 <= i < |s| :: Lower(s[i]) == w[i];
      assert LowerAll(s) == w;
    }
  }

  lemma WordsFold(words: seq<string>, s: string)
    requires forall i | 0 <= i < |words| :: Word(words[i])
    ensures LowerAll(s) in words <==> OneOf(words, s)
  {
    forall w | w in words ensures LowerAll(s) == w <==> FoldsTo(s, w) {
      WordFolds(s, w);
    }
  }

  /** Letters of both cases, hyphen and underscore, and the two that fold to a letter. */
  predicate TagChar(c: char) {
    'a' <= c <= 'z' || 'A' <= c <= 'Z' || c == '-' || c == '_' || c == '\U{017F}' || c == '\U{212A}'
  }

  ghost predicate Plain(m: Media, s: string, ending: string) {
    s == "." + ending && (OneOf(m.video, ending) || OneOf(m.subtitles, ending))
  }

  ghost predicate WithTag(m: Media, s: string, tag: string, ending: string) {
    && s == "." + (tag + ("." + ending)) && OneOf(m.subtitles, ending)
    && 2 <= |tag| <= 5 && forall i | 0 <= i < |tag| :: TagChar(tag[i])
  }

  lemma TagIsLanguage(tag: string)
    ensures IsLanguage(tag) <==> 2 <= |tag| <= 5 && forall i | 0 <= i < |tag| :: TagChar(tag[i])
  {
    forall c ensures LanguageChar(c) <==> TagChar(c) {
    }
  }

  lemma TaggedParts(m: Media, s: string, k: int)
    requires m.Valid() && Tagged(m, s, k)
    ensures WithTag(m, s, s[1..k + 1], s[k + 2..])
  {
    WordsFold(m.subtitles, s[k + 2..]);
    TagIsLanguage(s[1..k + 1]);
    assert s == "." + (s[1..k + 1] + ("." + s[k + 2..]));
  }

  lemma PartsTagged(m: Media, s: string, tag: string, ending: string)
    requires m.Valid() && WithTag(m, s, tag, ending)
    ensures Tagged(m, s, |tag|)
  {
    WordsFold(m.subtitles, ending);
    TagIsLanguage(tag);
    assert s[1..|tag| + 1] == tag && s[|tag| + 2..] == ending;
  }

  lemma PlainMatches(m: Media, s: string, ending: string)
    requires m.Valid() && Plain(m, s, ending)
    ensures Matches(m, s)
  {
    assert s[1..] == ending;
    WordsFold(m.video, ending);
    WordsFold(m.subtitles, ending);
  }

  lemma MatchesPlain(m: Media, s: string)
    requires m.Valid() && s != "" && s[0] == '.' && (IsVideo(m, s[1..]) || IsSubtitle(m, s[1..]))
    ensures Plain(m, s, s[1..])
  {
    assert s == "." + s[1..];
    WordsFold(m.video, s[1..]);
    WordsFold(m.subtitles, s[1..]);
  }

  ghost predicate Shaped(m: Media, s: string) {
    (exists ending :: Plain(m, s, ending)) || (exists tag, ending :: WithTag(m, s, tag, ending))
  }

  lemma ShapedMatches(m: Media, s: string)
    requires m.Valid() && Shaped(m, s)
    ensures Matches(m, s)
  {
    if exists ending :: Plain(m, s, ending) {
      var ending :| Plain(m, s, ending);
      PlainMatches(m, s, ending);
    } else {
      var tag, ending :| WithTag(m, s, tag, ending);
      PartsTagged(m, s, tag, ending);
    }
  }

  /** A text matches the pattern exactly when it is a dot and an extension in any case, or a dot, a
      tag of two to five letters, hyphens and underscores, a dot and a subtitle extension. */
  lemma MatchesExactly(m: Media, s: string)
    requires m.Valid()
    ensures Matches(m, s) <==> Shaped(m, s)
  {
    if Shaped(m, s) {
      ShapedMatches(m, s);
    } else if Matches(m, s) {
      if IsVideo(m, s[1..]) || IsSubtitle(m, s[1..]) {
        MatchesPlain(m, s);
      } else {
        var k :| 2 <= k <= 5 && Tagged(m, s, k);
        TaggedParts(m, s, k);
      }
    }
  }

  // ----- Subtitles -----

  ghost predicate Behind(m: Media, s: string, front: string, ending: string) {
    s == front + ("." + ending) && OneOf(m.subtitles, ending)
  }

  lemma BehindEnds(m: Media, s: string, front: string, ending: string)
    requires m.Valid() && Behind(m, s, front, ending)
    ensures EndsInSubtitle(m, s)
  {
    WordsFold(m.subtitles, ending);
    var i := |front|;
    assert s[i] == '.' && s[i + 1..] == ending;
  }

  lemma EndsBehind(m: Media, s: string, i: nat)
    requires m.Valid() && i < |s| && s[i] == '.' && IsSubtitle(m, s[i + 1..])
    ensures Behind(m, s, s[..i], s[i + 1..])
  {
    WordsFold(m.subtitles, s[i + 1..]);
    assert s == s[..i] + ("." + s[i + 1..]);
  }

  /** The second pattern: the text ends in a dot and a subtitle extension in any case. */
  lemma EndsInSubtitleExactly(m: Media, s: string)
    requires m.Valid()
    ensures EndsInSubtitle(m, s) <==> exists front, ending :: Behind(m, s, front, ending)
  {
    if exists front, ending :: Behind(m, s, front, ending) {
      var front, ending :| Behind(m, s, front, ending);
      BehindEnds(m, s, front, ending);
    } else if EndsInSubtitle(m, s) {
      var i :| 0 <= i < |s| && s[i] == '.' && IsSubtitle(m, s[i + 1..]);
      EndsBehind(m, s, i);
    }
  }
}

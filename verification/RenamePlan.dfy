/** Rename plans for the files of a Radarr download (internal/tasks/rename/plan.go). */
module RenamePlan {
  import opened Options
  import opened Text
  import opened Decimal
  import opened Paths
  import opened MediaNames
  import opened FilePlans

  /** `withSuffix`: the part of the title from its first " [" on is put behind the name. */
  function WithSuffix(name: string, title: string): string {
    var index := Index(title, " [");
    if index >= 0 then name + title[index..] else name
  }

  /** What `radarrName` puts before the extension. */
  function Stem(title: string): string {
    WithSuffix(title, title)
  }

  /** A title is its own stem, unless it has a part from " [" on: that part is then there twice. */
  lemma StemIs(front: string, back: string)
    requires Lacks(front, " [")
    ensures Stem(front) == front && Stem(front + " [" + back) == front + " [" + back + " [" + back
  {
    var title := front + (" [" + back);
    IndexSpec(front, " [");
    MatchInMiddle(front, " [", back);
    IndexSpec(title, " [");
    forall i: nat | i < |front| ensures !MatchAt(title, " [", i) {
      if i + 2 <= |front| {
        MatchInPrefix(front, " [" + back, " [", i);
      } else {
        assert MatchAt(title, " [", i) ==> Same(title, " [", i, 1);
      }
    }
    assert title == front + " [" + back && title[|front|..] == " [" + back;
  }

  function Numbered(stem: string, number: nat): string {
    stem + "." + Format(number)
  }

  /** `radarrName`: the new name, and the number of the next subtitle. */
  function RadarrName(m: Media, stem: string, oldName: string, number: nat): (string, nat) {
    var ext := Extension(m, oldName);
    if ext.None? then (oldName, number)
    else if EndsInSubtitle(m, ext.value) then (Numbered(stem, number) + ext.value, number + 1)
    else (stem + ext.value, number)
  }

  function RadarrNamer(m: Media, stem: string): Namer {
    (name, number) => RadarrName(m, stem, name, number)
  }

  function RadarrPlan(title: string, files: seq<string>): Outcome {
    Planned(title, files, RadarrNamer(MEDIA, Stem(title)))
  }

  method PlanRadarrFiles(title: string, files: seq<string>) returns (r: Outcome)
    ensures r == RadarrPlan(title, files)
  {
    r := PlanFiles(title, files, RadarrNamer(MEDIA, Stem(title)));
  }

  // ----- Names -----

  lemma StemIsSafe(title: string)
    requires ValidName(title)
    ensures SafeChars(Stem(title)) && Stem(title) != ""
  {
    ValidNameIsSegment(title);
  }

  lemma NumberedIsSafe(stem: string, number: nat)
    requires SafeChars(stem)
    ensures SafeChars(Numbered(stem, number))
  {
    forall i | 0 <= i < |Format(number)| ensures PlainChar(Format(number)[i]) && Format(number)[i] != '/' {
      assert IsDigit(Format(number)[i]);
    }
    SafeConcat(stem, ".");
    SafeConcat(stem + ".", Format(number));
  }

  lemma NumberedEndsInDigit(stem: string, number: nat)
    ensures var x := Numbered(stem, number); x != "" && IsDigit(x[|x| - 1])
  {
    var digits := Format(number);
    assert Numbered(stem, number)[|stem| + |digits|] == digits[|digits| - 1];
  }

  lemma LongIsGood(a: string, b: string)
    requires SafeChars(a) && SafeChars(b) && a != "" && |b| > 1
    ensures GoodSegment(a + b)
  {
    SafeConcat(a, b);
  }

  /** A new name may stand in a path. */
  lemma NameIsGood(m: Media, stem: string, oldName: string, number: nat)
    requires m.Valid() && SafeChars(stem) && stem != ""
    ensures GoodAt(RadarrNamer(m, stem), oldName, number)
  {
    var ext := Extension(m, oldName);
    if ext.Some? {
      var k := MatchShape(m, ext.value);
      NumberedIsSafe(stem, number);
      NumberedEndsInDigit(stem, number);
      if EndsInSubtitle(m, ext.value) {
        LongIsGood(Numbered(stem, number), ext.value);
      } else {
        LongIsGood(stem, ext.value);
      }
    }
  }

  /** The new name of a file has the extension that the old one has. */
  lemma ExtensionStays(m: Media, stem: string, oldName: string, number: nat)
    requires m.Valid()
    ensures Extension(m, RadarrName(m, stem, oldName, number).0) == Extension(m, oldName)
  {
    var ext := Extension(m, oldName);
    if ext.Some? {
      if EndsInSubtitle(m, ext.value) {
        NumberedEndsInDigit(stem, number);
        SubtitleExtensionIs(m, Numbered(stem, number), ext.value);
      } else {
        VideoExtensionIs(m, stem, ext.value);
      }
    }
  }

  lemma NamerIsFit(m: Media, stem: string)
    requires m.Valid() && SafeChars(stem) && stem != ""
    ensures KeepsNamesGood(RadarrNamer(m, stem)) && Stable(RadarrNamer(m, stem))
  {
    forall name, number ensures GoodAt(RadarrNamer(m, stem), name, number) {
      NameIsGood(m, stem, name, number);
    }
    forall name, number ensures StableAt(RadarrNamer(m, stem), name, number) {
      ExtensionStays(m, stem, name, number);
    }
  }

  /** On a valid title and valid paths planning never fails: there is no plan if a file lies
      in place already, and otherwise one rename per file, in order; new paths are valid
      and keep the middle directories. */
  lemma RadarrPlanIs(title: string, files: seq<string>)
    requires ValidName(title) && ValidPaths(files)
    ensures var makeName := RadarrNamer(MEDIA, Stem(title));
      && Planned(title, files, makeName)
         == (if AnyInPlace(title, files, 0) then NoPlan else Plan(Renames(title, files, makeName, |files|)))
      && forall i | 0 <= i < |files| :: NewPathOk(title, files, makeName, i) && KeepsMiddle(title, files, makeName, i)
  {
    MediaIsValid();
    StemIsSafe(title);
    NamerIsFit(MEDIA, Stem(title));
    var makeName := RadarrNamer(MEDIA, Stem(title));
    PlanIs(title, files, makeName);
    forall i | 0 <= i < |files| ensures NewPathOk(title, files, makeName, i) && KeepsMiddle(title, files, makeName, i) {
      NewPathIsValid(title, files, makeName, i);
    }
  }

  ghost predicate KeepsMiddle(title: string, files: seq<string>, makeName: Namer, i: nat)
    requires i < |files|
  {
    Split(RenameAt(title, files, makeName, i).newPath)
         == [title] + Middle(Split(files[i])) + [NameAt(files, makeName, i)]
  }

  /** Planning again on the new paths gives no plan or one that changes nothing. */
  lemma RadarrReplanningIsIdle(title: string, files: seq<string>)
    requires ValidName(title) && ValidPaths(files)
    ensures var makeName := RadarrNamer(MEDIA, Stem(title));
      var again := NewPaths(Renames(title, files, makeName, |files|));
      Planned(title, again, makeName) == if AnyShallow(files) then NoPlan else Plan(Unchanged(again))
  {
    MediaIsValid();
    StemIsSafe(title);
    NamerIsFit(MEDIA, Stem(title));
    ReplanningIsIdle(title, files, RadarrNamer(MEDIA, Stem(title)));
  }

  // ----- Subtitles and collisions -----

  predicate IsSubtitleFile(m: Media, path: string) {
    Extension(m, Base(path)).Some? && EndsInSubtitle(m, Extension(m, Base(path)).value)
  }

  function CountSubtitles(m: Media, files: seq<string>, n: nat): nat
    requires n <= |files|
  {
    if n == 0 then 0 else CountSubtitles(m, files, n - 1) + if IsSubtitleFile(m, files[n - 1]) then 1 else 0
  }

  /** Subtitles are numbered from 1 in the order of the files, without gaps. */
  lemma {:induction false} SubtitlesAreNumbered(m: Media, stem: string, files: seq<string>, i: nat)
    requires i <= |files|
    ensures NumberAt(files, RadarrNamer(m, stem), i) == 1 + CountSubtitles(m, files, i)
    ensures i < |files| && IsSubtitleFile(m, files[i]) ==>
      NameAt(files, RadarrNamer(m, stem), i)
      == Numbered(stem, 1 + CountSubtitles(m, files, i)) + Extension(m, Base(files[i])).value
  {
    if i > 0 {
      SubtitlesAreNumbered(m, stem, files, i - 1);
    }
  }

  lemma {:induction false} NumbersGrow(m: Media, files: seq<string>, i: nat, j: nat)
    requires i < j <= |files| && IsSubtitleFile(m, files[i])
    ensures CountSubtitles(m, files, i) < CountSubtitles(m, files, j)
    decreases j
  {
    if i + 1 < j {
      NumbersGrow(m, files, i, j - 1);
    }
  }

  lemma SameNumber(stem: string, a: nat, b: nat, ext: string)
    requires Numbered(stem, a) + ext == Numbered(stem, b) + ext
    ensures a == b
  {
    var s, n := Numbered(stem, a) + ext, |stem| + 1;
    assert |Format(a)| == |Format(b)|;
    assert Format(a) == s[n..n + |Format(a)|];
    assert Format(b) == (Numbered(stem, b) + ext)[n..n + |Format(b)|];
    FormatInjective(a, b);
  }

  /** Two files that are both no media files and of one name, or both videos with one extension. */
  predicate NamesMeet(m: Media, a: string, b: string) {
    var ext := Extension(m, Base(a));
    if ext.None? then Base(a) == Base(b)
    else Extension(m, Base(b)) == ext && !EndsInSubtitle(m, ext.value)
  }

  lemma NamesMeetExactly(m: Media, stem: string, files: seq<string>, i: nat, j: nat)
    requires m.Valid() && i < j < |files|
    ensures NameAt(files, RadarrNamer(m, stem), i) == NameAt(files, RadarrNamer(m, stem), j) <==>
      NamesMeet(m, files[i], files[j])
  {
    var p, q := NumberAt(files, RadarrNamer(m, stem), i), NumberAt(files, RadarrNamer(m, stem), j);
    ExtensionStays(m, stem, Base(files[i]), p);
    ExtensionStays(m, stem, Base(files[j]), q);
    SubtitlesAreNumbered(m, stem, files, i);
    SubtitlesAreNumbered(m, stem, files, j);
    if IsSubtitleFile(m, files[i]) {
      NumbersGrow(m, files, i, j);
      if NameAt(files, RadarrNamer(m, stem), i) == NameAt(files, RadarrNamer(m, stem), j) {
        SameNumber(stem, p, q, Extension(m, Base(files[i])).value);
      }
    }
  }

  lemma NewPathsMeet(title: string, files: seq<string>, i: nat, j: nat)
    requires ValidName(title) && ValidPaths(files) && i < j < |files|
    ensures var makeName := RadarrNamer(MEDIA, Stem(title));
      RenameAt(title, files, makeName, i).newPath == RenameAt(title, files, makeName, j).newPath <==>
        Middle(Split(files[i])) == Middle(Split(files[j])) && NamesMeet(MEDIA, files[i], files[j])
  {
    var makeName := RadarrNamer(MEDIA, Stem(title));
    MediaIsValid();
    StemIsSafe(title);
    NamerIsFit(MEDIA, Stem(title));
    NewPathIsValid(title, files, makeName, i);
    NewPathIsValid(title, files, makeName, j);
    NamesMeetExactly(MEDIA, Stem(title), files, i, j);
  }

  /** In every plan two files get the same new path exactly when they have the same middle
      directories and are two videos with one extension, or two files of one name that are no
      media files. A subtitle never shares its new path. */
  lemma PathsMeetExactly(title: string, files: seq<string>, i: nat, j: nat)
    requires RadarrPlan(title, files).Plan? && i < j < |files|
    ensures var plan := RadarrPlan(title, files).renames;
      && |plan| == |files| && plan[i].oldPath == files[i] && plan[j].oldPath == files[j]
      && (plan[i].newPath == plan[j].newPath <==>
            Middle(Split(files[i])) == Middle(Split(files[j])) && NamesMeet(MEDIA, files[i], files[j]))
  {
    RadarrPlanIs(title, files);
    NewPathsMeet(title, files, i, j);
  }

  /** Two videos in one directory. */
  function TwoVideos(dir: string, x: string, y: string, ext: string): seq<string> {
    [Join([dir, x + ext]), Join([dir, y + ext])]
  }

  lemma VideoPath(title: string, dir: string, x: string, ext: string)
    requires ValidName(title) && GoodSegments([dir, x + ext]) && Matches(MEDIA, ext) && !EndsInSubtitle(MEDIA, ext)
    ensures var path := Join([dir, x + ext]);
      && ValidPath(path) && Base(path) == x + ext && (InPlace(title, path) <==> dir == title)
      && NewPath(title, path, RadarrName(MEDIA, Stem(title), Base(path), 1).0) == Join([title, Stem(title) + ext])
      && RadarrName(MEDIA, Stem(title), Base(path), 1).1 == 1
  {
    var path := Join([dir, x + ext]);
    JoinIsValid([dir, x + ext]);
    MediaIsValid();
    VideoExtensionIs(MEDIA, x, ext);
    DirIsTitle(title, path);
    assert [title] + Middle(Split(path)) + [Stem(title) + ext] == [title, Stem(title) + ext];
  }

  /** The plan for two files that get one new path without a number. */
  lemma TwoFilesPlan(title: string, a: string, b: string, newPath: string)
    requires ValidName(title) && ValidPaths([a, b])
    requires forall path | path in [a, b] ::
      && RadarrName(MEDIA, Stem(title), Base(path), 1).1 == 1
      && NewPath(title, path, RadarrName(MEDIA, Stem(title), Base(path), 1).0) == newPath
    ensures RadarrPlan(title, [a, b]) ==
      if InPlace(title, a) || InPlace(title, b) then NoPlan else Plan([FileRename(a, newPath), FileRename(b, newPath)])
  {
    var files := [a, b];
    var makeName := RadarrNamer(MEDIA, Stem(title));
    RadarrPlanIs(title, files);
    assert AnyInPlace(title, files, 0) <==> InPlace(title, files[0]) || InPlace(title, files[1]);
    assert NumberAt(files, makeName, 0) == NumberAt(files, makeName, 1) == 1;
    assert files[0] in [a, b] && files[1] in [a, b];
  }

  /** So all videos of one extension in one directory get the same new path, whatever they are
      called; there is a plan exactly when the directory is not named like the title. */
  lemma VideosMeet(title: string, dir: string, x: string, y: string, ext: string)
    requires ValidName(title) && GoodSegments([dir, x + ext]) && GoodSegments([dir, y + ext])
    requires Matches(MEDIA, ext) && !EndsInSubtitle(MEDIA, ext)
    ensures var files := TwoVideos(dir, x, y, ext);
      var newPath := Join([title, Stem(title) + ext]);
      RadarrPlan(title, files) ==
        if dir == title then NoPlan else Plan([FileRename(files[0], newPath), FileRename(files[1], newPath)])
    ensures x != y ==> TwoVideos(dir, x, y, ext)[0] != TwoVideos(dir, x, y, ext)[1]
  {
    var files := TwoVideos(dir, x, y, ext);
    VideoPath(title, dir, x, ext);
    VideoPath(title, dir, y, ext);
    TwoFilesPlan(title, files[0], files[1], Join([title, Stem(title) + ext]));
    if x + ext == y + ext {
      assert x == (x + ext)[..|x|] == (y + ext)[..|y|] == y;
    }
  }

  lemma WordExtension(m: Media, word: string)
    requires m.Valid() && Word(word) && word in m.video && LowerAll(word) == word
    ensures Matches(m, "." + word) && !EndsInSubtitle(m, "." + word)
  {
    var ext := "." + word;
    assert ext[1..] == word;
    forall i | 0 <= i < |ext| && ext[i] == '.' ensures !IsSubtitle(m, ext[i + 1..]) {
      assert i > 0 ==> WordChar(word[i - 1]);
    }
  }

  lemma OneLetterSegment(c: char, word: string)
    requires 'a' <= c <= 'z' && Word(word)
    ensures GoodSegment([c]) && GoodSegment([c] + ("." + word))
  {
    var s := [c] + ("." + word);
    forall i | 0 <= i < |s| ensures PlainChar(s[i]) && s[i] != '/' {
      assert i > 1 ==> s[i] == word[i - 2] && WordChar(word[i - 2]);
    }
  }

  lemma Mkv()
    ensures Word("mkv") && "mkv" in MEDIA.video && LowerAll("mkv") == "mkv"
  {
    assert MEDIA.video[5] == "mkv";
    var lower := LowerAll("mkv");
    assert lower[0] == 'm' && lower[1] == 'k' && lower[2] == 'v';
  }

  /** For example d/a.mkv and d/b.mkv, for every title but d. */
  lemma TwoVideosOnePath(title: string)
    requires ValidName(title) && title != "d"
    ensures var files := TwoVideos("d", "a", "b", ".mkv");
      && RadarrPlan(title, files).Plan? && files[0] != files[1]
      && RadarrPlan(title, files).renames[0].newPath == RadarrPlan(title, files).renames[1].newPath
  {
    Mkv();
    MediaIsValid();
    WordExtension(MEDIA, "mkv");
    OneLetterSegment('a', "mkv");
    OneLetterSegment('b', "mkv");
    OneLetterSegment('d', "mkv");
    assert "." + "mkv" == ".mkv";
    VideosMeet(title, "d", "a", "b", ".mkv");
  }
}

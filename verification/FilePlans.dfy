/** The planning loop of internal/tasks/rename/plan.go, for any way of naming files. */
module FilePlans {
  import opened Paths

  datatype FileRename = FileRename(oldPath: string, newPath: string)

  /** `Invalid` is ErrInvalidPath; `NoPlan` is a nil plan without an error. */
  datatype Outcome = Invalid | NoPlan | Plan(renames: seq<FileRename>)

  /** From a file name and the number of the next subtitle: the new name and the number of
      the subtitle after that. */
  type Namer = (string, nat) -> (string, nat)

  /** The directories between the first and the file name. */
  function Middle(segments: seq<string>): seq<string> {
    if |segments| <= 2 then [] else segments[1..|segments| - 1]
  }

  function NewPath(title: string, oldPath: string, name: string): string {
    Join([title] + Middle(Split(oldPath)) + [name])
  }

  /** The file lies directly in a directory named like the title. */
  predicate InPlace(title: string, path: string) {
    Dir(path) == title
  }

  function PlanFrom(title: string, files: seq<string>, makeName: Namer, i: nat, number: nat,
                    done: seq<FileRename>): Outcome
    requires i <= |files|
    decreases |files| - i
  {
    if i == |files| then Plan(done)
    else if InPlace(title, files[i]) then NoPlan
    else
      var named := makeName(Base(files[i]), number);
      var newPath := NewPath(title, files[i], named.0);
      if !ValidPath(newPath) then Invalid
      else PlanFrom(title, files, makeName, i + 1, named.1, done + [FileRename(files[i], newPath)])
  }

  predicate ValidPaths(files: seq<string>) {
    forall i | 0 <= i < |files| :: ValidPath(files[i])
  }

  function Planned(title: string, files: seq<string>, makeName: Namer): Outcome {
    if !ValidName(title) || !ValidPaths(files) then Invalid else PlanFrom(title, files, makeName, 0, 1, [])
  }

  lemma NewPathText(title: string, oldPath: string, name: string)
    ensures var segments := Split(oldPath);
      NewPath(title, oldPath, name) ==
        if |segments| == 1 then title + "/" + name
        else title + "/" + Join(segments[1..|segments| - 1]) + (if |segments| > 2 then "/" else "") + name
  {
    var segments := Split(oldPath);
    var mid := Middle(segments);
    JoinAppend([title] + mid, name);
    if mid == [] {
      assert [title] + mid == [title];
    } else {
      assert ([title] + mid)[1..] == mid;
    }
  }

  /** The new path as the loop puts it together. */
  method JoinNewPath(title: string, oldPath: string, name: string) returns (newPath: string)
    ensures newPath == NewPath(title, oldPath, name)
  {
    var segments := Split(oldPath);
    NewPathText(title, oldPath, name);
    if |segments| == 1 {
      newPath := title + "/" + name;
    } else {
      newPath := title + "/" + Join(segments[1..|segments| - 1]);
      if |segments| > 2 {
        newPath := newPath + "/";
      }
      newPath := newPath + name;
    }
  }

  method CheckPaths(files: seq<string>) returns (ok: bool)
    ensures ok == ValidPaths(files)
  {
    for i := 0 to |files|
      invariant forall j | 0 <= j < i :: ValidPath(files[j])
    {
      if !ValidPath(files[i]) {
        return false;
      }
    }
    ok := true;
  }

  lemma PlanTurn(title: string, files: seq<string>, makeName: Namer, i: nat, number: nat, done: seq<FileRename>)
    requires i < |files|
    ensures var named := makeName(Base(files[i]), number);
      var newPath := NewPath(title, files[i], named.0);
      PlanFrom(title, files, makeName, i, number, done) ==
        if InPlace(title, files[i]) then NoPlan
        else if !ValidPath(newPath) then Invalid
        else PlanFrom(title, files, makeName, i + 1, named.1, done + [FileRename(files[i], newPath)])
  {
  }

  lemma NothingLeft(title: string, files: seq<string>, makeName: Namer, number: nat, done: seq<FileRename>)
    ensures PlanFrom(title, files, makeName, |files|, number, done) == Plan(done)
  {
  }

  method PlanFiles(title: string, files: seq<string>, makeName: Namer) returns (r: Outcome)
    ensures r == Planned(title, files, makeName)
  {
    if !ValidName(title) {
      return Invalid;
    }
    var ok := CheckPaths(files);
    if !ok {
      return Invalid;
    }
    var result: seq<FileRename> := [];
    var number := 1;
    ghost var planned := PlanFrom(title, files, makeName, 0, 1, []);
    assert planned == Planned(title, files, makeName);
    for i := 0 to |files|
      invariant planned == PlanFrom(title, files, makeName, i, number, result)
    {
      PlanTurn(title, files, makeName, i, number, result);
      var oldPath := files[i];
      if Dir(oldPath) == title {
        return NoPlan;
      }
      var named := makeName(Base(oldPath), number);
      var newPath := JoinNewPath(title, oldPath, named.0);
      if !ValidPath(newPath) {
        return Invalid;
      }
      result := result + [FileRename(oldPath, newPath)];
      number := named.1;
    }
    NothingLeft(title, files, makeName, number, result);
    r := Plan(result);
  }

  // ----- What a plan is -----

  /** The number the next subtitle gets when file `i` is reached. */
  function NumberAt(files: seq<string>, makeName: Namer, i: nat): nat
    requires i <= |files|
  {
    if i == 0 then 1 else makeName(Base(files[i - 1]), NumberAt(files, makeName, i - 1)).1
  }

  function NameAt(files: seq<string>, makeName: Namer, i: nat): string
    requires i < |files|
  {
    makeName(Base(files[i]), NumberAt(files, makeName, i)).0
  }

  function RenameAt(title: string, files: seq<string>, makeName: Namer, i: nat): FileRename
    requires i < |files|
  {
    FileRename(files[i], NewPath(title, files[i], NameAt(files, makeName, i)))
  }

  /** The renames of the first `n` files, in order. */
  function Renames(title: string, files: seq<string>, makeName: Namer, n: nat): (r: seq<FileRename>)
    requires n <= |files|
    ensures |r| == n && forall i | 0 <= i < n :: r[i] == RenameAt(title, files, makeName, i)
  {
    if n == 0 then [] else Renames(title, files, makeName, n - 1) + [RenameAt(title, files, makeName, n - 1)]
  }

  /** New names may stand in a path. */
  ghost predicate KeepsNamesGood(makeName: Namer) {
    forall name, number :: GoodAt(makeName, name, number)
  }

  ghost predicate GoodAt(makeName: Namer, name: string, number: nat) {
    GoodSegment(name) ==> GoodSegment(makeName(name, number).0)
  }

  lemma DirIsTitle(title: string, path: string)
    requires ValidName(title) && ValidPath(path)
    ensures InPlace(title, path) <==> |Split(path)| == 2 && Split(path)[0] == title
  {
    ValidSplits(path);
    ValidNameIsSegment(title);
    DirOfSegments(title, Split(path));
  }

  lemma DirOfSegments(title: string, segments: seq<string>)
    requires GoodSegment(title) && GoodSegments(segments)
    ensures (if |segments| == 1 then "." else Join(segments[..|segments| - 1])) == title <==>
      |segments| == 2 && segments[0] == title
  {
    if |segments| > 1 {
      SplitOfJoin(segments[..|segments| - 1]);
      SplitSegment(title);
    }
  }

  lemma MiddleIsGood(path: string)
    requires ValidPath(path)
    ensures GoodSegment(Base(path)) && forall i | 0 <= i < |Middle(Split(path))| :: GoodSegment(Middle(Split(path))[i])
  {
    ValidSplits(path);
  }

  lemma NewPathSplits(title: string, path: string, name: string)
    requires ValidName(title) && ValidPath(path) && GoodSegment(name)
    ensures var newPath := NewPath(title, path, name);
      ValidPath(newPath) && Split(newPath) == [title] + Middle(Split(path)) + [name]
      && Base(newPath) == name && Middle(Split(newPath)) == Middle(Split(path))
  {
    MiddleIsGood(path);
    ValidNameIsSegment(title);
    JoinIsValid([title] + Middle(Split(path)) + [name]);
  }

  /** A new path is valid; between the title and the new name it has the middle directories
      of the old one. */
  lemma NewPathIsValid(title: string, files: seq<string>, makeName: Namer, i: nat)
    requires KeepsNamesGood(makeName) && ValidName(title) && ValidPaths(files) && i < |files|
    ensures var path := RenameAt(title, files, makeName, i).newPath;
      ValidPath(path) && Split(path) == [title] + Middle(Split(files[i])) + [NameAt(files, makeName, i)]
      && Base(path) == NameAt(files, makeName, i) && Middle(Split(path)) == Middle(Split(files[i]))
  {
    MiddleIsGood(files[i]);
    assert GoodAt(makeName, Base(files[i]), NumberAt(files, makeName, i));
    NewPathSplits(title, files[i], NameAt(files, makeName, i));
  }

  ghost predicate NewPathOk(title: string, files: seq<string>, makeName: Namer, i: nat)
    requires i < |files|
  {
    ValidPath(RenameAt(title, files, makeName, i).newPath)
  }

  ghost predicate AnyInPlace(title: string, files: seq<string>, from: nat) {
    exists j :: from <= j < |files| && InPlace(title, files[j])
  }

  lemma AnyInPlaceStep(title: string, files: seq<string>, i: nat)
    requires i < |files|
    ensures AnyInPlace(title, files, i) <==> InPlace(title, files[i]) || AnyInPlace(title, files, i + 1)
  {
  }

  /** Planning from file `i` on, when all before it have been renamed. */
  function PlanAt(title: string, files: seq<string>, makeName: Namer, i: nat): Outcome
    requires i <= |files|
  {
    PlanFrom(title, files, makeName, i, NumberAt(files, makeName, i), Renames(title, files, makeName, i))
  }

  lemma PlanStep(title: string, files: seq<string>, makeName: Namer, i: nat)
    requires i < |files| && NewPathOk(title, files, makeName, i)
    ensures PlanAt(title, files, makeName, i)
         == if InPlace(title, files[i]) then NoPlan else PlanAt(title, files, makeName, i + 1)
  {
  }

  lemma PlanEnds(title: string, files: seq<string>, makeName: Namer)
    ensures PlanAt(title, files, makeName, |files|) == Plan(Renames(title, files, makeName, |files|))
  {
  }

  lemma {:induction false} PlanFromIs(title: string, files: seq<string>, makeName: Namer, i: nat)
    requires i <= |files| && forall j | 0 <= j < |files| :: NewPathOk(title, files, makeName, j)
    ensures PlanAt(title, files, makeName, i)
         == if AnyInPlace(title, files, i) then NoPlan else Plan(Renames(title, files, makeName, |files|))
    decreases |files| - i
  {
    if i == |files| {
      PlanEnds(title, files, makeName);
    } else {
      PlanFromIs(title, files, makeName, i + 1);
      PlanStep(title, files, makeName, i);
      AnyInPlaceStep(title, files, i);
    }
  }

  /** On a valid title and valid paths planning never fails: there is no plan if a file lies
      in place already, and otherwise one rename per file, in order. */
  lemma PlanIs(title: string, files: seq<string>, makeName: Namer)
    requires KeepsNamesGood(makeName) && ValidName(title) && ValidPaths(files)
    ensures Planned(title, files, makeName) ==
      if AnyInPlace(title, files, 0) then NoPlan else Plan(Renames(title, files, makeName, |files|))
  {
    forall j | 0 <= j < |files| ensures NewPathOk(title, files, makeName, j) {
      NewPathIsValid(title, files, makeName, j);
    }
    PlanFromIs(title, files, makeName, 0);
  }

  // ----- Planning again -----

  /** A new name is kept when it is named again with the same number. */
  ghost predicate Stable(makeName: Namer) {
    forall name, number :: StableAt(makeName, name, number)
  }

  ghost predicate StableAt(makeName: Namer, name: string, number: nat) {
    makeName(makeName(name, number).0, number) == makeName(name, number)
  }

  function NewPaths(r: seq<FileRename>): (paths: seq<string>)
    ensures |paths| == |r| && forall i | 0 <= i < |r| :: paths[i] == r[i].newPath
  {
    seq(|r|, i requires 0 <= i < |r| => r[i].newPath)
  }

  /** `again[i]` is the new path of file `i`. */
  ghost predicate Moved(title: string, files: seq<string>, again: seq<string>, makeName: Namer, i: nat)
    requires i < |files| == |again|
  {
    && again[i] == RenameAt(title, files, makeName, i).newPath && ValidPath(again[i])
    && Base(again[i]) == NameAt(files, makeName, i) && Middle(Split(again[i])) == Middle(Split(files[i]))
    && (InPlace(title, again[i]) <==> |Split(files[i])| <= 2)
  }

  lemma NewPathIsMoved(title: string, files: seq<string>, again: seq<string>, makeName: Namer, i: nat)
    requires KeepsNamesGood(makeName) && ValidName(title) && ValidPaths(files) && i < |files| == |again|
    requires again[i] == RenameAt(title, files, makeName, i).newPath
    ensures Moved(title, files, again, makeName, i)
  {
    NewPathIsValid(title, files, makeName, i);
    DirIsTitle(title, again[i]);
  }

  lemma {:induction false} SameNumbers(title: string, files: seq<string>, again: seq<string>, makeName: Namer, i: nat)
    requires Stable(makeName) && i <= |files| == |again|
    requires forall j | 0 <= j < |files| :: Moved(title, files, again, makeName, j)
    ensures NumberAt(again, makeName, i) == NumberAt(files, makeName, i)
  {
    if i > 0 {
      SameNumbers(title, files, again, makeName, i - 1);
      assert Moved(title, files, again, makeName, i - 1);
      assert StableAt(makeName, Base(files[i - 1]), NumberAt(files, makeName, i - 1));
    }
  }

  lemma SameNames(title: string, files: seq<string>, again: seq<string>, makeName: Namer, i: nat)
    requires Stable(makeName) && i < |files| == |again|
    requires forall j | 0 <= j < |files| :: Moved(title, files, again, makeName, j)
    ensures RenameAt(title, again, makeName, i) == FileRename(again[i], again[i])
  {
    SameNumbers(title, files, again, makeName, i);
    assert Moved(title, files, again, makeName, i);
    assert StableAt(makeName, Base(files[i]), NumberAt(files, makeName, i));
  }

  /** Every path is kept. */
  function Unchanged(paths: seq<string>): seq<FileRename> {
    seq(|paths|, i requires 0 <= i < |paths| => FileRename(paths[i], paths[i]))
  }

  ghost predicate AnyShallow(files: seq<string>) {
    exists j :: 0 <= j < |files| && Shallow(files[j])
  }

  /** The file lies at the top or directly in a directory at the top. */
  predicate Shallow(path: string) {
    |Split(path)| <= 2
  }

  /** Planning on the new paths renames nothing: there is no plan if a new path lies
      directly in the title's directory, and otherwise every file keeps its path. */
  lemma ReplanningIsIdle(title: string, files: seq<string>, makeName: Namer)
    requires KeepsNamesGood(makeName) && Stable(makeName) && ValidName(title) && ValidPaths(files)
    ensures var again := NewPaths(Renames(title, files, makeName, |files|));
      && ValidPaths(again)
      && Planned(title, again, makeName) == if AnyShallow(files) then NoPlan else Plan(Unchanged(again))
  {
    var again := NewPaths(Renames(title, files, makeName, |files|));
    forall i | 0 <= i < |files| ensures Moved(title, files, again, makeName, i) {
      NewPathIsMoved(title, files, again, makeName, i);
    }
    AgainIsIdle(title, files, again, makeName);
  }

  lemma AgainIsIdle(title: string, files: seq<string>, again: seq<string>, makeName: Namer)
    requires KeepsNamesGood(makeName) && Stable(makeName) && ValidName(title) && |files| == |again|
    requires forall j | 0 <= j < |files| :: Moved(title, files, again, makeName, j)
    ensures ValidPaths(again)
    ensures Planned(title, again, makeName) == if AnyShallow(files) then NoPlan else Plan(Unchanged(again))
  {
    forall i | 0 <= i < |files| ensures ValidPath(again[i]) {
      assert Moved(title, files, again, makeName, i);
    }
    PlanIs(title, again, makeName);
    assert AnyInPlace(title, again, 0) <==> AnyShallow(files) by {
      if AnyInPlace(title, again, 0) {
        var j :| 0 <= j < |again| && InPlace(title, again[j]);
        assert Moved(title, files, again, makeName, j);
        assert Shallow(files[j]);
      }
      if AnyShallow(files) {
        var j :| 0 <= j < |files| && Shallow(files[j]);
        assert Moved(title, files, again, makeName, j);
        assert InPlace(title, again[j]);
      }
    }
    SamePlan(title, files, again, makeName);
  }

  lemma SamePlan(title: string, files: seq<string>, again: seq<string>, makeName: Namer)
    requires Stable(makeName) && |files| == |again|
    requires forall j | 0 <= j < |files| :: Moved(title, files, again, makeName, j)
    ensures Renames(title, again, makeName, |again|) == Unchanged(again)
  {
    forall i | 0 <= i < |again| ensures Renames(title, again, makeName, |again|)[i] == Unchanged(again)[i] {
      SameNames(title, files, again, makeName, i);
    }
  }
}

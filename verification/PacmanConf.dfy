/**
 * The pacman configuration parser. Files are read line by line; an Include is replaced by the files its pattern
 * matches, and they share the section of the file that includes them.
 */
module PacmanConf {
  import opened Wrappers
  import opened PacmanText
  import opened SigLevels

  const MAX_INCLUDE_DEPTH := 8

  const OPTIONS := "options"

  datatype File = Directory | Unreadable | Text(lines: seq<string>, readFails: bool)

  /** `included` gives, in order, the files that an Include value in a file matches. */
  datatype FileTree = FileTree(files: string -> File, included: (string, string) -> seq<string>)

  datatype ParseError =
    | IncludeTooDeep(path: string)
    | CannotRead(path: string)
    | NoSuchInclude(value: string)
    | DefinedTwice(section: string)
    | BadLevel(error: LevelError)
    | UnsafeName
    | NoServer(name: string)

  datatype RawRepository = RawRepository(name: string, servers: seq<string>, sig: SigSetting)

  datatype Parsed = Parsed(
    files: seq<string>,
    machine: string,
    gpgDirectory: string,
    architectures: seq<string>,
    globalSig: SigSetting,
    repositories: seq<RawRepository>,
    section: string)

  function Started(machine: string): Parsed {
    Parsed([], machine, "", [], UNDECIDED, [], "")
  }

  /** The repository being configured is the last one, whatever files its section is spread over. */
  predicate Current(s: Parsed) {
    s.section != "" && s.section != OPTIONS ==>
      s.repositories != [] && s.repositories[|s.repositories| - 1].name == s.section
  }

  predicate Defined(repositories: seq<RawRepository>, name: string) {
    exists i | 0 <= i < |repositories| :: repositories[i].name == name
  }

  // One line

  function BeginSection(s: Parsed, name: string): (after: Result<Parsed, ParseError>)
    ensures after.Ok? ==> Current(after.value)
  {
    var begun := s.(section := name);
    if name == OPTIONS then Ok(begun)
    else if Defined(s.repositories, name) then Err(DefinedTwice(name))
    else Ok(begun.(repositories := s.repositories + [RawRepository(name, [], UNDECIDED)]))
  }

  function Resolved(words: seq<string>, machine: string): (architectures: seq<string>)
    ensures |architectures| == |words|
  {
    seq(|words|, i requires 0 <= i < |words| => if words[i] == "auto" then machine else words[i])
  }

  function HandleOption(s: Parsed, key: string, value: string): Result<Parsed, ParseError> {
    if key == "GPGDir" then Ok(s.(gpgDirectory := value))
    else if key == "Architecture" then Ok(s.(architectures := s.architectures + Resolved(Words(value), s.machine)))
    else if key == "SigLevel" then
      var level := LevelOf(value);
      if level.Err? then Err(BadLevel(level.error)) else Ok(s.(globalSig := Combine(s.globalSig, level.value)))
    else Ok(s)
  }

  function UpdateLast(s: Parsed, repository: RawRepository): Parsed
    requires s.repositories != []
  {
    s.(repositories := s.repositories[|s.repositories| - 1 := repository])
  }

  function HandleRepository(s: Parsed, key: string, value: string): (after: Result<Parsed, ParseError>)
    requires s.repositories != []
    ensures after.Ok? ==> after.value.section == s.section && (Current(s) ==> Current(after.value))
  {
    var last := s.repositories[|s.repositories| - 1];
    if key == "Server" then Ok(UpdateLast(s, last.(servers := last.servers + [value])))
    else if key == "SigLevel" then
      var level := LevelOf(value);
      if level.Err? then Err(BadLevel(level.error))
      else Ok(UpdateLast(s, last.(sig := Combine(last.sig, level.value))))
    else Ok(s)
  }

  function HandleSetting(s: Parsed, key: string, value: string): (after: Result<Parsed, ParseError>)
    requires Current(s)
    ensures after.Ok? ==> Current(after.value) && after.value.section == s.section
  {
    if s.section == OPTIONS then HandleOption(s, key, value)
    else if s.section == "" then Ok(s)
    else HandleRepository(s, key, value)
  }

  predicate IsInclude(line: Line) {
    line.Setting? && line.key == "Include"
  }

  /** A line that is not an Include. */
  function HandlePlain(s: Parsed, line: Line): (after: Result<Parsed, ParseError>)
    requires Current(s)
    ensures after.Ok? ==> Current(after.value)
  {
    match line
    case Nothing => Ok(s)
    case Section(name) => BeginSection(s, name)
    case Setting(key, value) => if key == "Include" then Ok(s) else HandleSetting(s, key, value)
  }

  // Files

  function ReadFile(tree: FileTree, path: string, depth: nat, s: Parsed): (after: Result<Parsed, ParseError>)
    requires Current(s) && depth <= MAX_INCLUDE_DEPTH + 1
    ensures after.Ok? ==> Current(after.value)
    decreases MAX_INCLUDE_DEPTH + 1 - depth, 1, 0
  {
    var visited := s.(files := s.files + [path]);
    if depth > MAX_INCLUDE_DEPTH then Err(IncludeTooDeep(path))
    else
      match tree.files(path)
      case Directory => Err(CannotRead(path))
      case Unreadable => Err(CannotRead(path))
      case Text(lines, readFails) =>
        var after := ReadLines(tree, path, depth, lines, visited);
        if after.Ok? && readFails then Err(CannotRead(path)) else after
  }

  function ReadLines(tree: FileTree, path: string, depth: nat, lines: seq<string>, s: Parsed)
      : (after: Result<Parsed, ParseError>)
    requires Current(s) && depth <= MAX_INCLUDE_DEPTH
    ensures after.Ok? ==> Current(after.value)
    decreases MAX_INCLUDE_DEPTH + 1 - depth, 0, |lines|
  {
    if lines == [] then Ok(s)
    else
      var next := HandleLine(tree, path, depth, lines[0], s);
      if next.Err? then next else ReadLines(tree, path, depth, lines[1..], next.value)
  }

  function HandleLine(tree: FileTree, path: string, depth: nat, raw: string, s: Parsed)
      : (after: Result<Parsed, ParseError>)
    requires Current(s) && depth <= MAX_INCLUDE_DEPTH
    ensures after.Ok? ==> Current(after.value)
    decreases MAX_INCLUDE_DEPTH + 1 - depth, 0, 0
  {
    var line := LineOf(raw);
    if IsInclude(line) then
      var included := tree.included(path, line.value);
      if included == [] then Err(NoSuchInclude(line.value)) else ReadAll(tree, included, depth + 1, s)
    else HandlePlain(s, line)
  }

  function ReadAll(tree: FileTree, paths: seq<string>, depth: nat, s: Parsed): (after: Result<Parsed, ParseError>)
    requires Current(s) && depth <= MAX_INCLUDE_DEPTH + 1
    ensures after.Ok? ==> Current(after.value)
    decreases MAX_INCLUDE_DEPTH + 1 - depth, 2, |paths|
  {
    if paths == [] then Ok(s)
    else
      var next := ReadFile(tree, paths[0], depth, s);
      if next.Err? then next else ReadAll(tree, paths[1..], depth, next.value)
  }

  // Flattening

  /** The lines of a file with every Include replaced by the lines of what it includes, and the files visited. */
  datatype Flat = Flat(lines: seq<string>, files: seq<string>)

  function Joined(first: Flat, second: Flat): Flat {
    Flat(first.lines + second.lines, first.files + second.files)
  }

  function FlattenFile(tree: FileTree, path: string, depth: nat): Result<Flat, ParseError>
    requires depth <= MAX_INCLUDE_DEPTH + 1
    decreases MAX_INCLUDE_DEPTH + 1 - depth, 1, 0
  {
    if depth > MAX_INCLUDE_DEPTH then Err(IncludeTooDeep(path))
    else
      match tree.files(path)
      case Directory => Err(CannotRead(path))
      case Unreadable => Err(CannotRead(path))
      case Text(lines, readFails) =>
        var flat := FlattenLines(tree, path, depth, lines);
        if flat.Err? then flat
        else if readFails then Err(CannotRead(path))
        else Ok(Joined(Flat([], [path]), flat.value))
  }

  function FlattenLines(tree: FileTree, path: string, depth: nat, lines: seq<string>): Result<Flat, ParseError>
    requires depth <= MAX_INCLUDE_DEPTH
    decreases MAX_INCLUDE_DEPTH + 1 - depth, 0, |lines|
  {
    if lines == [] then Ok(Flat([], []))
    else
      var first := FlattenLine(tree, path, depth, lines[0]);
      if first.Err? then first
      else
        var rest := FlattenLines(tree, path, depth, lines[1..]);
        if rest.Err? then rest else Ok(Joined(first.value, rest.value))
  }

  function FlattenLine(tree: FileTree, path: string, depth: nat, raw: string): Result<Flat, ParseError>
    requires depth <= MAX_INCLUDE_DEPTH
    decreases MAX_INCLUDE_DEPTH + 1 - depth, 0, 0
  {
    var line := LineOf(raw);
    if IsInclude(line) then
      var included := tree.included(path, line.value);
      if included == [] then Err(NoSuchInclude(line.value)) else FlattenAll(tree, included, depth + 1)
    else Ok(Flat([raw], []))
  }

  function FlattenAll(tree: FileTree, paths: seq<string>, depth: nat): Result<Flat, ParseError>
    requires depth <= MAX_INCLUDE_DEPTH + 1
    decreases MAX_INCLUDE_DEPTH + 1 - depth, 2, |paths|
  {
    if paths == [] then Ok(Flat([], []))
    else
      var first := FlattenFile(tree, paths[0], depth);
      if first.Err? then first
      else
        var rest := FlattenAll(tree, paths[1..], depth);
        if rest.Err? then rest else Ok(Joined(first.value, rest.value))
  }

  /** Plain lines, one after the other, from some state on. */
  function Fold(lines: seq<string>, s: Parsed): (after: Result<Parsed, ParseError>)
    requires Current(s)
    ensures after.Ok? ==> Current(after.value)
  {
    if lines == [] then Ok(s)
    else
      var before := Fold(lines[..|lines| - 1], s);
      if before.Err? then before else HandlePlain(before.value, LineOf(lines[|lines| - 1]))
  }

  function FoldOn(before: Result<Parsed, ParseError>, lines: seq<string>): (after: Result<Parsed, ParseError>)
    requires before.Ok? ==> Current(before.value)
    ensures after.Ok? ==> Current(after.value)
  {
    if before.Err? then before else Fold(lines, before.value)
  }

  lemma {:induction false} FoldBoth(first: seq<string>, second: seq<string>, s: Parsed)
    requires Current(s)
    ensures Fold(first + second, s) == FoldOn(Fold(first, s), second)
  {
    if second == [] {
      assert first + second == first;
    } else {
      var all, before := first + second, second[..|second| - 1];
      assert all[..|all| - 1] == first + before;
      FoldBoth(first, before, s);
    }
  }

  function Visiting(after: Result<Parsed, ParseError>, files: seq<string>): Result<Parsed, ParseError> {
    if after.Err? then after else Ok(after.value.(files := files))
  }

  lemma {:induction false} FoldKeepsFiles(lines: seq<string>, s: Parsed, files: seq<string>)
    requires Current(s)
    ensures Fold(lines, s.(files := files)) == Visiting(Fold(lines, s), files)
    ensures Fold(lines, s).Ok? ==> Fold(lines, s).value.files == s.files
  {
    if lines != [] {
      FoldKeepsFiles(lines[..|lines| - 1], s, files);
      var before := Fold(lines[..|lines| - 1], s);
      if before.Ok? {
        PlainKeepsFiles(before.value, LineOf(lines[|lines| - 1]), files);
      }
    } else {
      assert s.(files := s.files) == s;
    }
  }

  lemma PlainKeepsFiles(s: Parsed, line: Line, files: seq<string>)
    requires Current(s)
    ensures HandlePlain(s.(files := files), line) == Visiting(HandlePlain(s, line), files)
    ensures HandlePlain(s, line).Ok? ==> HandlePlain(s, line).value.files == s.files
  {
  }

  /** Reading agrees with folding the flattened lines: with the same result, or failing where either fails. */
  predicate Agrees(after: Result<Parsed, ParseError>, flat: Result<Flat, ParseError>, s: Parsed)
    requires Current(s)
  {
    if flat.Err? then after.Err?
    else after == Visiting(Fold(flat.value.lines, s), s.files + flat.value.files)
  }

  lemma AgreesInTurn(first: Result<Flat, ParseError>, rest: Result<Flat, ParseError>, s: Parsed,
                     middle: Result<Parsed, ParseError>, after: Result<Parsed, ParseError>)
    requires Current(s) && Agrees(middle, first, s)
    requires middle.Err? ==> after == middle
    requires middle.Ok? ==> Current(middle.value) && Agrees(after, rest, middle.value)
    ensures Agrees(after, if first.Err? then first else if rest.Err? then rest
                          else Ok(Joined(first.value, rest.value)), s)
  {
    if first.Ok? && rest.Ok? {
      FoldBoth(first.value.lines, rest.value.lines, s);
      var folded := Fold(first.value.lines, s);
      if folded.Ok? {
        FoldKeepsFiles(rest.value.lines, folded.value, s.files + first.value.files);
        assert (s.files + first.value.files) + rest.value.files == s.files + (first.value.files + rest.value.files);
      }
    }
  }

  lemma {:induction false} FileAgrees(tree: FileTree, path: string, depth: nat, s: Parsed)
    requires Current(s) && depth <= MAX_INCLUDE_DEPTH + 1
    ensures Agrees(ReadFile(tree, path, depth, s), FlattenFile(tree, path, depth), s)
    decreases MAX_INCLUDE_DEPTH + 1 - depth, 1, 0
  {
    if depth <= MAX_INCLUDE_DEPTH && tree.files(path).Text? {
      var lines, visited := tree.files(path).lines, s.(files := s.files + [path]);
      LinesAgree(tree, path, depth, lines, visited);
      assert Fold([], s) == Ok(s);
      AgreesInTurn(Ok(Flat([], [path])), FlattenLines(tree, path, depth, lines), s, Ok(visited),
                   ReadLines(tree, path, depth, lines, visited));
    }
  }

  lemma {:induction false} LinesAgree(tree: FileTree, path: string, depth: nat, lines: seq<string>, s: Parsed)
    requires Current(s) && depth <= MAX_INCLUDE_DEPTH
    ensures Agrees(ReadLines(tree, path, depth, lines, s), FlattenLines(tree, path, depth, lines), s)
    decreases MAX_INCLUDE_DEPTH + 1 - depth, 0, |lines|
  {
    if lines == [] {
      assert s.files + [] == s.files;
    } else {
      LineAgrees(tree, path, depth, lines[0], s);
      var next := HandleLine(tree, path, depth, lines[0], s);
      if next.Ok? {
        LinesAgree(tree, path, depth, lines[1..], next.value);
      }
      AgreesInTurn(FlattenLine(tree, path, depth, lines[0]), FlattenLines(tree, path, depth, lines[1..]), s, next,
                   ReadLines(tree, path, depth, lines, s));
    }
  }

  lemma {:induction false} LineAgrees(tree: FileTree, path: string, depth: nat, raw: string, s: Parsed)
    requires Current(s) && depth <= MAX_INCLUDE_DEPTH
    ensures Agrees(HandleLine(tree, path, depth, raw, s), FlattenLine(tree, path, depth, raw), s)
    decreases MAX_INCLUDE_DEPTH + 1 - depth, 0, 0
  {
    var line := LineOf(raw);
    if IsInclude(line) {
      AllAgree(tree, tree.included(path, line.value), depth + 1, s);
    } else {
      assert s.files + [] == s.files;
      PlainKeepsFiles(s, line, s.files);
      assert Fold([raw], s) == HandlePlain(s, line) by {
        assert [raw][..0] == [];
      }
    }
  }

  lemma {:induction false} AllAgree(tree: FileTree, paths: seq<string>, depth: nat, s: Parsed)
    requires Current(s) && depth <= MAX_INCLUDE_DEPTH + 1
    ensures Agrees(ReadAll(tree, paths, depth, s), FlattenAll(tree, paths, depth), s)
    decreases MAX_INCLUDE_DEPTH + 1 - depth, 2, |paths|
  {
    if paths == [] {
      assert s.files + [] == s.files;
    } else {
      FileAgrees(tree, paths[0], depth, s);
      var next := ReadFile(tree, paths[0], depth, s);
      if next.Ok? {
        AllAgree(tree, paths[1..], depth, next.value);
      }
      AgreesInTurn(FlattenFile(tree, paths[0], depth), FlattenAll(tree, paths[1..], depth), s, next,
                   ReadAll(tree, paths, depth, s));
    }
  }

  // What flattening leaves

  predicate NoIncludes(lines: seq<string>) {
    forall i | 0 <= i < |lines| :: !IsInclude(LineOf(lines[i]))
  }

  lemma {:induction false} FlatFile(tree: FileTree, path: string, depth: nat)
    requires depth <= MAX_INCLUDE_DEPTH + 1
    ensures FlattenFile(tree, path, depth).Ok? ==> NoIncludes(FlattenFile(tree, path, depth).value.lines)
    decreases MAX_INCLUDE_DEPTH + 1 - depth, 1, 0
  {
    if depth <= MAX_INCLUDE_DEPTH && tree.files(path).Text? {
      FlatLines(tree, path, depth, tree.files(path).lines);
    }
  }

  lemma {:induction false} FlatLines(tree: FileTree, path: string, depth: nat, lines: seq<string>)
    requires depth <= MAX_INCLUDE_DEPTH
    ensures var flat := FlattenLines(tree, path, depth, lines); flat.Ok? ==> NoIncludes(flat.value.lines)
    decreases MAX_INCLUDE_DEPTH + 1 - depth, 0, |lines|
  {
    if lines != [] {
      var line := LineOf(lines[0]);
      if IsInclude(line) {
        FlatAll(tree, tree.included(path, line.value), depth + 1);
      }
      FlatLines(tree, path, depth, lines[1..]);
    }
  }

  lemma {:induction false} FlatAll(tree: FileTree, paths: seq<string>, depth: nat)
    requires depth <= MAX_INCLUDE_DEPTH + 1
    ensures var flat := FlattenAll(tree, paths, depth); flat.Ok? ==> NoIncludes(flat.value.lines)
    decreases MAX_INCLUDE_DEPTH + 1 - depth, 2, |paths|
  {
    if paths != [] {
      FlatFile(tree, paths[0], depth);
      FlatAll(tree, paths[1..], depth);
    }
  }

  /** A file without Includes is its own flattening. */
  lemma {:induction false} PlainLinesAreFlat(tree: FileTree, path: string, depth: nat, lines: seq<string>)
    requires depth <= MAX_INCLUDE_DEPTH && NoIncludes(lines)
    ensures FlattenLines(tree, path, depth, lines) == Ok(Flat(lines, []))
    decreases |lines|
  {
    if lines != [] {
      PlainLinesAreFlat(tree, path, depth, lines[1..]);
      assert FlattenLine(tree, path, depth, lines[0]) == Ok(Flat([lines[0]], []));
      assert Joined(Flat([lines[0]], []), Flat(lines[1..], [])) == Flat([lines[0]] + lines[1..], []);
      assert [lines[0]] + lines[1..] == lines;
    }
  }

  /**
   * Flattening preserves meaning: a tree of files reads like the one file that holds its flattened lines, with the
   * same repositories, servers, levels and section, and with the same error if that file has one. A tree that cannot
   * be flattened cannot be read either.
   */
  lemma IncludeIsTextual(tree: FileTree, path: string, flatTree: FileTree, flatPath: string, s: Parsed)
    requires Current(s)
    ensures FlattenFile(tree, path, 0).Err? ==> ReadFile(tree, path, 0, s).Err?
    ensures FlattenFile(tree, path, 0).Ok? &&
            flatTree.files(flatPath) == Text(FlattenFile(tree, path, 0).value.lines, false) ==>
              ReadFile(tree, path, 0, s) ==
              Visiting(ReadFile(flatTree, flatPath, 0, s), s.files + FlattenFile(tree, path, 0).value.files)
  {
    FileAgrees(tree, path, 0, s);
    var flat := FlattenFile(tree, path, 0);
    if flat.Ok? && flatTree.files(flatPath) == Text(flat.value.lines, false) {
      FlatFile(tree, path, 0);
      PlainLinesAreFlat(flatTree, flatPath, 0, flat.value.lines);
      FileAgrees(flatTree, flatPath, 0, s);
      assert FlattenFile(flatTree, flatPath, 0).value.lines == flat.value.lines;
    }
  }

  // Cycles

  /** Every one of these files includes one of them. */
  ghost predicate Circular(tree: FileTree, cycle: set<string>) {
    forall path {:trigger IncludesFrom(tree, path, cycle)} | path in cycle :: IncludesFrom(tree, path, cycle)
  }

  predicate IncludesFrom(tree: FileTree, path: string, cycle: set<string>) {
    tree.files(path).Text? &&
    exists i | 0 <= i < |tree.files(path).lines| :: IncludesOne(tree, path, tree.files(path).lines[i], cycle)
  }

  predicate IncludesOne(tree: FileTree, path: string, raw: string, cycle: set<string>) {
    IsInclude(LineOf(raw)) && exists included <- tree.included(path, LineOf(raw).value) :: included in cycle
  }

  /** Files that include each other in a circle are never read to the end: the depth bound stops them. */
  lemma {:induction false} CyclesFail(tree: FileTree, cycle: set<string>, path: string, depth: nat)
    requires Circular(tree, cycle)
    requires path in cycle && depth <= MAX_INCLUDE_DEPTH + 1
    ensures FlattenFile(tree, path, depth).Err?
    decreases MAX_INCLUDE_DEPTH + 1 - depth, 1
  {
    if depth <= MAX_INCLUDE_DEPTH {
      assert IncludesFrom(tree, path, cycle);
      var lines := tree.files(path).lines;
      var i :| 0 <= i < |lines| && IncludesOne(tree, path, lines[i], cycle);
      CycleLineFails(tree, cycle, path, depth, lines[i]);
      OneLineFails(tree, path, depth, lines, i);
    }
  }

  lemma {:induction false} CycleLineFails(tree: FileTree, cycle: set<string>, path: string, depth: nat, raw: string)
    requires Circular(tree, cycle)
    requires depth <= MAX_INCLUDE_DEPTH && IncludesOne(tree, path, raw, cycle)
    ensures FlattenLine(tree, path, depth, raw).Err?
    decreases MAX_INCLUDE_DEPTH + 1 - depth, 0
  {
    var included := tree.included(path, LineOf(raw).value);
    var k :| 0 <= k < |included| && included[k] in cycle;
    CyclesFail(tree, cycle, included[k], depth + 1);
    OneFileFails(tree, included, depth + 1, k);
  }

  lemma {:induction false} OneFileFails(tree: FileTree, paths: seq<string>, depth: nat, k: nat)
    requires k < |paths| && depth <= MAX_INCLUDE_DEPTH + 1 && FlattenFile(tree, paths[k], depth).Err?
    ensures FlattenAll(tree, paths, depth).Err?
    decreases k
  {
    if k > 0 {
      OneFileFails(tree, paths[1..], depth, k - 1);
    }
  }

  lemma {:induction false} OneLineFails(tree: FileTree, path: string, depth: nat, lines: seq<string>, i: nat)
    requires i < |lines| && depth <= MAX_INCLUDE_DEPTH && FlattenLine(tree, path, depth, lines[i]).Err?
    ensures FlattenLines(tree, path, depth, lines).Err?
    decreases i
  {
    if i > 0 {
      OneLineFails(tree, path, depth, lines[1..], i - 1);
    }
  }
}

/** The repositories of a configuration: what its entry point returns, and what that means. */
module PacmanRepositories {
  import opened Wrappers
  import opened PacmanText
  import opened SigLevels
  import opened PacmanConf
  import opened PacmanMeaning
  import PacmanParser
  import Catalog

  const DEFAULT_GPG_DIRECTORY := "/etc/pacman.d/gnupg"

  datatype Repository = Repository(name: string, servers: seq<string>, sigLevel: bv32)

  datatype Repositories = Repositories(
    repositories: seq<Repository>,
    gpgDirectory: string,
    architectures: seq<string>,
    defaultSigLevel: bv32,
    configurationFiles: seq<string>)

  function Architectures(s: Parsed): (architectures: seq<string>)
    ensures architectures != []
  {
    if s.architectures == [] then [s.machine] else s.architectures
  }

  function Finished(raw: RawRepository, base: bv32, architecture: string): Repository {
    Repository(raw.name, Each(url => Substituted(url, raw.name, architecture), raw.servers), Merge(raw.sig, base))
  }

  function Check(raw: RawRepository): Option<ParseError> {
    if !Catalog.SafeName(raw.name) then Some(UnsafeName)
    else if raw.servers == [] then Some(NoServer(raw.name)) else None
  }

  function FinishAll(raws: seq<RawRepository>, base: bv32, architecture: string)
      : Result<seq<Repository>, ParseError>
  {
    if raws == [] then Ok([])
    else
      var before := FinishAll(Init(raws), base, architecture);
      if before.Err? then before
      else if Check(Last(raws)).Some? then Err(Check(Last(raws)).value)
      else Ok(before.value + [Finished(Last(raws), base, architecture)])
  }

  function Finish(s: Parsed): Result<Repositories, ParseError> {
    var base, architectures := Merge(s.globalSig, DEFAULT_LEVEL), Architectures(s);
    var finished := FinishAll(s.repositories, base, architectures[0]);
    if finished.Err? then Err(finished.error)
    else Ok(Repositories(finished.value, if s.gpgDirectory == "" then DEFAULT_GPG_DIRECTORY else s.gpgDirectory,
                         architectures, base, s.files))
  }

  function ParseOf(tree: FileTree, path: string, machine: string): Result<Repositories, ParseError> {
    var read := ReadFile(tree, path, 0, Started(machine));
    if read.Err? then Err(read.error) else Finish(read.value)
  }

  method ParsePacmanRepositories(tree: FileTree, path: string, machine: string)
      returns (result: Result<Repositories, ParseError>)
    ensures result == ParseOf(tree, path, machine)
  {
    var parser := new PacmanParser.Parser(machine);
    var read := parser.ReadFile(tree, path, 0);
    if read.Err? {
      return Err(read.error);
    }
    var architectures := if parser.architectures == [] then [parser.machine] else parser.architectures;
    var base := Merge(parser.globalSig, DEFAULT_LEVEL);
    var repositories := CheckAll(parser.repositories, base, architectures[0]);
    if repositories.Err? {
      return Err(repositories.error);
    }
    var gpgDirectory := if parser.gpgDirectory == "" then DEFAULT_GPG_DIRECTORY else parser.gpgDirectory;
    return Ok(Repositories(repositories.value, gpgDirectory, architectures, base, parser.configurationFiles));
  }

  method CheckAll(raws: seq<RawRepository>, base: bv32, architecture: string)
      returns (result: Result<seq<Repository>, ParseError>)
    ensures result == FinishAll(raws, base, architecture)
  {
    var repositories: seq<Repository> := [];
    for i := 0 to |raws|
      invariant FinishAll(raws[..i], base, architecture) == Ok(repositories)
    {
      assert Init(raws[..i + 1]) == raws[..i];
      var raw := raws[i];
      if !Catalog.SafeName(raw.name) {
        StopsAt(raws, base, architecture, i + 1);
        return Err(UnsafeName);
      }
      if raw.servers == [] {
        StopsAt(raws, base, architecture, i + 1);
        return Err(NoServer(raw.name));
      }
      var servers := SubstituteAll(raw.servers, raw.name, architecture);
      repositories := repositories + [Repository(raw.name, servers, Merge(raw.sig, base))];
    }
    assert raws[..|raws|] == raws;
    return Ok(repositories);
  }

  lemma {:induction false} StopsAt(raws: seq<RawRepository>, base: bv32, architecture: string, i: nat)
    requires i <= |raws| && FinishAll(raws[..i], base, architecture).Err?
    ensures FinishAll(raws, base, architecture) == FinishAll(raws[..i], base, architecture)
    decreases |raws|
  {
    if i == |raws| {
      assert raws[..i] == raws;
    } else {
      assert Init(raws)[..i] == raws[..i];
      StopsAt(Init(raws), base, architecture, i);
    }
  }

  method SubstituteAll(servers: seq<string>, name: string, architecture: string) returns (substituted: seq<string>)
    ensures substituted == Each(url => Substituted(url, name, architecture), servers)
  {
    substituted := [];
    for i := 0 to |servers|
      invariant |substituted| == i
      invariant forall k | 0 <= k < i :: substituted[k] == Substituted(servers[k], name, architecture)
    {
      var url := Substitute(servers[i], name, architecture);
      substituted := substituted + [url];
    }
  }

  // What the result means

  predicate Complete(raw: RawRepository) {
    Catalog.SafeName(raw.name) && raw.servers != []
  }

  lemma {:induction false} FinishesEach(raws: seq<RawRepository>, base: bv32, architecture: string)
    ensures var finished := FinishAll(raws, base, architecture);
            && (finished.Ok? <==> forall i | 0 <= i < |raws| :: Complete(raws[i]))
            && (finished.Ok? ==>
                  |finished.value| == |raws| &&
                  forall i | 0 <= i < |raws| :: finished.value[i] == Finished(raws[i], base, architecture))
  {
    if raws != [] {
      FinishesEach(Init(raws), base, architecture);
      assert Check(Last(raws)).None? <==> Complete(Last(raws));
      assert forall i | 0 <= i < |raws| - 1 :: raws[i] == Init(raws)[i];
    }
  }

  /** The words of every SigLevel a section has, in order, wherever its lines are. */
  function LevelWords(lines: seq<string>, section: string): seq<string> {
    AllWords(ValuesOf(lines, section, "SigLevel"))
  }

  /** All global words applied to the built-in default, and then the repository's own. */
  function EffectiveLevel(lines: seq<string>, name: string): bv32 {
    LevelAfter(LevelWords(lines, name), LevelAfter(LevelWords(lines, OPTIONS), DEFAULT_LEVEL))
  }

  predicate Accepted(lines: seq<string>) {
    && NamesDistinct(lines)
    && LevelsValid(lines)
    && forall i | 0 <= i < |Names(lines)| :: Usable(lines, Names(lines)[i])
  }

  /** The i-th repository is the i-th section: its name, its servers filled in, and its effective level. */
  predicate MeansSection(repository: Repository, lines: seq<string>, name: string, architecture: string) {
    && repository.name == name
    && repository.servers == Each(url => Substituted(url, name, architecture), ValuesOf(lines, name, "Server"))
    && repository.sigLevel == EffectiveLevel(lines, name)
  }

  lemma FinishedMeans(lines: seq<string>, name: string, architecture: string)
    ensures MeansSection(Finished(RepositoryOf(lines, name), LevelAfter(LevelWords(lines, OPTIONS), DEFAULT_LEVEL),
                                  architecture),
                         lines, name, architecture)
  {
    MergeIsLevelAfter(LevelWords(lines, name), LevelAfter(LevelWords(lines, OPTIONS), DEFAULT_LEVEL));
  }

  lemma DefaultIsGood()
    ensures GoodLevel(DEFAULT_LEVEL)
  {
  }

  predicate Usable(lines: seq<string>, name: string) {
    Catalog.SafeName(name) && ValuesOf(lines, name, "Server") != []
  }

  /** Every section finished, or none if one is not usable. */
  lemma FinishAllMeans(lines: seq<string>, names: seq<string>, architecture: string)
    ensures var base := LevelAfter(LevelWords(lines, OPTIONS), DEFAULT_LEVEL);
            var finished := FinishAll(RepositoriesOf(lines, names), base, architecture);
            && (finished.Ok? <==> forall i | 0 <= i < |names| :: Usable(lines, names[i]))
            && (finished.Ok? ==>
                  |finished.value| == |names| &&
                  forall i | 0 <= i < |names| :: MeansSection(finished.value[i], lines, names[i], architecture))
  {
    var base := LevelAfter(LevelWords(lines, OPTIONS), DEFAULT_LEVEL);
    FinishesEach(RepositoriesOf(lines, names), base, architecture);
    forall i | 0 <= i < |names|
      ensures RepositoriesOf(lines, names)[i] == RepositoryOf(lines, names[i])
      ensures Complete(RepositoryOf(lines, names[i])) <==> Usable(lines, names[i])
      ensures MeansSection(Finished(RepositoryOf(lines, names[i]), base, architecture), lines, names[i], architecture)
    {
      FinishedMeans(lines, names[i], architecture);
    }
  }

  /** The result says what the flattened lines say. */
  predicate Means(result: Repositories, lines: seq<string>, machine: string) {
    var gpgDirectory := LastOr(ValuesOf(lines, OPTIONS, "GPGDir"), "");
    var architectures := Resolved(AllWords(ValuesOf(lines, OPTIONS, "Architecture")), machine);
    && |result.repositories| == |Names(lines)|
    && result.gpgDirectory == (if gpgDirectory == "" then DEFAULT_GPG_DIRECTORY else gpgDirectory)
    && result.architectures == (if architectures == [] then [machine] else architectures)
    && result.defaultSigLevel == LevelAfter(LevelWords(lines, OPTIONS), DEFAULT_LEVEL)
    && result.architectures != []
    && forall i | 0 <= i < |Names(lines)| ::
         MeansSection(result.repositories[i], lines, Names(lines)[i], result.architectures[0])
  }

  lemma FinishMeans(lines: seq<string>, machine: string)
    requires NamesDistinct(lines) && LevelsValid(lines)
    ensures Finish(Meaning(lines, machine)).Ok? <==> Accepted(lines)
    ensures Accepted(lines) ==> Means(Finish(Meaning(lines, machine)).value, lines, machine)
  {
    MergeIsLevelAfter(LevelWords(lines, OPTIONS), DEFAULT_LEVEL);
    FinishAllMeans(lines, Names(lines), Architectures(Meaning(lines, machine))[0]);
  }

  lemma FinishKeepsFiles(s: Parsed, files: seq<string>)
    ensures Finish(s.(files := files)) ==
            if Finish(s).Err? then Finish(s) else Ok(Finish(s).value.(configurationFiles := files))
  {
  }

  /**
   * A configuration is accepted exactly when it flattens and its flattened lines are acceptable: distinct safe
   * repository names, a server for each, and no SigLevel under a section with a word that is not a token. Then the
   * i-th repository is the i-th section, with all its servers and with the level that all the global words and then
   * all its own words give the built-in default, however they are split over directives, files and reopened sections.
   */
  lemma ConfigurationMeans(tree: FileTree, path: string, machine: string)
    ensures var flat, parsed := FlattenFile(tree, path, 0), ParseOf(tree, path, machine);
            && (parsed.Ok? <==> flat.Ok? && Accepted(flat.value.lines))
            && (parsed.Ok? ==> Means(parsed.value, flat.value.lines, machine) &&
                               parsed.value.configurationFiles == flat.value.files)
  {
    FileAgrees(tree, path, 0, Started(machine));
    var flat := FlattenFile(tree, path, 0);
    if flat.Ok? {
      FlatFile(tree, path, 0);
      FoldIsMeaning(flat.value.lines, machine);
      if NamesDistinct(flat.value.lines) && LevelsValid(flat.value.lines) {
        FinishMeans(flat.value.lines, machine);
        FinishKeepsFiles(Meaning(flat.value.lines, machine), flat.value.files);
        assert [] + flat.value.files == flat.value.files;
      }
    }
  }

  /** Every level a configuration yields is well formed: optional implies signed, and no stray bit. */
  lemma LevelsStayGood(tree: FileTree, path: string, machine: string)
    ensures var parsed := ParseOf(tree, path, machine);
            parsed.Ok? ==>
              GoodLevel(parsed.value.defaultSigLevel) &&
              forall i | 0 <= i < |parsed.value.repositories| :: GoodLevel(parsed.value.repositories[i].sigLevel)
  {
    var parsed := ParseOf(tree, path, machine);
    ConfigurationMeans(tree, path, machine);
    if parsed.Ok? {
      var lines := FlattenFile(tree, path, 0).value.lines;
      DefaultIsGood();
      LevelsAreGood(LevelWords(lines, OPTIONS), DEFAULT_LEVEL);
      forall i | 0 <= i < |parsed.value.repositories|
        ensures GoodLevel(parsed.value.repositories[i].sigLevel)
      {
        LevelsAreGood(LevelWords(lines, Names(lines)[i]), parsed.value.defaultSigLevel);
      }
    }
  }

  /** Files that include each other in a circle make no configuration. */
  lemma CircularConfigurationFails(tree: FileTree, cycle: set<string>, path: string, machine: string)
    requires Circular(tree, cycle) && path in cycle
    ensures ParseOf(tree, path, machine).Err?
  {
    CyclesFail(tree, cycle, path, 0);
    ConfigurationMeans(tree, path, machine);
  }
}

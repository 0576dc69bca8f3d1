/**
 * What a configuration means, said about its flattened lines alone: which section each line falls in, and what the
 * lines of each section say. The parser computes exactly this.
 */
module PacmanMeaning {
  import opened Wrappers
  import opened PacmanText
  import opened SigLevels
  import opened PacmanConf

  function Last<T>(s: seq<T>): T
    requires s != []
  {
    s[|s| - 1]
  }

  function Init<T>(s: seq<T>): seq<T>
    requires s != []
  {
    s[..|s| - 1]
  }

  // The reference

  /** The section in effect after these lines. */
  function SectionOf(lines: seq<string>): string {
    if lines == [] then ""
    else
      var line := LineOf(Last(lines));
      if line.Section? then line.name else SectionOf(Init(lines))
  }

  predicate OpensRepository(line: Line) {
    line.Section? && line.name != OPTIONS
  }

  /** The repositories, in the order of their sections. */
  function Names(lines: seq<string>): seq<string> {
    if lines == [] then []
    else
      var line := LineOf(Last(lines));
      Names(Init(lines)) + (if OpensRepository(line) then [line.name] else [])
  }

  /** The values given for a key anywhere under a section, in order. */
  function ValuesOf(lines: seq<string>, section: string, key: string): seq<string> {
    if lines == [] then []
    else
      ValuesOf(Init(lines), section, key) + ValueOfLast(LineOf(Last(lines)), SectionOf(Init(lines)), section, key)
  }

  function ValueOfLast(line: Line, current: string, section: string, key: string): seq<string> {
    if line.Setting? && line.key == key && current == section && section != "" then [line.value] else []
  }

  /** All the words of several values. */
  function AllWords(values: seq<string>): seq<string> {
    if values == [] then [] else AllWords(Init(values)) + Words(Last(values))
  }

  predicate NamesDistinct(lines: seq<string>) {
    lines != [] ==>
      NamesDistinct(Init(lines)) &&
      var line := LineOf(Last(lines));
      (OpensRepository(line) ==> line.name !in Names(Init(lines)))
  }

  /** Every SigLevel under a section has a value that is all tokens. */
  predicate LevelsValid(lines: seq<string>) {
    lines != [] ==> LevelsValid(Init(lines)) && LevelValid(LineOf(Last(lines)), SectionOf(Init(lines)))
  }

  predicate LevelValid(line: Line, section: string) {
    line.Setting? && line.key == "SigLevel" && section != "" ==> LevelOf(line.value).Ok?
  }

  function RepositoryOf(lines: seq<string>, name: string): RawRepository {
    RawRepository(name, ValuesOf(lines, name, "Server"), SettingOf(AllWords(ValuesOf(lines, name, "SigLevel"))))
  }

  function Each<T>(f: string -> T, names: seq<string>): (all: seq<T>)
    ensures |all| == |names|
  {
    seq(|names|, i requires 0 <= i < |names| => f(names[i]))
  }

  function RepositoriesOf(lines: seq<string>, names: seq<string>): (repositories: seq<RawRepository>)
    ensures |repositories| == |names|
  {
    Each(name => RepositoryOf(lines, name), names)
  }

  function LastOr(values: seq<string>, otherwise: string): string {
    if values == [] then otherwise else Last(values)
  }

  function Meaning(lines: seq<string>, machine: string): Parsed {
    Parsed([], machine,
           LastOr(ValuesOf(lines, OPTIONS, "GPGDir"), ""),
           Resolved(AllWords(ValuesOf(lines, OPTIONS, "Architecture")), machine),
           SettingOf(AllWords(ValuesOf(lines, OPTIONS, "SigLevel"))),
           RepositoriesOf(lines, Names(lines)),
           SectionOf(lines))
  }

  // The parser computes it

  lemma {:induction false} SectionIsNamed(lines: seq<string>)
    ensures var section := SectionOf(lines);
            && (section != "" && section != OPTIONS ==> section in Names(lines))
            && (section != "" && section != OPTIONS ==> Last(Names(lines)) == section)
  {
    if lines != [] {
      SectionIsNamed(Init(lines));
    }
  }

  /** A section that no line has opened has no values. */
  lemma {:induction false} UnopenedHasNothing(lines: seq<string>, section: string, key: string)
    requires section !in Names(lines) && section != OPTIONS
    ensures ValuesOf(lines, section, key) == []
  {
    if lines != [] {
      UnopenedHasNothing(Init(lines), section, key);
      SectionIsNamed(Init(lines));
    }
  }

  lemma AllWordsMore(values: seq<string>, value: string)
    ensures AllWords(values + [value]) == AllWords(values) + Words(value)
  {
    assert Init(values + [value]) == values;
  }

  /** One more directive for a section combines into its setting. */
  lemma LevelMore(values: seq<string>, value: string)
    requires LevelOf(value).Ok?
    ensures Combine(SettingOf(AllWords(values)), LevelOf(value).value) == SettingOf(AllWords(values + [value]))
  {
    AllWordsMore(values, value);
    CombineIsConcatenation(AllWords(values), Words(value));
  }

  lemma ResolvedBoth(first: seq<string>, second: seq<string>, machine: string)
    ensures Resolved(first + second, machine) == Resolved(first, machine) + Resolved(second, machine)
  {
  }

  lemma ArchitecturesMore(values: seq<string>, value: string, machine: string)
    ensures Resolved(AllWords(values + [value]), machine) ==
            Resolved(AllWords(values), machine) + Resolved(Words(value), machine)
  {
    AllWordsMore(values, value);
    ResolvedBoth(AllWords(values), Words(value), machine);
  }

  /** The names of the repositories are distinct, so only the last one can be the current section. */
  lemma {:induction false} NamesAreDistinct(lines: seq<string>)
    requires NamesDistinct(lines)
    ensures forall i, j | 0 <= i < j < |Names(lines)| :: Names(lines)[i] != Names(lines)[j]
  {
    if lines != [] {
      NamesAreDistinct(Init(lines));
    }
  }

  lemma MeaningIsCurrent(lines: seq<string>, machine: string)
    ensures Current(Meaning(lines, machine))
  {
    SectionIsNamed(lines);
    var names, section := Names(lines), SectionOf(lines);
    if section != "" && section != OPTIONS {
      LastOfEach(lines, names);
    }
  }

  /** A line that gives no value to a section leaves that section's repository alone. */
  lemma SameRepository(lines: seq<string>, name: string)
    requires lines != []
    requires LineOf(Last(lines)).Setting? ==> SectionOf(Init(lines)) != name || name == ""
    ensures RepositoryOf(lines, name) == RepositoryOf(Init(lines), name)
  {
    assert ValuesOf(lines, name, "Server") == ValuesOf(Init(lines), name, "Server");
    assert ValuesOf(lines, name, "SigLevel") == ValuesOf(Init(lines), name, "SigLevel");
  }

  lemma EachMore<T>(f: string -> T, names: seq<string>, name: string)
    ensures Each(f, names + [name]) == Each(f, names) + [f(name)]
  {
  }

  lemma EachSame<T>(f: string -> T, g: string -> T, names: seq<string>)
    requires forall i | 0 <= i < |names| :: f(names[i]) == g(names[i])
    ensures Each(f, names) == Each(g, names)
  {
  }

  lemma EachLast<T>(f: string -> T, g: string -> T, names: seq<string>)
    requires names != [] && forall i | 0 <= i < |names| - 1 :: f(names[i]) == g(names[i])
    ensures Each(f, names) == Each(g, names)[|names| - 1 := f(Last(names))]
  {
  }

  lemma DefinedIsNamed(lines: seq<string>, names: seq<string>, name: string)
    ensures Defined(RepositoriesOf(lines, names), name) <==> name in names
  {
    if name in names {
      var i :| 0 <= i < |names| && names[i] == name;
      assert RepositoriesOf(lines, names)[i].name == name;
    }
  }

  lemma LastOfEach(lines: seq<string>, names: seq<string>)
    requires names != []
    ensures Last(RepositoriesOf(lines, names)) == RepositoryOf(lines, Last(names))
  {
  }

  lemma OneMoreRepository(lines: seq<string>, names: seq<string>, name: string)
    ensures RepositoriesOf(lines, names + [name]) == RepositoriesOf(lines, names) + [RepositoryOf(lines, name)]
  {
    EachMore(other => RepositoryOf(lines, other), names, name);
  }

  /** A line that gives nothing to these sections leaves their repositories alone. */
  lemma SameRepositories(lines: seq<string>, names: seq<string>)
    requires lines != []
    requires LineOf(Last(lines)).Setting? ==> SectionOf(Init(lines)) !in names || SectionOf(Init(lines)) == ""
    ensures RepositoriesOf(lines, names) == RepositoriesOf(Init(lines), names)
  {
    var after, before := name => RepositoryOf(lines, name), name => RepositoryOf(Init(lines), name);
    forall i | 0 <= i < |names|
      ensures after(names[i]) == before(names[i])
    {
      SameRepository(lines, names[i]);
    }
    EachSame(after, before, names);
  }

  /** A section line leaves the repositories so far alone and may add an empty one. */
  lemma SectionRepositories(lines: seq<string>, name: string)
    requires lines != [] && LineOf(Last(lines)) == Section(name)
    ensures var before := RepositoriesOf(Init(lines), Names(Init(lines)));
            && (name == OPTIONS ==> RepositoriesOf(lines, Names(lines)) == before)
            && (name != OPTIONS && name !in Names(Init(lines)) ==>
                  RepositoriesOf(lines, Names(lines)) == before + [RawRepository(name, [], UNDECIDED)])
  {
    var names := Names(Init(lines));
    SameRepositories(lines, names);
    if name != OPTIONS && name !in names {
      NewRepository(lines, name);
      OneMoreRepository(lines, names, name);
    }
  }

  lemma NewRepository(lines: seq<string>, name: string)
    requires lines != [] && LineOf(Last(lines)) == Section(name)
    requires name != OPTIONS && name !in Names(Init(lines))
    ensures RepositoryOf(lines, name) == RawRepository(name, [], UNDECIDED)
  {
    UnopenedHasNothing(Init(lines), name, "Server");
    UnopenedHasNothing(Init(lines), name, "SigLevel");
    SameRepository(lines, name);
    assert AllWords([]) == [] && SettingOf([]) == UNDECIDED;
  }

  lemma SectionStep(lines: seq<string>, machine: string, name: string)
    requires lines != [] && LineOf(Last(lines)) == Section(name)
    ensures var before := Meaning(Init(lines), machine);
            BeginSection(before, name) ==
            if name != OPTIONS && name in Names(Init(lines)) then Err(DefinedTwice(name))
            else Ok(Meaning(lines, machine))
  {
    DefinedIsNamed(Init(lines), Names(Init(lines)), name);
    SameOptions(lines, machine);
    SectionRepositories(lines, name);
  }

  /** A line that is not a setting under [options] leaves the options alone. */
  lemma SameOptions(lines: seq<string>, machine: string)
    requires lines != []
    requires LineOf(Last(lines)).Setting? ==> SectionOf(Init(lines)) != OPTIONS
    ensures var before, after := Meaning(Init(lines), machine), Meaning(lines, machine);
            after == before.(repositories := after.repositories, section := after.section)
  {
    assert ValuesOf(lines, OPTIONS, "GPGDir") == ValuesOf(Init(lines), OPTIONS, "GPGDir");
    assert ValuesOf(lines, OPTIONS, "Architecture") == ValuesOf(Init(lines), OPTIONS, "Architecture");
    assert ValuesOf(lines, OPTIONS, "SigLevel") == ValuesOf(Init(lines), OPTIONS, "SigLevel");
  }

  /** A setting under [options] leaves the repositories alone. */
  lemma OptionRepositories(lines: seq<string>)
    requires lines != [] && LineOf(Last(lines)).Setting? && SectionOf(Init(lines)) == OPTIONS
    ensures RepositoriesOf(lines, Names(lines)) == RepositoriesOf(Init(lines), Names(Init(lines)))
  {
    OptionsIsNoRepository(Init(lines));
    SameRepositories(lines, Names(Init(lines)));
  }

  lemma OptionStep(lines: seq<string>, machine: string, key: string, value: string)
    requires lines != [] && LineOf(Last(lines)) == Setting(key, value) && SectionOf(Init(lines)) == OPTIONS
    ensures HandleOption(Meaning(Init(lines), machine), key, value) ==
            if key == "SigLevel" && LevelOf(value).Err? then Err(BadLevel(LevelOf(value).error))
            else Ok(Meaning(lines, machine))
  {
    OptionRepositories(lines);
    OtherKeys(lines, OPTIONS, key);
    if key == "Architecture" {
      ArchitecturesMore(ValuesOf(Init(lines), OPTIONS, key), value, machine);
    } else if key == "SigLevel" && LevelOf(value).Ok? {
      LevelMore(ValuesOf(Init(lines), OPTIONS, key), value);
    }
  }

  /** A line gives nothing to other keys. */
  lemma OtherKeys(lines: seq<string>, section: string, key: string)
    requires lines != [] && LineOf(Last(lines)).Setting? && LineOf(Last(lines)).key == key
    ensures key != "GPGDir" ==> ValuesOf(lines, section, "GPGDir") == ValuesOf(Init(lines), section, "GPGDir")
    ensures key != "Architecture" ==>
              ValuesOf(lines, section, "Architecture") == ValuesOf(Init(lines), section, "Architecture")
    ensures key != "SigLevel" ==> ValuesOf(lines, section, "SigLevel") == ValuesOf(Init(lines), section, "SigLevel")
    ensures key != "Server" ==> ValuesOf(lines, section, "Server") == ValuesOf(Init(lines), section, "Server")
  {
  }

  lemma {:induction false} OptionsIsNoRepository(lines: seq<string>)
    ensures OPTIONS !in Names(lines)
  {
    if lines != [] {
      OptionsIsNoRepository(Init(lines));
    }
  }

  /** A setting under a repository changes the last one only. */
  lemma LastRepository(lines: seq<string>)
    requires lines != [] && LineOf(Last(lines)).Setting? && NamesDistinct(Init(lines))
    requires SectionOf(Init(lines)) != OPTIONS && SectionOf(Init(lines)) != ""
    ensures var names := Names(Init(lines));
            && names != [] && Last(names) == SectionOf(Init(lines)) && Names(lines) == names
            && RepositoriesOf(lines, names) ==
               RepositoriesOf(Init(lines), names)[|names| - 1 := RepositoryOf(lines, Last(names))]
  {
    var names := Names(Init(lines));
    SectionIsNamed(Init(lines));
    NamesAreDistinct(Init(lines));
    var after, before := name => RepositoryOf(lines, name), name => RepositoryOf(Init(lines), name);
    forall i | 0 <= i < |names| - 1
      ensures after(names[i]) == before(names[i])
    {
      SameRepository(lines, names[i]);
    }
    EachLast(after, before, names);
  }

  /** What a setting adds to its repository. */
  function Added(repository: RawRepository, key: string, value: string): RawRepository
    requires key == "SigLevel" ==> LevelOf(value).Ok?
  {
    if key == "Server" then repository.(servers := repository.servers + [value])
    else if key == "SigLevel" then repository.(sig := Combine(repository.sig, LevelOf(value).value))
    else repository
  }

  lemma SettingAdds(lines: seq<string>, key: string, value: string, section: string)
    requires lines != [] && LineOf(Last(lines)) == Setting(key, value)
    requires SectionOf(Init(lines)) == section && section != ""
    requires key == "SigLevel" ==> LevelOf(value).Ok?
    ensures RepositoryOf(lines, section) == Added(RepositoryOf(Init(lines), section), key, value)
  {
    OtherKeys(lines, section, key);
    if key == "SigLevel" {
      LevelMore(ValuesOf(Init(lines), section, key), value);
    }
  }

  lemma HandlingAdds(s: Parsed, key: string, value: string)
    requires s.repositories != [] && (key == "SigLevel" ==> LevelOf(value).Ok?)
    ensures HandleRepository(s, key, value) == Ok(UpdateLast(s, Added(Last(s.repositories), key, value)))
  {
    assert s.repositories[|s.repositories| - 1 := Last(s.repositories)] == s.repositories;
  }

  /** The last repository of the meaning after a setting is the one before with the setting added. */
  lemma MeaningUpdates(lines: seq<string>, machine: string, key: string, value: string)
    requires lines != [] && LineOf(Last(lines)) == Setting(key, value) && NamesDistinct(Init(lines))
    requires SectionOf(Init(lines)) != OPTIONS && SectionOf(Init(lines)) != ""
    requires key == "SigLevel" ==> LevelOf(value).Ok?
    ensures var before := Meaning(Init(lines), machine);
            && before.repositories != []
            && Meaning(lines, machine) == UpdateLast(before, Added(Last(before.repositories), key, value))
  {
    LastRepository(lines);
    SameOptions(lines, machine);
    SettingAdds(lines, key, value, SectionOf(Init(lines)));
    LastOfEach(Init(lines), Names(Init(lines)));
  }

  lemma RepositoryStep(lines: seq<string>, machine: string, key: string, value: string)
    requires lines != [] && LineOf(Last(lines)) == Setting(key, value) && NamesDistinct(Init(lines))
    requires SectionOf(Init(lines)) != OPTIONS && SectionOf(Init(lines)) != ""
    ensures var before := Meaning(Init(lines), machine);
            && before.repositories != []
            && (if key == "SigLevel" && LevelOf(value).Err? then HandleRepository(before, key, value).Err?
                else HandleRepository(before, key, value) == Ok(Meaning(lines, machine)))
  {
    LastRepository(lines);
    if key == "SigLevel" ==> LevelOf(value).Ok? {
      MeaningUpdates(lines, machine, key, value);
      HandlingAdds(Meaning(Init(lines), machine), key, value);
    }
  }

  /** One more line changes the meaning as the parser does. */
  lemma LineStep(lines: seq<string>, machine: string)
    requires lines != [] && NamesDistinct(Init(lines)) && !IsInclude(LineOf(Last(lines)))
    ensures Current(Meaning(Init(lines), machine))
    ensures var before, line := Meaning(Init(lines), machine), LineOf(Last(lines));
            var after := HandlePlain(before, line);
            && (after.Ok? <==> (OpensRepository(line) ==> line.name !in Names(Init(lines))) &&
                               LevelValid(line, SectionOf(Init(lines))))
            && (after.Ok? ==> after.value == Meaning(lines, machine))
  {
    var before, line, section := Meaning(Init(lines), machine), LineOf(Last(lines)), SectionOf(Init(lines));
    MeaningIsCurrent(Init(lines), machine);
    if line.Section? {
      SectionStep(lines, machine, line.name);
    } else if line.Setting? && section == OPTIONS {
      OptionStep(lines, machine, line.key, line.value);
    } else if line.Setting? && section != "" {
      RepositoryStep(lines, machine, line.key, line.value);
    } else {
      IdleStep(lines, machine);
    }
  }

  lemma IdleStep(lines: seq<string>, machine: string)
    requires lines != [] && !LineOf(Last(lines)).Section?
    requires LineOf(Last(lines)).Nothing? || SectionOf(Init(lines)) == ""
    ensures Meaning(lines, machine) == Meaning(Init(lines), machine)
  {
    SameOptions(lines, machine);
    SameRepositories(lines, Names(Init(lines)));
  }

  /** Folding the lines gives their meaning, and fails exactly on a repeated repository or a bad level. */
  lemma {:induction false} FoldIsMeaning(lines: seq<string>, machine: string)
    requires NoIncludes(lines)
    ensures var after := Fold(lines, Started(machine));
            && (after.Ok? <==> NamesDistinct(lines) && LevelsValid(lines))
            && (after.Ok? ==> after.value == Meaning(lines, machine))
  {
    if lines == [] {
      assert Fold(lines, Started(machine)) == Ok(Started(machine));
      NothingMeans(machine);
    } else {
      FoldIsMeaning(Init(lines), machine);
      if NamesDistinct(Init(lines)) && LevelsValid(Init(lines)) {
        LineStep(lines, machine);
      }
    }
  }

  lemma NothingMeans(machine: string)
    ensures Meaning([], machine) == Started(machine)
  {
    assert ValuesOf([], OPTIONS, "SigLevel") == [] && ValuesOf([], OPTIONS, "Architecture") == [];
    assert AllWords([]) == [] && SettingOf([]) == UNDECIDED;
  }
}

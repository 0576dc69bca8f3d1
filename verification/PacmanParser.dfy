/** The configuration parser as the object it is: each method takes its fields where PacmanConf says. */
module PacmanParser {
  import opened Wrappers
  import opened PacmanText
  import opened SigLevels
  import P = PacmanConf

  /** `section` is the variable that all files being read share by reference. */
  class Parser {
    const machine: string
    var configurationFiles: seq<string>
    var gpgDirectory: string
    var architectures: seq<string>
    var globalSig: SigSetting
    var repositories: seq<P.RawRepository>
    var section: string

    ghost function Abs(): P.Parsed
      reads this
    {
      P.Parsed(configurationFiles, machine, gpgDirectory, architectures, globalSig, repositories, section)
    }

    constructor (machine: string)
      ensures Abs() == P.Started(machine)
    {
      this.machine := machine;
      configurationFiles, gpgDirectory, architectures, globalSig := [], "", [], UNDECIDED;
      repositories, section := [], "";
    }

    /** What a method's outcome amounts to; after an error the state is not used. */
    ghost function Outcome(result: Result<(), P.ParseError>): Result<P.Parsed, P.ParseError>
      reads this
    {
      if result.Ok? then Ok(Abs()) else Err(result.error)
    }

    method BeginSection(name: string) returns (result: Result<(), P.ParseError>)
      modifies this
      ensures Outcome(result) == P.BeginSection(old(Abs()), name)
    {
      section := name;
      if section == P.OPTIONS {
        return Ok(());
      }
      if P.Defined(repositories, section) {
        return Err(P.DefinedTwice(section));
      }
      repositories := repositories + [P.RawRepository(section, [], UNDECIDED)];
      return Ok(());
    }

    method HandleOption(key: string, value: string) returns (result: Result<(), P.ParseError>)
      modifies this
      ensures Outcome(result) == P.HandleOption(old(Abs()), key, value)
    {
      if key == "GPGDir" {
        gpgDirectory := value;
      } else if key == "Architecture" {
        AddArchitectures(Words(value));
      } else if key == "SigLevel" {
        var level := ParseSigLevel(value);
        if level.Err? {
          return Err(P.BadLevel(level.error));
        }
        globalSig := Combine(globalSig, level.value);
      }
      return Ok(());
    }

    method AddArchitectures(words: seq<string>)
      modifies this`architectures
      ensures architectures == old(architectures) + P.Resolved(words, machine)
    {
      for i := 0 to |words|
        invariant architectures == old(architectures) + P.Resolved(words, machine)[..i]
      {
        architectures := architectures + [if words[i] == "auto" then machine else words[i]];
      }
    }

    method HandleRepository(key: string, value: string) returns (result: Result<(), P.ParseError>)
      requires repositories != []
      modifies this`repositories
      ensures Outcome(result) == P.HandleRepository(old(Abs()), key, value)
    {
      var last := |repositories| - 1;
      if key == "Server" {
        repositories := repositories[last := repositories[last].(servers := repositories[last].servers + [value])];
      } else if key == "SigLevel" {
        var level := ParseSigLevel(value);
        if level.Err? {
          return Err(P.BadLevel(level.error));
        }
        repositories := repositories[last := repositories[last].(sig := Combine(repositories[last].sig, level.value))];
      }
      return Ok(());
    }

    method HandleSetting(tree: P.FileTree, path: string, depth: nat, key: string, value: string)
        returns (result: Result<(), P.ParseError>)
      requires P.Current(Abs()) && depth <= P.MAX_INCLUDE_DEPTH
      modifies this
      ensures Outcome(result) ==
              if key == "Include" then
                var included := tree.included(path, value);
                if included == [] then Err(P.NoSuchInclude(value)) else P.ReadAll(tree, included, depth + 1, old(Abs()))
              else P.HandleSetting(old(Abs()), key, value)
      decreases P.MAX_INCLUDE_DEPTH + 1 - depth, 1
    {
      if key == "Include" {
        result := HandleInclude(tree, path, depth, value);
        return;
      }
      if section == P.OPTIONS {
        result := HandleOption(key, value);
        return;
      }
      if section == "" {
        return Ok(());
      }
      result := HandleRepository(key, value);
    }

    method HandleInclude(tree: P.FileTree, path: string, depth: nat, value: string)
        returns (result: Result<(), P.ParseError>)
      requires P.Current(Abs()) && depth <= P.MAX_INCLUDE_DEPTH
      modifies this
      ensures Outcome(result) ==
              var included := tree.included(path, value);
              if included == [] then Err(P.NoSuchInclude(value)) else P.ReadAll(tree, included, depth + 1, old(Abs()))
      decreases P.MAX_INCLUDE_DEPTH + 1 - depth, 0
    {
      var included := tree.included(path, value);
      if included == [] {
        return Err(P.NoSuchInclude(value));
      }
      for i := 0 to |included|
        invariant P.Current(Abs())
        invariant P.ReadAll(tree, included[i..], depth + 1, Abs()) == P.ReadAll(tree, included, depth + 1, old(Abs()))
      {
        assert included[i..][1..] == included[i + 1..];
        var read := ReadFile(tree, included[i], depth + 1);
        if read.Err? {
          return read;
        }
      }
      return Ok(());
    }

    method ReadFile(tree: P.FileTree, path: string, depth: nat) returns (result: Result<(), P.ParseError>)
      requires P.Current(Abs()) && depth <= P.MAX_INCLUDE_DEPTH + 1
      modifies this
      ensures Outcome(result) == P.ReadFile(tree, path, depth, old(Abs()))
      decreases P.MAX_INCLUDE_DEPTH + 1 - depth, 3
    {
      configurationFiles := configurationFiles + [path];
      if depth > P.MAX_INCLUDE_DEPTH {
        return Err(P.IncludeTooDeep(path));
      }
      var file := tree.files(path);
      if !file.Text? {
        return Err(P.CannotRead(path));
      }
      result := ReadLines(tree, path, depth, file.lines);
      if result.Ok? && file.readFails {
        return Err(P.CannotRead(path));
      }
    }

    method ReadLines(tree: P.FileTree, path: string, depth: nat, lines: seq<string>)
        returns (result: Result<(), P.ParseError>)
      requires P.Current(Abs()) && depth <= P.MAX_INCLUDE_DEPTH
      modifies this
      ensures Outcome(result) == P.ReadLines(tree, path, depth, lines, old(Abs()))
      decreases P.MAX_INCLUDE_DEPTH + 1 - depth, 2
    {
      for i := 0 to |lines|
        invariant P.Current(Abs())
        invariant P.ReadLines(tree, path, depth, lines[i..], Abs()) ==
                  P.ReadLines(tree, path, depth, lines, old(Abs()))
      {
        assert lines[i..][1..] == lines[i + 1..];
        var handled: Result<(), P.ParseError> := Ok(());
        match LineOf(lines[i]) {
          case Nothing =>
          case Section(name) => handled := BeginSection(name);
          case Setting(key, value) => handled := HandleSetting(tree, path, depth, key, value);
        }
        if handled.Err? {
          return handled;
        }
      }
      return Ok(());
    }
  }
}

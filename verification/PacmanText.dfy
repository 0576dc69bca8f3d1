/** The text of a pacman configuration: blanks, words, lines, and substitution into server addresses. */
module PacmanText {
  import opened Wrappers
  import opened ByteStrings

  predicate IsBlank(c: char) {
    c == ' ' || c == '\t' || c == '\r'
  }

  function TrimLeft(text: string): string {
    if text != "" && IsBlank(text[0]) then TrimLeft(text[1..]) else text
  }

  function TrimRight(text: string): string {
    if text != "" && IsBlank(text[|text| - 1]) then TrimRight(text[..|text| - 1]) else text
  }

  function Trim(text: string): string {
    TrimRight(TrimLeft(text))
  }

  /** The position of the first `c`, or the length. */
  function Find(text: string, c: char): (at: nat)
    ensures at <= |text|
    ensures at < |text| ==> text[at] == c
  {
    if text == "" || text[0] == c then 0 else 1 + Find(text[1..], c)
  }

  /** The text of a line without its comment and surrounding blanks. */
  function Significant(line: string): string {
    Trim(line[..Find(line, '#')])
  }

  function WordLength(text: string): (length: nat)
    ensures length <= |text|
    ensures text != "" && !IsSpace(text[0]) ==> length > 0
    ensures forall i | 0 <= i < length :: !IsSpace(text[i])
    ensures length < |text| ==> IsSpace(text[length])
  {
    if text == "" || IsSpace(text[0]) then 0 else 1 + WordLength(text[1..])
  }

  /** The maximal runs of characters that are not spaces. */
  function Words(text: string): seq<string>
    decreases |text|
  {
    if text == "" then []
    else if IsSpace(text[0]) then Words(text[1..])
    else [text[..WordLength(text)]] + Words(text[WordLength(text)..])
  }

  /** Two values separated by a space hold the words of the first and then those of the second. */
  lemma {:induction false} WordsOfBoth(first: string, space: char, second: string)
    requires IsSpace(space)
    ensures Words(first + ([space] + second)) == Words(first) + Words(second)
    decreases |first|
  {
    var tail := [space] + second;
    if first == "" {
      assert first + tail == tail && tail[1..] == second;
    } else if IsSpace(first[0]) {
      WordsOfBoth(first[1..], space, second);
      assert (first + tail)[1..] == first[1..] + tail;
    } else {
      var length := WordLength(first);
      WordEndsWith(first, tail);
      WordsOfBoth(first[length..], space, second);
      Cut(first, tail, length);
      FirstWord(first);
      FirstWord(first + tail);
      WordFirst(first[..length], Words(first[length..]), Words(second));
    }
  }

  lemma FirstWord(text: string)
    requires text != "" && !IsSpace(text[0])
    ensures Words(text) == [text[..WordLength(text)]] + Words(text[WordLength(text)..])
  {
  }

  lemma WordFirst(word: string, words: seq<string>, others: seq<string>)
    ensures [word] + (words + others) == [word] + words + others
  {
  }

  lemma Cut(first: string, second: string, at: nat)
    requires at <= |first|
    ensures (first + second)[..at] == first[..at] && (first + second)[at..] == first[at..] + second
  {
  }

  lemma {:induction false} WordEndsWith(text: string, rest: string)
    requires rest != "" && IsSpace(rest[0])
    ensures WordLength(text + rest) == WordLength(text)
  {
    if text != "" && !IsSpace(text[0]) {
      WordEndsWith(text[1..], rest);
      assert (text + rest)[1..] == text[1..] + rest;
    }
  }

  // Lines

  datatype Line = Nothing | Section(name: string) | Setting(key: string, value: string)

  function LineOf(raw: string): Line {
    var line := Significant(raw);
    if line == "" then Nothing
    else if line[0] == '[' && line[|line| - 1] == ']' then Section(Trim(line[1..|line| - 1]))
    else
      var equals := Find(line, '=');
      if equals == |line| then Nothing else Setting(Trim(line[..equals]), Trim(line[equals + 1..]))
  }

  // Substitution

  predicate OccursAt(text: string, token: string, at: nat) {
    at + |token| <= |text| && text[at..at + |token|] == token
  }

  /** Every occurrence, found from the left, replaced; a replacement is not searched again. */
  function Replaced(text: string, token: string, with: string): string
    requires token != ""
    decreases |text|
  {
    if text == "" then ""
    else if OccursAt(text, token, 0) then with + Replaced(text[|token|..], token, with)
    else [text[0]] + Replaced(text[1..], token, with)
  }

  function Substituted(url: string, repository: string, architecture: string): string {
    Replaced(Replaced(url, "$repo", repository), "$arch", architecture)
  }

  /** The token does not occur at any of these positions. */
  predicate Free(text: string, token: string, from: nat, to: nat) {
    forall i | from <= i < to :: !OccursAt(text, token, i)
  }

  method FindFrom(text: string, token: string, from: nat) returns (at: Option<nat>)
    requires from <= |text|
    ensures at.Some? ==> from <= at.value && OccursAt(text, token, at.value) && Free(text, token, from, at.value)
    ensures at.None? ==> Free(text, token, from, |text| + 1)
  {
    for i := from to |text| + 1
      invariant Free(text, token, from, i)
    {
      if OccursAt(text, token, i) {
        return Some(i);
      }
    }
    return None;
  }

  /** Replaces in place, going on after each replacement. */
  method ReplaceAll(text: string, token: string, with: string) returns (url: string)
    requires token != ""
    ensures url == Replaced(text, token, with)
  {
    url := text;
    var from: nat := 0;
    var at := FindFrom(url, token, from);
    assert ReplacedFrom(text, 0, token, with) == Replaced(text, token, with) by {
      assert text[0..] == text;
    }
    while at.Some?
      invariant from <= |url|
      invariant at.Some? ==> from <= at.value && OccursAt(url, token, at.value) && Free(url, token, from, at.value)
      invariant at.None? ==> Free(url, token, from, |url| + 1)
      invariant ReplacedFrom(url, from, token, with) == Replaced(text, token, with)
      decreases |url| - from
    {
      ReplaceOne(url, from, token, with, at.value);
      url := url[..at.value] + with + url[at.value + |token|..];
      from := at.value + |with|;
      at := FindFrom(url, token, from);
    }
    NoneLeft(url, from, token, with);
  }

  /** The text as it is up to a position, with replacements from there on. */
  ghost function ReplacedFrom(text: string, from: nat, token: string, with: string): string
    requires token != "" && from <= |text|
  {
    text[..from] + Replaced(text[from..], token, with)
  }

  lemma OccursInTail(text: string, token: string, from: nat)
    requires from <= |text|
    ensures OccursAt(text[from..], token, 0) <==> OccursAt(text, token, from)
  {
    if from + |token| <= |text| {
      assert text[from..][0..|token|] == text[from..from + |token|];
    }
  }

  /** A position where the token does not occur is passed over. */
  lemma PassOver(text: string, from: nat, token: string, with: string)
    requires token != "" && from < |text| && !OccursAt(text, token, from)
    ensures ReplacedFrom(text, from, token, with) == ReplacedFrom(text, from + 1, token, with)
  {
    OccursInTail(text, token, from);
    assert text[from..][1..] == text[from + 1..];
    var rest := Replaced(text[from + 1..], token, with);
    assert Replaced(text[from..], token, with) == [text[from]] + rest;
    assert text[..from] + ([text[from]] + rest) == text[..from + 1] + rest;
  }

  lemma {:induction false} SkipTo(text: string, from: nat, token: string, with: string, at: nat)
    requires token != "" && from <= at <= |text| && Free(text, token, from, at)
    ensures ReplacedFrom(text, from, token, with) == ReplacedFrom(text, at, token, with)
    decreases at - from
  {
    if from < at {
      PassOver(text, from, token, with);
      SkipTo(text, from + 1, token, with, at);
    }
  }

  lemma ReplaceOne(text: string, from: nat, token: string, with: string, at: nat)
    requires token != "" && from <= at && OccursAt(text, token, at) && Free(text, token, from, at)
    ensures var replaced := text[..at] + with + text[at + |token|..];
            ReplacedFrom(replaced, at + |with|, token, with) == ReplacedFrom(text, from, token, with)
  {
    var replaced, rest := text[..at] + with + text[at + |token|..], text[at + |token|..];
    SkipTo(text, from, token, with, at);
    OccursInTail(text, token, at);
    assert text[at..][|token|..] == rest;
    assert replaced[at + |with|..] == rest;
    assert replaced[..at + |with|] == text[..at] + with;
    AppendTwice(text[..at], with, Replaced(rest, token, with));
  }

  lemma AppendTwice(first: string, second: string, third: string)
    ensures (first + second) + third == first + (second + third)
  {
  }

  lemma NoneLeft(text: string, from: nat, token: string, with: string)
    requires token != "" && from <= |text| && Free(text, token, from, |text| + 1)
    ensures ReplacedFrom(text, from, token, with) == text
  {
    SkipTo(text, from, token, with, |text|);
    assert text[|text|..] == "";
    assert text[..|text|] + "" == text;
  }

  /** A server address is replaced in place for the repository and then for the architecture. */
  method Substitute(url: string, repository: string, architecture: string) returns (substituted: string)
    ensures substituted == Substituted(url, repository, architecture)
  {
    substituted := ReplaceAll(url, "$repo", repository);
    substituted := ReplaceAll(substituted, "$arch", architecture);
  }

  // What substitution means: a template's variables are filled in

  datatype Piece = Literal(text: string) | RepositoryName | ArchitectureName

  function Template(pieces: seq<Piece>): string {
    if pieces == [] then ""
    else (match pieces[0]
          case Literal(text) => text
          case RepositoryName => "$repo"
          case ArchitectureName => "$arch") + Template(pieces[1..])
  }

  function Filled(pieces: seq<Piece>, repository: string, architecture: string): string {
    if pieces == [] then ""
    else (match pieces[0]
          case Literal(text) => text
          case RepositoryName => repository
          case ArchitectureName => architecture) + Filled(pieces[1..], repository, architecture)
  }

  predicate NoDollar(text: string) {
    forall i | 0 <= i < |text| :: text[i] != '$'
  }

  predicate PlainPieces(pieces: seq<Piece>) {
    forall i | 0 <= i < |pieces| :: pieces[i].Literal? ==> NoDollar(pieces[i].text)
  }

  /** At some position the name runs into "$arch": it contains it, or ends in the beginning of it. */
  predicate Clashes(name: string) {
    exists i | 0 <= i < |name| :: ClashesAt(name, i)
  }

  predicate ClashesAt(name: string, i: nat)
    requires i < |name|
  {
    var tail := name[i..];
    if |tail| < 5 then tail == "$arch"[..|tail|] else tail[..5] == "$arch"
  }

  /**
   * Substitution fills in every variable of every template and touches nothing else exactly when the repository's
   * name does not run into "$arch": such a name is itself taken for a variable by the second pass.
   */
  lemma SubstitutionFillsIn(repository: string, architecture: string)
    ensures (forall pieces | PlainPieces(pieces) ::
               Substituted(Template(pieces), repository, architecture) == Filled(pieces, repository, architecture)) <==>
            architecture == "$arch" || !Clashes(repository)
  {
    if architecture == "$arch" || !Clashes(repository) {
      forall pieces | PlainPieces(pieces)
        ensures Substituted(Template(pieces), repository, architecture) == Filled(pieces, repository, architecture)
      {
        FirstPass(pieces, repository);
        SecondPass(pieces, repository, architecture);
      }
    } else {
      var pieces := ClashingTemplate(repository, architecture);
      assert PlainPieces(pieces);
    }
  }

  /** For a name that clashes there is a template that comes out wrong. */
  lemma ClashingTemplate(repository: string, architecture: string) returns (pieces: seq<Piece>)
    requires Clashes(repository) && architecture != "$arch"
    ensures PlainPieces(pieces)
    ensures Substituted(Template(pieces), repository, architecture) != Filled(pieces, repository, architecture)
  {
    var i :| 0 <= i < |repository| && ClashesAt(repository, i);
    var length := |repository| - i;
    var rest := if length < 5 then "$arch"[length..] else "";
    pieces := [RepositoryName, Literal(rest)];
    assert NoDollar(rest);
    var text := repository + rest;
    assert OccursAt(text, "$arch", i) by {
      if length < 5 {
        assert text[i..i + 5] == repository[i..] + rest;
        assert "$arch"[..length] + "$arch"[length..] == "$arch";
      } else {
        assert text[i..i + 5] == repository[i..][..5];
      }
    }
    TwoPieces(pieces, rest, repository, architecture);
    FirstPass(pieces, repository);
    ChangedWhereItOccurs(text, "$arch", architecture, i);
  }

  lemma TwoPieces(pieces: seq<Piece>, rest: string, repository: string, architecture: string)
    requires pieces == [RepositoryName, Literal(rest)]
    ensures Filled(pieces, repository, architecture) == repository + rest
    ensures Template(WithName(pieces, repository)) == repository + rest
  {
    var tail := [Literal(rest)];
    assert pieces[1..] == tail && tail[1..] == [];
    assert rest + "" == rest;
    assert Filled(tail, repository, architecture) == rest;
    assert Template(tail[1..]) == "";
    assert Template(tail) == rest + Template(tail[1..]);
    assert WithName(tail, repository) == tail + WithName([], repository) == tail;
    var named := WithName(pieces, repository);
    assert named == [Literal(repository)] + tail && named[1..] == tail;
  }

  /** Where a token occurs, replacing it by anything else gives another text. */
  lemma {:induction false} ChangedWhereItOccurs(text: string, token: string, with: string, at: nat)
    requires token != "" && with != token && OccursAt(text, token, at)
    ensures Replaced(text, token, with) != text
    decreases |text|
  {
    if OccursAt(text, token, 0) {
      var rest := text[|token|..];
      assert text == token + rest;
      ReplacedLength(rest, token, with);
      if |with| == |token| {
        assert (with + Replaced(rest, token, with))[..|token|] == with;
        assert text[..|token|] == token;
      }
    } else {
      OccursInTail(text[1..], token, at - 1);
      OccursInTail(text, token, at);
      assert text[1..][at - 1..] == text[at..];
      ChangedWhereItOccurs(text[1..], token, with, at - 1);
      assert text == [text[0]] + text[1..];
    }
  }

  /** Replacement by a shorter text never lengthens, by a longer one never shortens, by an equally long one neither. */
  lemma {:induction false} ReplacedLength(text: string, token: string, with: string)
    requires token != ""
    ensures |with| < |token| ==> |Replaced(text, token, with)| <= |text|
    ensures |with| > |token| ==> |Replaced(text, token, with)| >= |text|
    decreases |text|
  {
    if text != "" {
      if OccursAt(text, token, 0) {
        ReplacedLength(text[|token|..], token, with);
      } else {
        ReplacedLength(text[1..], token, with);
      }
    }
  }

  lemma MatchesThroughout(text: string, token: string, at: nat, i: nat)
    requires i < |token|
    ensures OccursAt(text, token, at) ==> text[at + i] == token[i]
  {
    if OccursAt(text, token, at) {
      assert text[at..at + |token|][i] == text[at + i];
    }
  }

  /** A text without the token's first character passes unchanged. */
  lemma {:induction false} PlainPasses(text: string, rest: string, token: string, with: string)
    requires token != "" && forall i | 0 <= i < |text| :: text[i] != token[0]
    ensures Replaced(text + rest, token, with) == text + Replaced(rest, token, with)
  {
    if text == "" {
      assert text + rest == rest;
    } else {
      assert (text + rest)[1..] == text[1..] + rest;
      PlainPasses(text[1..], rest, token, with);
      MatchesThroughout(text + rest, token, 0, 0);
    }
  }

  lemma TokenIsReplaced(rest: string, token: string, with: string)
    requires token != ""
    ensures Replaced(token + rest, token, with) == with + Replaced(rest, token, with)
  {
    assert (token + rest)[0..|token|] == token;
    assert (token + rest)[|token|..] == rest;
  }

  /** "$arch" passes the search for "$repo". */
  lemma ArchitecturePasses(rest: string, with: string)
    ensures Replaced("$arch" + rest, "$repo", with) == "$arch" + Replaced(rest, "$repo", with)
  {
    var text := "$arch" + rest;
    MatchesThroughout(text, "$repo", 0, 1);
    assert text[1..] == "arch" + rest;
    PlainPasses("arch", rest, "$repo", with);
    assert Replaced(text, "$repo", with) == ['$'] + ("arch" + Replaced(rest, "$repo", with));
    assert ['$'] + ("arch" + Replaced(rest, "$repo", with)) == "$arch" + Replaced(rest, "$repo", with);
  }

  /** The template with the repository filled in as text. */
  function WithName(pieces: seq<Piece>, repository: string): seq<Piece> {
    if pieces == [] then []
    else [if pieces[0].RepositoryName? then Literal(repository) else pieces[0]] + WithName(pieces[1..], repository)
  }

  lemma {:induction false} FirstPass(pieces: seq<Piece>, repository: string)
    requires PlainPieces(pieces)
    ensures Replaced(Template(pieces), "$repo", repository) == Template(WithName(pieces, repository))
  {
    if pieces != [] {
      var rest := Template(pieces[1..]);
      FirstPass(pieces[1..], repository);
      assert WithName(pieces, repository)[1..] == WithName(pieces[1..], repository);
      match pieces[0]
      case Literal(text) => PlainPasses(text, rest, "$repo", repository);
      case RepositoryName => TokenIsReplaced(rest, "$repo", repository);
      case ArchitectureName => ArchitecturePasses(rest, repository);
    }
  }

  lemma {:induction false} SecondPass(pieces: seq<Piece>, repository: string, architecture: string)
    requires PlainPieces(pieces) && (architecture == "$arch" || !Clashes(repository))
    ensures Replaced(Template(WithName(pieces, repository)), "$arch", architecture) ==
            Filled(pieces, repository, architecture)
  {
    if pieces != [] {
      var rest := Template(WithName(pieces[1..], repository));
      SecondPass(pieces[1..], repository, architecture);
      assert WithName(pieces, repository)[1..] == WithName(pieces[1..], repository);
      match pieces[0]
      case Literal(text) => PlainPasses(text, rest, "$arch", architecture);
      case RepositoryName => NamePasses(repository, rest, architecture);
      case ArchitectureName => TokenIsReplaced(rest, "$arch", architecture);
    }
  }

  /** A name that does not clash passes the search for "$arch". */
  lemma {:induction false} NamePasses(name: string, rest: string, architecture: string)
    requires architecture == "$arch" || !Clashes(name)
    ensures Replaced(name + rest, "$arch", architecture) == name + Replaced(rest, "$arch", architecture)
  {
    if architecture == "$arch" {
      ReplacedByItself(name + rest, "$arch");
      ReplacedByItself(rest, "$arch");
    } else if name == "" {
      assert name + rest == rest;
    } else {
      var text := name + rest;
      assert text[1..] == name[1..] + rest;
      assert !Clashes(name[1..]) by {
        forall i: nat | i < |name| - 1
          ensures !ClashesAt(name[1..], i)
        {
          assert name[1..][i..] == name[i + 1..];
          assert !ClashesAt(name, i + 1);
        }
      }
      NamePasses(name[1..], rest, architecture);
      assert !ClashesAt(name, 0) && name[0..] == name;
      NoneAtStart(name, rest);
    }
  }

  lemma NoneAtStart(name: string, rest: string)
    requires name != "" && !ClashesAt(name, 0)
    ensures !OccursAt(name + rest, "$arch", 0)
  {
    var text := name + rest;
    assert name[0..] == name;
    if |name| >= 5 {
      assert text[0..5] == name[..5];
    } else if |text| >= 5 {
      assert text[0..5][..|name|] == name;
    }
  }

  lemma {:induction false} ReplacedByItself(text: string, token: string)
    requires token != ""
    ensures Replaced(text, token, token) == text
    decreases |text|
  {
    if text != "" {
      if OccursAt(text, token, 0) {
        ReplacedByItself(text[|token|..], token);
        assert text == token + text[|token|..];
      } else {
        ReplacedByItself(text[1..], token);
        assert text == [text[0]] + text[1..];
      }
    }
  }
}

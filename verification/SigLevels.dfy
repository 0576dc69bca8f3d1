/** SigLevel: the mask and value a directive decides, merged over the level that encloses it. */
module SigLevels {
  import opened Wrappers
  import opened PacmanText

  // libalpm's signature level bits.
  const PACKAGE: bv32 := 0x1
  const PACKAGE_OPTIONAL: bv32 := 0x2
  const PACKAGE_MARGINAL_OK: bv32 := 0x4
  const PACKAGE_UNKNOWN_OK: bv32 := 0x8
  const DATABASE: bv32 := 0x400
  const DATABASE_OPTIONAL: bv32 := 0x800
  const DATABASE_MARGINAL_OK: bv32 := 0x1000
  const DATABASE_UNKNOWN_OK: bv32 := 0x2000

  /** Signatures required and only trusted keys, for packages and for databases. */
  const DEFAULT_LEVEL: bv32 := 0x401

  /** The bits a SigLevel setting decided, and their values; the other bits come from the enclosing level. */
  datatype SigSetting = SigSetting(mask: bv32, value: bv32)

  const UNDECIDED := SigSetting(0, 0)

  datatype Action = Never | Optional | Required | TrustedOnly | TrustAll

  datatype Token = Token(package: bool, database: bool, action: Action)

  predicate StartsWith(text: string, prefix: string) {
    |prefix| <= |text| && text[..|prefix|] == prefix
  }

  function ActionOf(text: string): Option<Action> {
    if text == "Never" then Some(Never)
    else if text == "Optional" then Some(Optional)
    else if text == "Required" then Some(Required)
    else if text == "TrustedOnly" then Some(TrustedOnly)
    else if text == "TrustAll" then Some(TrustAll)
    else None
  }

  function TokenOf(word: string): Option<Token> {
    var package, database := !StartsWith(word, "Database"), !StartsWith(word, "Package");
    var action := ActionOf(if !database then word[7..] else if !package then word[8..] else word);
    if action.Some? then Some(Token(package, database, action.value)) else None
  }

  function SetBits(setting: SigSetting, bits: bv32, enable: bool): SigSetting {
    SigSetting(setting.mask | bits, if enable then setting.value | bits else setting.value & !bits)
  }

  function ApplyAction(setting: SigSetting, signature: bv32, optional: bv32, marginal: bv32, unknown: bv32,
                       action: Action): SigSetting {
    match action
    case Never => SetBits(setting, signature | optional, false)
    case Optional => SetBits(SetBits(setting, signature, true), optional, true)
    case Required => SetBits(SetBits(setting, signature, true), optional, false)
    case TrustedOnly => SetBits(setting, marginal | unknown, false)
    case TrustAll => SetBits(setting, marginal | unknown, true)
  }

  function ApplyToken(setting: SigSetting, token: Token): SigSetting {
    var packaged := if token.package
      then ApplyAction(setting, PACKAGE, PACKAGE_OPTIONAL, PACKAGE_MARGINAL_OK, PACKAGE_UNKNOWN_OK, token.action)
      else setting;
    if token.database
    then ApplyAction(packaged, DATABASE, DATABASE_OPTIONAL, DATABASE_MARGINAL_OK, DATABASE_UNKNOWN_OK, token.action)
    else packaged
  }

  function Merge(setting: SigSetting, base: bv32): bv32 {
    (setting.value & setting.mask) | (base & !setting.mask)
  }

  /** A further directive for the same section. */
  function Combine(earlier: SigSetting, later: SigSetting): SigSetting {
    SigSetting(earlier.mask | later.mask, Merge(later, earlier.value))
  }

  predicate ValidWord(word: string) {
    TokenOf(word).Some?
  }

  /** Every word is a token. */
  predicate ValidWords(words: seq<string>) {
    words != [] ==> ValidWords(words[..|words| - 1]) && ValidWord(words[|words| - 1])
  }

  /** A step for every word in order. */
  function FoldWords<S>(step: (S, string) -> S, words: seq<string>, start: S): S {
    if words == [] then start else step(FoldWords(step, words[..|words| - 1], start), words[|words| - 1])
  }

  function ApplyWord(setting: SigSetting, word: string): SigSetting {
    if ValidWord(word) then ApplyToken(setting, TokenOf(word).value) else setting
  }

  /** What a list of words decides. */
  function SettingOf(words: seq<string>): SigSetting {
    FoldWords(ApplyWord, words, UNDECIDED)
  }

  lemma FoldOneMore<S>(step: (S, string) -> S, words: seq<string>, start: S, i: nat)
    requires i < |words|
    ensures FoldWords(step, words[..i + 1], start) == step(FoldWords(step, words[..i], start), words[i])
  {
    assert words[..i + 1][..i] == words[..i];
  }

  lemma {:induction false} FoldWordsBoth<S>(step: (S, string) -> S, first: seq<string>, second: seq<string>, start: S)
    ensures FoldWords(step, first + second, start) == FoldWords(step, second, FoldWords(step, first, start))
  {
    if second == [] {
      assert first + second == first;
    } else {
      assert (first + second)[..|first + second| - 1] == first + second[..|second| - 1];
      FoldWordsBoth(step, first, second[..|second| - 1], start);
    }
  }

  /** A map that takes one kind of step to another takes the one fold to the other. */
  lemma {:induction false} FoldMaps<S(!new), T>(from: (S, string) -> S, to: (T, string) -> T, image: S -> T,
                                               words: seq<string>, start: S)
    requires forall s, word :: image(from(s, word)) == to(image(s), word)
    ensures image(FoldWords(from, words, start)) == FoldWords(to, words, image(start))
  {
    if words != [] {
      FoldMaps(from, to, image, words[..|words| - 1], start);
    }
  }

  datatype LevelError = NoValue | Unrecognised(word: string)

  method ParseSigLevel(value: string) returns (setting: Result<SigSetting, LevelError>)
    ensures setting.Ok? <==> Words(value) != [] && ValidWords(Words(value))
    ensures setting.Ok? ==> setting.value == SettingOf(Words(value))
    ensures setting == LevelOf(value)
  {
    var words := Words(value);
    if words == [] {
      return Err(NoValue);
    }
    var decided := UNDECIDED;
    for i := 0 to |words|
      invariant ValidWords(words[..i])
      invariant decided == SettingOf(words[..i])
    {
      var token := TokenOf(words[i]);
      if token.None? {
        FirstBadAt(words, i);
        return Err(Unrecognised(words[i]));
      }
      decided := ApplyToken(decided, token.value);
      DecidesMore(words, i);
    }
    assert words[..|words|] == words;
    return Ok(decided);
  }

  lemma DecidesMore(words: seq<string>, i: nat)
    requires i < |words| && ValidWord(words[i])
    ensures SettingOf(words[..i + 1]) == ApplyToken(SettingOf(words[..i]), TokenOf(words[i]).value)
    ensures ValidWords(words[..i]) ==> ValidWords(words[..i + 1])
  {
    FoldOneMore(ApplyWord, words, UNDECIDED, i);
    assert words[..i + 1][..i] == words[..i];
  }

  /** The first word that is not a token. */
  function FirstBad(words: seq<string>): (bad: string)
    requires !ValidWords(words)
    ensures !ValidWord(bad) && bad in words
  {
    if ValidWords(words[..|words| - 1]) then words[|words| - 1]
    else FirstBad(words[..|words| - 1])
  }

  function LevelOf(value: string): Result<SigSetting, LevelError> {
    var words := Words(value);
    if words == [] then Err(NoValue)
    else if ValidWords(words) then Ok(SettingOf(words)) else Err(Unrecognised(FirstBad(words)))
  }

  lemma {:induction false} FirstBadAt(words: seq<string>, i: nat)
    requires i < |words| && ValidWords(words[..i]) && !ValidWord(words[i])
    ensures !ValidWords(words) && FirstBad(words) == words[i]
    decreases |words|
  {
    var before := words[..|words| - 1];
    if i < |words| - 1 {
      assert before[..i] == words[..i] && before[i] == words[i];
      FirstBadAt(before, i);
    }
  }

  // The algebra: settings are level transformers

  /** What one token means for a level: the bits it speaks of, set or cleared; no other bit changes. */
  function ApplyPart(level: bv32, signature: bv32, optional: bv32, trust: bv32, action: Action): bv32 {
    match action
    case Never => level & !(signature | optional)
    case Optional => level | signature | optional
    case Required => (level | signature) & !optional
    case TrustedOnly => level & !trust
    case TrustAll => level | trust
  }

  function Apply(token: Token, level: bv32): bv32 {
    var packaged := if token.package then ApplyPart(level, 0x1, 0x2, 0xC, token.action) else level;
    if token.database then ApplyPart(packaged, 0x400, 0x800, 0x3000, token.action) else packaged
  }

  function ApplyTo(level: bv32, word: string): bv32 {
    if ValidWord(word) then Apply(TokenOf(word).value, level) else level
  }

  /** The level after every word in order. */
  function LevelAfter(words: seq<string>, base: bv32): bv32 {
    FoldWords(ApplyTo, words, base)
  }

  // One action at a time: what the setting decides is what the action means.

  lemma PackageNeverMerges(setting: SigSetting, base: bv32)
    ensures Merge(ApplyAction(setting, 0x1, 0x2, 0x4, 0x8, Never), base) ==
            ApplyPart(Merge(setting, base), 0x1, 0x2, 0xC, Never)
  {
  }

  lemma PackageOptionalMerges(setting: SigSetting, base: bv32)
    ensures Merge(ApplyAction(setting, 0x1, 0x2, 0x4, 0x8, Optional), base) ==
            ApplyPart(Merge(setting, base), 0x1, 0x2, 0xC, Optional)
  {
  }

  lemma PackageRequiredMerges(setting: SigSetting, base: bv32)
    ensures Merge(ApplyAction(setting, 0x1, 0x2, 0x4, 0x8, Required), base) ==
            ApplyPart(Merge(setting, base), 0x1, 0x2, 0xC, Required)
  {
  }

  lemma PackageTrustedOnlyMerges(setting: SigSetting, base: bv32)
    ensures Merge(ApplyAction(setting, 0x1, 0x2, 0x4, 0x8, TrustedOnly), base) ==
            ApplyPart(Merge(setting, base), 0x1, 0x2, 0xC, TrustedOnly)
  {
  }

  lemma PackageTrustAllMerges(setting: SigSetting, base: bv32)
    ensures Merge(ApplyAction(setting, 0x1, 0x2, 0x4, 0x8, TrustAll), base) ==
            ApplyPart(Merge(setting, base), 0x1, 0x2, 0xC, TrustAll)
  {
  }

  lemma PackageMerges(setting: SigSetting, action: Action, base: bv32)
    ensures Merge(ApplyAction(setting, 0x1, 0x2, 0x4, 0x8, action), base) ==
            ApplyPart(Merge(setting, base), 0x1, 0x2, 0xC, action)
  {
    match action
    case Never => PackageNeverMerges(setting, base);
    case Optional => PackageOptionalMerges(setting, base);
    case Required => PackageRequiredMerges(setting, base);
    case TrustedOnly => PackageTrustedOnlyMerges(setting, base);
    case TrustAll => PackageTrustAllMerges(setting, base);
  }

  lemma DatabaseNeverMerges(setting: SigSetting, base: bv32)
    ensures Merge(ApplyAction(setting, 0x400, 0x800, 0x1000, 0x2000, Never), base) ==
            ApplyPart(Merge(setting, base), 0x400, 0x800, 0x3000, Never)
  {
  }

  lemma DatabaseOptionalMerges(setting: SigSetting, base: bv32)
    ensures Merge(ApplyAction(setting, 0x400, 0x800, 0x1000, 0x2000, Optional), base) ==
            ApplyPart(Merge(setting, base), 0x400, 0x800, 0x3000, Optional)
  {
  }

  lemma DatabaseRequiredMerges(setting: SigSetting, base: bv32)
    ensures Merge(ApplyAction(setting, 0x400, 0x800, 0x1000, 0x2000, Required), base) ==
            ApplyPart(Merge(setting, base), 0x400, 0x800, 0x3000, Required)
  {
  }

  lemma DatabaseTrustedOnlyMerges(setting: SigSetting, base: bv32)
    ensures Merge(ApplyAction(setting, 0x400, 0x800, 0x1000, 0x2000, TrustedOnly), base) ==
            ApplyPart(Merge(setting, base), 0x400, 0x800, 0x3000, TrustedOnly)
  {
  }

  lemma DatabaseTrustAllMerges(setting: SigSetting, base: bv32)
    ensures Merge(ApplyAction(setting, 0x400, 0x800, 0x1000, 0x2000, TrustAll), base) ==
            ApplyPart(Merge(setting, base), 0x400, 0x800, 0x3000, TrustAll)
  {
  }

  lemma DatabaseMerges(setting: SigSetting, action: Action, base: bv32)
    ensures Merge(ApplyAction(setting, 0x400, 0x800, 0x1000, 0x2000, action), base) ==
            ApplyPart(Merge(setting, base), 0x400, 0x800, 0x3000, action)
  {
    match action
    case Never => DatabaseNeverMerges(setting, base);
    case Optional => DatabaseOptionalMerges(setting, base);
    case Required => DatabaseRequiredMerges(setting, base);
    case TrustedOnly => DatabaseTrustedOnlyMerges(setting, base);
    case TrustAll => DatabaseTrustAllMerges(setting, base);
  }

  lemma TokenMerges(setting: SigSetting, token: Token, base: bv32)
    ensures Merge(ApplyToken(setting, token), base) == Apply(token, Merge(setting, base))
  {
    var packaged := if token.package
      then ApplyAction(setting, PACKAGE, PACKAGE_OPTIONAL, PACKAGE_MARGINAL_OK, PACKAGE_UNKNOWN_OK, token.action)
      else setting;
    PackageMerges(setting, token.action, base);
    DatabaseMerges(packaged, token.action, base);
  }

  lemma WordMerges(setting: SigSetting, word: string, base: bv32)
    ensures Merge(ApplyWord(setting, word), base) == ApplyTo(Merge(setting, base), word)
  {
    if ValidWord(word) {
      TokenMerges(setting, TokenOf(word).value, base);
    }
  }

  /** Merging the setting a list of words decides over a level applies the words to that level. */
  lemma MergeIsLevelAfter(words: seq<string>, base: bv32)
    ensures Merge(SettingOf(words), base) == LevelAfter(words, base)
  {
    var merged := (setting: SigSetting) => Merge(setting, base);
    forall setting, word
      ensures merged(ApplyWord(setting, word)) == ApplyTo(merged(setting), word)
    {
      WordMerges(setting, word, base);
    }
    FoldMaps(ApplyWord, ApplyTo, merged, words, UNDECIDED);
    assert merged(UNDECIDED) == base;
  }

  lemma SetBitsCombines(earlier: SigSetting, later: SigSetting, bits: bv32, enable: bool)
    ensures Combine(earlier, SetBits(later, bits, enable)) == SetBits(Combine(earlier, later), bits, enable)
  {
  }

  lemma ActionCombines(earlier: SigSetting, later: SigSetting, signature: bv32, optional: bv32, marginal: bv32,
                       unknown: bv32, action: Action)
    ensures Combine(earlier, ApplyAction(later, signature, optional, marginal, unknown, action)) ==
            ApplyAction(Combine(earlier, later), signature, optional, marginal, unknown, action)
  {
    match action
    case Never => SetBitsCombines(earlier, later, signature | optional, false);
    case Optional =>
      SetBitsCombines(earlier, later, signature, true);
      SetBitsCombines(earlier, SetBits(later, signature, true), optional, true);
    case Required =>
      SetBitsCombines(earlier, later, signature, true);
      SetBitsCombines(earlier, SetBits(later, signature, true), optional, false);
    case TrustedOnly => SetBitsCombines(earlier, later, marginal | unknown, false);
    case TrustAll => SetBitsCombines(earlier, later, marginal | unknown, true);
  }

  lemma TokenCombines(earlier: SigSetting, later: SigSetting, token: Token)
    ensures Combine(earlier, ApplyToken(later, token)) == ApplyToken(Combine(earlier, later), token)
  {
    var packaged := if token.package
      then ApplyAction(later, PACKAGE, PACKAGE_OPTIONAL, PACKAGE_MARGINAL_OK, PACKAGE_UNKNOWN_OK, token.action)
      else later;
    ActionCombines(earlier, later, PACKAGE, PACKAGE_OPTIONAL, PACKAGE_MARGINAL_OK, PACKAGE_UNKNOWN_OK, token.action);
    ActionCombines(earlier, packaged, DATABASE, DATABASE_OPTIONAL, DATABASE_MARGINAL_OK, DATABASE_UNKNOWN_OK,
                   token.action);
  }

  lemma WordCombines(earlier: SigSetting, later: SigSetting, word: string)
    ensures Combine(earlier, ApplyWord(later, word)) == ApplyWord(Combine(earlier, later), word)
  {
    if ValidWord(word) {
      TokenCombines(earlier, later, TokenOf(word).value);
    }
  }

  /** Directives add up: the setting after both is the setting all their words decide. */
  lemma CombineIsConcatenation(earlier: seq<string>, later: seq<string>)
    ensures Combine(SettingOf(earlier), SettingOf(later)) == SettingOf(earlier + later)
  {
    var first := SettingOf(earlier);
    var combined := (setting: SigSetting) => Combine(first, setting);
    forall setting, word
      ensures combined(ApplyWord(setting, word)) == ApplyWord(combined(setting), word)
    {
      WordCombines(first, setting, word);
    }
    FoldMaps(ApplyWord, ApplyWord, combined, later, UNDECIDED);
    CombineNothing(first);
    FoldWordsBoth(ApplyWord, earlier, later, UNDECIDED);
  }

  lemma CombineNothing(setting: SigSetting)
    ensures Combine(setting, UNDECIDED) == setting
  {
    assert setting.mask | 0 == setting.mask;
    assert (0 & 0) | (setting.value & !0) == setting.value;
  }

  // What a level can be

  const PACKAGE_BITS: bv32 := 0xF
  const DATABASE_BITS: bv32 := 0x3C00

  predicate GoodArea(level: bv32, signature: bv32, optional: bv32, marginal: bv32, unknown: bv32) {
    && (level & optional != 0 ==> level & signature != 0)
    && (level & marginal != 0 <==> level & unknown != 0)
  }

  /** An optional signature is a signature, marginal and unknown trust agree, and no other bit is ever set. */
  predicate GoodLevel(level: bv32) {
    && level & !0x3C0F == 0
    && GoodArea(level, 0x1, 0x2, 0x4, 0x8)
    && GoodArea(level, 0x400, 0x800, 0x1000, 0x2000)
  }

  lemma PackageNeverKeepsGood(level: bv32)
    requires GoodLevel(level)
    ensures GoodLevel(ApplyPart(level, 0x1, 0x2, 0xC, Never))
  {
  }

  lemma PackageOptionalKeepsGood(level: bv32)
    requires GoodLevel(level)
    ensures GoodLevel(ApplyPart(level, 0x1, 0x2, 0xC, Optional))
  {
  }

  lemma PackageRequiredKeepsGood(level: bv32)
    requires GoodLevel(level)
    ensures GoodLevel(ApplyPart(level, 0x1, 0x2, 0xC, Required))
  {
  }

  lemma PackageTrustedOnlyKeepsGood(level: bv32)
    requires GoodLevel(level)
    ensures GoodLevel(ApplyPart(level, 0x1, 0x2, 0xC, TrustedOnly))
  {
  }

  lemma PackageTrustAllKeepsGood(level: bv32)
    requires GoodLevel(level)
    ensures GoodLevel(ApplyPart(level, 0x1, 0x2, 0xC, TrustAll))
  {
  }

  lemma PackagePartKeepsGood(level: bv32, action: Action)
    requires GoodLevel(level)
    ensures GoodLevel(ApplyPart(level, 0x1, 0x2, 0xC, action))
  {
    match action
    case Never => PackageNeverKeepsGood(level);
    case Optional => PackageOptionalKeepsGood(level);
    case Required => PackageRequiredKeepsGood(level);
    case TrustedOnly => PackageTrustedOnlyKeepsGood(level);
    case TrustAll => PackageTrustAllKeepsGood(level);
  }

  lemma DatabaseNeverKeepsGood(level: bv32)
    requires GoodLevel(level)
    ensures GoodLevel(ApplyPart(level, 0x400, 0x800, 0x3000, Never))
  {
  }

  lemma DatabaseOptionalKeepsGood(level: bv32)
    requires GoodLevel(level)
    ensures GoodLevel(ApplyPart(level, 0x400, 0x800, 0x3000, Optional))
  {
  }

  lemma DatabaseRequiredKeepsGood(level: bv32)
    requires GoodLevel(level)
    ensures GoodLevel(ApplyPart(level, 0x400, 0x800, 0x3000, Required))
  {
  }

  lemma DatabaseTrustedOnlyKeepsGood(level: bv32)
    requires GoodLevel(level)
    ensures GoodLevel(ApplyPart(level, 0x400, 0x800, 0x3000, TrustedOnly))
  {
  }

  lemma DatabaseTrustAllKeepsGood(level: bv32)
    requires GoodLevel(level)
    ensures GoodLevel(ApplyPart(level, 0x400, 0x800, 0x3000, TrustAll))
  {
  }

  lemma DatabasePartKeepsGood(level: bv32, action: Action)
    requires GoodLevel(level)
    ensures GoodLevel(ApplyPart(level, 0x400, 0x800, 0x3000, action))
  {
    match action
    case Never => DatabaseNeverKeepsGood(level);
    case Optional => DatabaseOptionalKeepsGood(level);
    case Required => DatabaseRequiredKeepsGood(level);
    case TrustedOnly => DatabaseTrustedOnlyKeepsGood(level);
    case TrustAll => DatabaseTrustAllKeepsGood(level);
  }

  lemma TokenKeepsGood(token: Token, level: bv32)
    requires GoodLevel(level)
    ensures GoodLevel(Apply(token, level))
  {
    var packaged := if token.package then ApplyPart(level, 0x1, 0x2, 0xC, token.action) else level;
    PackagePartKeepsGood(level, token.action);
    DatabasePartKeepsGood(packaged, token.action);
  }

  /** A token for one area leaves the other area's bits alone, whatever the level. */
  lemma TokenKeepsOtherArea(token: Token, level: bv32)
    ensures !token.database ==> Apply(token, level) & DATABASE_BITS == level & DATABASE_BITS
    ensures !token.package ==> Apply(token, level) & PACKAGE_BITS == level & PACKAGE_BITS
  {
    match token.action
    case Never =>
    case Optional =>
    case Required =>
    case TrustedOnly =>
    case TrustAll =>
  }

  lemma {:induction false} LevelsAreGood(words: seq<string>, base: bv32)
    requires GoodLevel(base)
    ensures GoodLevel(LevelAfter(words, base))
  {
    if words != [] {
      var before, word := words[..|words| - 1], words[|words| - 1];
      LevelsAreGood(before, base);
      if ValidWord(word) {
        TokenKeepsGood(TokenOf(word).value, LevelAfter(before, base));
      }
    }
  }

  /** Words that begin with "Package" leave every Database bit alone. */
  lemma {:induction false} PackageWordsKeepDatabases(words: seq<string>, base: bv32)
    requires forall word <- words :: StartsWith(word, "Package")
    ensures LevelAfter(words, base) & DATABASE_BITS == base & DATABASE_BITS
  {
    if words != [] {
      var before, word := words[..|words| - 1], words[|words| - 1];
      PackageWordsKeepDatabases(before, base);
      assert word in words;
      if ValidWord(word) {
        TokenKeepsOtherArea(TokenOf(word).value, LevelAfter(before, base));
      }
    }
  }
}

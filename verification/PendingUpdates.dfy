/** Which installed packages have a newer version, and what installing them leaves. */
module PendingUpdates {
  import opened Wrappers
  import opened Domain
  import UpdateDisplay

  /** An installed package; libalpm may know no name or version for it. */
  datatype Installed = Installed(name: Option<string>, version: Option<string>, installedSize: int)

  datatype Available = Available(version: Option<string>, size: int, installedSize: int, groups: seq<string>)

  datatype Database = Database(name: Option<string>, packages: map<string, Available>)

  /** The version comparison and the ignore rules of the configuration. */
  datatype Rules = Rules(compare: (string, string) -> int, isIgnored: (string, seq<string>) -> bool)

  /** The first database that has the package. */
  function FirstWith(databases: seq<Database>, name: string): (at: Option<nat>)
    ensures at.Some? ==> at.value < |databases| && name in databases[at.value].packages &&
                         forall k | 0 <= k < at.value :: name !in databases[k].packages
    ensures at.None? ==> forall k | 0 <= k < |databases| :: name !in databases[k].packages
  {
    if databases == [] then None
    else
      var before := FirstWith(databases[..|databases| - 1], name);
      if before.Some? then
        assert forall k | 0 <= k < |databases| - 1 :: databases[..|databases| - 1][k] == databases[k];
        before
      else
        assert forall k | 0 <= k < |databases| - 1 :: databases[k] == databases[..|databases| - 1][k];
        if name in databases[|databases| - 1].packages then Some(|databases| - 1) else None
  }

  method FindInSyncDatabases(databases: seq<Database>, name: string) returns (at: Option<nat>)
    ensures at == FirstWith(databases, name)
  {
    for i := 0 to |databases|
      invariant forall k | 0 <= k < i :: name !in databases[k].packages
    {
      if name in databases[i].packages {
        return Some(i);
      }
    }
    return None;
  }

  /** The update of one package: strictly newer in the first repository that has it. */
  predicate HasUpdate(package: Installed, databases: seq<Database>, rules: Rules) {
    && package.name.Some? && package.version.Some?
    && FirstWith(databases, package.name.value).Some?
    && var available := databases[FirstWith(databases, package.name.value).value].packages[package.name.value];
       available.version.Some? && rules.compare(available.version.value, package.version.value) > 0
  }

  function UpdateOf(package: Installed, databases: seq<Database>, rules: Rules): PendingUpdate
    requires HasUpdate(package, databases, rules)
  {
    var name := package.name.value;
    var database := databases[FirstWith(databases, name).value];
    var available := database.packages[name];
    PendingUpdate(name, package.version.value, available.version.value,
                  if database.name.Some? then database.name.value else "",
                  if available.size > 0 then available.size else 0,
                  available.installedSize - package.installedSize, rules.isIgnored(name, available.groups))
  }

  /** The updates of all packages, in the order of the packages. */
  function UpdatesOf(installed: seq<Installed>, databases: seq<Database>, rules: Rules): seq<PendingUpdate> {
    if installed == [] then []
    else
      var last := installed[|installed| - 1];
      UpdatesOf(installed[..|installed| - 1], databases, rules) +
      (if HasUpdate(last, databases, rules) then [UpdateOf(last, databases, rules)] else [])
  }

  method ComputePendingUpdates(installed: seq<Installed>, databases: seq<Database>, rules: Rules)
      returns (updates: seq<PendingUpdate>)
    ensures updates == UpdatesOf(installed, databases, rules)
  {
    updates := [];
    for i := 0 to |installed|
      invariant updates == UpdatesOf(installed[..i], databases, rules)
    {
      assert installed[..i + 1][..i] == installed[..i];
      var package := installed[i];
      if package.name.None? {
        continue;
      }
      var name := package.name.value;
      var found := FindInSyncDatabases(databases, name);
      if found.None? {
        continue;
      }
      var repository := databases[found.value];
      var available := repository.packages[name];
      if package.version.None? || available.version.None? ||
         rules.compare(available.version.value, package.version.value) <= 0 {
        continue;
      }
      var repositoryName := if repository.name.Some? then repository.name.value else "";
      var downloadSize := if available.size > 0 then available.size else 0;
      updates := updates + [PendingUpdate(name, package.version.value, available.version.value, repositoryName,
                                          downloadSize, available.installedSize - package.installedSize,
                                          rules.isIgnored(name, available.groups))];
    }
    assert installed[..|installed|] == installed;
  }

  // Installing updates

  /** The package once its update is installed, if it has one that is taken. */
  function Upgraded(package: Installed, databases: seq<Database>, rules: Rules, take: PendingUpdate -> bool)
      : Installed
  {
    if HasUpdate(package, databases, rules) && take(UpdateOf(package, databases, rules)) then
      var available := databases[FirstWith(databases, package.name.value).value].packages[package.name.value];
      Installed(package.name, available.version, available.installedSize)
    else package
  }

  function Upgrade(installed: seq<Installed>, databases: seq<Database>, rules: Rules, take: PendingUpdate -> bool)
      : seq<Installed>
  {
    if installed == [] then []
    else
      var last := installed[|installed| - 1];
      Upgrade(installed[..|installed| - 1], databases, rules, take) + [Upgraded(last, databases, rules, take)]
  }

  function LeftOut(updates: seq<PendingUpdate>, take: PendingUpdate -> bool): seq<PendingUpdate> {
    if updates == [] then []
    else
      var last := updates[|updates| - 1];
      LeftOut(updates[..|updates| - 1], take) + (if take(last) then [] else [last])
  }

  /** No version is newer than itself. */
  ghost predicate Irreflexive(rules: Rules) {
    forall version :: rules.compare(version, version) <= 0
  }

  lemma LeftOutMore(updates: seq<PendingUpdate>, update: PendingUpdate, take: PendingUpdate -> bool)
    ensures LeftOut(updates + [update], take) ==
            LeftOut(updates, take) + (if take(update) then [] else [update])
  {
    assert (updates + [update])[..|updates|] == updates;
  }

  lemma UpgradedHasUpdate(package: Installed, databases: seq<Database>, rules: Rules, take: PendingUpdate -> bool)
    requires Irreflexive(rules)
    ensures var upgraded := Upgraded(package, databases, rules, take);
            && (HasUpdate(upgraded, databases, rules) <==>
                  HasUpdate(package, databases, rules) && !take(UpdateOf(package, databases, rules)))
            && (HasUpdate(upgraded, databases, rules) ==> upgraded == package)
  {
  }

  /** Whatever updates are installed, checking again against the same databases finds exactly the others. */
  lemma {:induction false} InstallingLeavesTheRest(installed: seq<Installed>, databases: seq<Database>, rules: Rules,
                                                   take: PendingUpdate -> bool)
    requires Irreflexive(rules)
    ensures UpdatesOf(Upgrade(installed, databases, rules, take), databases, rules) ==
            LeftOut(UpdatesOf(installed, databases, rules), take)
  {
    if installed != [] {
      var before, last := installed[..|installed| - 1], installed[|installed| - 1];
      InstallingLeavesTheRest(before, databases, rules, take);
      UpgradedHasUpdate(last, databases, rules, take);
      var upgraded := Upgrade(before, databases, rules, take);
      OneMoreUpdate(upgraded, Upgraded(last, databases, rules, take), databases, rules);
      if HasUpdate(last, databases, rules) {
        LeftOutMore(UpdatesOf(before, databases, rules), UpdateOf(last, databases, rules), take);
      } else {
        assert UpdatesOf(installed, databases, rules) == UpdatesOf(before, databases, rules);
      }
    }
  }

  lemma OneMoreUpdate(installed: seq<Installed>, package: Installed, databases: seq<Database>, rules: Rules)
    ensures UpdatesOf(installed + [package], databases, rules) ==
            UpdatesOf(installed, databases, rules) +
            (if HasUpdate(package, databases, rules) then [UpdateOf(package, databases, rules)] else [])
  {
    assert (installed + [package])[..|installed|] == installed;
  }

  lemma {:induction false} AllTaken(updates: seq<PendingUpdate>, take: PendingUpdate -> bool)
    requires forall update <- updates :: take(update)
    ensures LeftOut(updates, take) == []
  {
    if updates != [] {
      AllTaken(updates[..|updates| - 1], take);
    }
  }

  lemma {:induction false} OnlyIgnoredLeft(updates: seq<PendingUpdate>, take: PendingUpdate -> bool)
    requires forall update :: take(update) == !update.ignored
    ensures CountShown(LeftOut(updates, take)) == 0 && UpdateDisplay.DownloadOf(LeftOut(updates, take)) == 0
  {
    if updates != [] {
      var before, last := updates[..|updates| - 1], updates[|updates| - 1];
      OnlyIgnoredLeft(before, take);
      var left := LeftOut(before, take);
      if last.ignored {
        assert (left + [last])[..|left|] == left;
      } else {
        assert LeftOut(updates, take) == left;
      }
    }
  }

  /** Installing every update leaves none. */
  lemma InstallingAllLeavesNone(installed: seq<Installed>, databases: seq<Database>, rules: Rules)
    requires Irreflexive(rules)
    ensures UpdatesOf(Upgrade(installed, databases, rules, _ => true), databases, rules) == []
  {
    InstallingLeavesTheRest(installed, databases, rules, _ => true);
    AllTaken(UpdatesOf(installed, databases, rules), _ => true);
  }

  /** Installing every update that is not ignored leaves nothing to show: no count and nothing to download. */
  lemma InstallingShownLeavesNothingShown(installed: seq<Installed>, databases: seq<Database>, rules: Rules)
    requires Irreflexive(rules)
    ensures var left := UpdatesOf(Upgrade(installed, databases, rules, (update: PendingUpdate) => !update.ignored),
                                  databases, rules);
            UpdateDisplay.SummaryOf(left) == UpdateDisplay.UpdateSummary(0, |left|, 0)
  {
    var take := (update: PendingUpdate) => !update.ignored;
    InstallingLeavesTheRest(installed, databases, rules, take);
    OnlyIgnoredLeft(UpdatesOf(installed, databases, rules), take);
  }

  /** A package's update is listed exactly when the first repository that has the package has a newer version. */
  lemma {:induction false} UpdatesAreExact(installed: seq<Installed>, databases: seq<Database>, rules: Rules,
                                           update: PendingUpdate)
    ensures update in UpdatesOf(installed, databases, rules) <==>
            exists i | 0 <= i < |installed| ::
              HasUpdate(installed[i], databases, rules) && update == UpdateOf(installed[i], databases, rules)
  {
    if installed != [] {
      var before := installed[..|installed| - 1];
      UpdatesAreExact(before, databases, rules, update);
      if update in UpdatesOf(before, databases, rules) {
        var i :| 0 <= i < |before| && HasUpdate(before[i], databases, rules) &&
                 update == UpdateOf(before[i], databases, rules);
        assert installed[i] == before[i];
      }
      assert forall i | 0 <= i < |before| :: installed[i] == before[i];
    }
  }
}

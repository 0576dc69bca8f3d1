/**
 * Which database each configured repository is evaluated with: the local one or the published one that the last check
 * verified. Files may change between any two reads.
 */
module RepositorySelection {
  import opened Wrappers
  import opened Domain
  import opened Catalog
  import MonitorProtocol
  import UpdateDisplay

  datatype Stored = Stored(content: string, modified: Time)

  /** What is on disk at each instant. */
  type History = nat -> map<Place, Stored>

  datatype Error = Changed | NoUsableData | Unavailable

  class Files {
    const history: History
    var now: nat
    /** A read or a copy has failed, or a copy was torn. */
    ghost var faulted: bool

    constructor (history: History)
      ensures this.history == history && now == 0 && !faulted
    {
      this.history := history;
      now := 0;
      faulted := false;
    }

    method Wait()
      modifies this`now
      ensures now >= old(now)
    {
      var later: int := *;
      if later > 0 {
        now := now + later;
      }
    }

    /** A file operation that may fail. */
    method Attempt() returns (done: bool)
      modifies this`faulted
      ensures old(faulted) || !done ==> faulted
    {
      done := *;
      faulted := faulted || !done;
    }

    /** Hashes the file and then reads its modification time, each at its own instant. */
    method DescribeRepository(name: string, identity: string, place: Place) returns (described: Option<Provenance>)
      modifies this`now, this`faulted
      ensures now >= old(now) && (old(faulted) ==> faulted)
      ensures described.Some? ==> Describes(history, described.value, name, identity, place, old(now), now)
      ensures described.None? ==> faulted || exists t | old(now) <= t <= now :: place !in history(t)
    {
      Wait();
      var opens := Attempt();
      if place !in history(now) || !opens {
        return None;
      }
      var content := history(now)[place].content;
      ghost var hashedAt := now;
      Wait();
      var dated := Attempt();
      if place !in history(now) || !dated {
        return None;
      }
      var entry := RepositoryProvenance(name, identity, Sha256(content), history(now)[place].modified, place, false);
      assert DescribesAt(history, entry, hashedAt, now);
      return Some(entry);
    }

    /** Copies a file; what arrives may be anything if the file changes meanwhile. */
    method CopyFile(place: Place) returns (copy: Option<string>)
      modifies this
      ensures now >= old(now) && (old(faulted) ==> faulted)
      ensures !faulted ==>
                copy == if place in history(now) then Some(history(now)[place].content) else None
    {
      Wait();
      var copied := Attempt();
      var torn: bool := *;
      var content: string := *;
      faulted := faulted || torn;
      if !copied || place !in history(now) {
        return None;
      }
      return Some(if torn then content else history(now)[place].content);
    }
  }

  ghost predicate DescribesAt(history: History, entry: Provenance, hashedAt: nat, datedAt: nat) {
    && entry.database in history(hashedAt) && entry.database in history(datedAt)
    && entry.digest == Sha256(history(hashedAt)[entry.database].content)
    && entry.timestamp == history(datedAt)[entry.database].modified
  }

  /** Nothing changes during this time. */
  ghost predicate Quiet(history: History, from: nat, to: nat) {
    forall t | from <= t <= to :: history(t) == history(to)
  }

  /** The entry gives the file's digest and time as they were during this time. */
  ghost predicate Describes(history: History, entry: Provenance, name: string, identity: string, place: Place,
                            from: nat, to: nat) {
    && entry.name == name && entry.identity == identity && entry.database == place && !entry.checked
    && exists hashedAt: nat, datedAt: nat | from <= hashedAt <= datedAt <= to ::
         DescribesAt(history, entry, hashedAt, datedAt)
  }

  /** A repository as configured: its name, the identity of its configuration and its local database. */
  datatype Configured = Configured(name: string, identity: string, local: Place)

  function CachedFor(checked: seq<Provenance>, name: string): (cached: Option<Provenance>)
    ensures cached.Some? ==> cached.value in checked && cached.value.name == name
    ensures cached.None? ==> forall entry <- checked :: entry.name != name
  {
    if checked == [] then None
    else if checked[0].name == name then Some(checked[0]) else CachedFor(checked[1..], name)
  }

  predicate Prefers(local: Option<Provenance>, cached: Provenance) {
    local.None? || local.value.digest == cached.digest || local.value.timestamp <= cached.timestamp
  }

  /** `validated` describes the cached database as it is now. */
  function Selected(local: Option<Provenance>, cached: Option<Provenance>, validated: Option<Provenance>)
      : Option<Provenance>
  {
    if cached.Some? && validated.Some? && validated.value.identity == cached.value.identity &&
       validated.value.digest == cached.value.digest && Prefers(local, cached.value)
    then cached else local
  }

  /** What was seen of one repository, and what was made of it. */
  datatype Pick = Pick(local: Option<Provenance>, validated: Option<Provenance>, selected: Option<Provenance>,
                       copy: string)

  ghost predicate PickedFor(history: History, checked: seq<Provenance>, repository: Configured, pick: Pick, from: nat,
                            to: nat) {
    var cached := CachedFor(checked, repository.name);
    && (pick.local.Some? ==>
          Describes(history, pick.local.value, repository.name, repository.identity, repository.local, from, to))
    && (pick.validated.Some? ==>
          cached.Some? && Describes(history, pick.validated.value, repository.name, repository.identity,
                                    cached.value.database, from, to))
    && pick.selected == Selected(pick.local, cached, pick.validated)
  }

  /** The oldest of the selected databases. */
  ghost predicate IsOldest(time: Time, repositories: seq<Provenance>) {
    && (exists i | 0 <= i < |repositories| :: repositories[i].timestamp == time)
    && (forall i | 0 <= i < |repositories| :: time <= repositories[i].timestamp)
  }

  /** One entry and one copy for each repository, in order, as picked. */
  ghost predicate Follows(repositories: seq<Provenance>, copies: seq<string>, picks: seq<Pick>) {
    && |repositories| == |copies| == |picks|
    && forall i | 0 <= i < |picks| ::
         && picks[i].selected == Some(repositories[i])
         && copies[i] == picks[i].copy && Sha256(copies[i]) == repositories[i].digest
  }

  datatype Selection = Selection(repositories: seq<Provenance>, copies: seq<string>, dataAsOf: Time)

  ghost predicate AllPicked(history: History, checked: seq<Provenance>, repositories: seq<Configured>,
                            picks: seq<Pick>, from: nat, to: nat) {
    && |picks| <= |repositories|
    && forall i | 0 <= i < |picks| :: PickedFor(history, checked, repositories[i], picks[i], from, to)
  }

  lemma PickedLater(history: History, checked: seq<Provenance>, repository: Configured, pick: Pick, from: nat,
                    before: nat, to: nat)
    requires PickedFor(history, checked, repository, pick, from, before) && before <= to
    ensures PickedFor(history, checked, repository, pick, from, to)
  {
  }

  lemma PickedEarlier(history: History, checked: seq<Provenance>, repository: Configured, pick: Pick, from: nat,
                      before: nat, to: nat)
    requires PickedFor(history, checked, repository, pick, before, to) && from <= before
    ensures PickedFor(history, checked, repository, pick, from, to)
  {
  }

  /** Describes the candidates for one repository and chooses one. */
  method ChooseRepository(files: Files, repository: Configured, checked: seq<Provenance>) returns (pick: Pick)
    modifies files`now, files`faulted
    ensures files.now >= old(files.now) && (old(files.faulted) ==> files.faulted)
    ensures PickedFor(files.history, checked, repository, pick, old(files.now), files.now)
  {
    var local := files.DescribeRepository(repository.name, repository.identity, repository.local);
    var cached := CachedFor(checked, repository.name);
    var validated: Option<Provenance> := None;
    var selected := local;
    if cached.Some? {
      validated := files.DescribeRepository(repository.name, repository.identity, cached.value.database);
      if validated.Some? && validated.value.identity == cached.value.identity &&
         validated.value.digest == cached.value.digest &&
         (local.None? || local.value.digest == cached.value.digest ||
          local.value.timestamp <= cached.value.timestamp) {
        selected := cached;
      }
    }
    return Pick(local, validated, selected, "");
  }

  /** Copies what is chosen and checks the copy's digest. */
  method PickRepository(files: Files, repository: Configured, checked: seq<Provenance>)
      returns (result: Result<Pick, Error>)
    modifies files
    ensures files.now >= old(files.now)
    ensures result.Ok? ==> PickedFor(files.history, checked, repository, result.value, old(files.now), files.now)
    ensures result.Ok? && result.value.selected.Some? ==>
              Sha256(result.value.copy) == result.value.selected.value.digest
    ensures result.Err? ==> result.error == Changed
    ensures old(files.faulted) ==> files.faulted
    ensures result.Err? && !files.faulted ==> !Quiet(files.history, old(files.now), files.now)
  {
    var pick := ChooseRepository(files, repository, checked);
    if pick.selected.None? {
      return Ok(pick);
    }
    ghost var chosenAt := files.now;
    var copy := files.CopyFile(pick.selected.value.database);
    if Quiet(files.history, old(files.now), files.now) {
      QuietPick(files.history, checked, repository, pick, old(files.now), chosenAt, files.now);
    }
    if copy.None? || Sha256(copy.value) != pick.selected.value.digest {
      return Err(Changed);
    }
    PickedLater(files.history, checked, repository, pick, old(files.now), chosenAt, files.now);
    return Ok(pick.(copy := copy.value));
  }

  /** While nothing changes, what is chosen is still what its file holds. */
  lemma QuietPick(history: History, checked: seq<Provenance>, repository: Configured, pick: Pick, from: nat,
                  chosenAt: nat, to: nat)
    requires PickedFor(history, checked, repository, pick, from, chosenAt) && from <= chosenAt <= to
    requires pick.selected.Some? && Quiet(history, from, to)
    ensures var entry := pick.selected.value;
            entry.database in history(to) && entry.digest == Sha256(history(to)[entry.database].content)
  {
    if pick.selected == pick.local {
      QuietDigest(history, pick.local.value, pick.local.value.database, from, to);
    } else {
      QuietDigest(history, pick.validated.value, pick.validated.value.database, from, to);
    }
  }

  /** While nothing changes, a described file has the digest it was described with. */
  lemma QuietDigest(history: History, entry: Provenance, place: Place, from: nat, to: nat)
    requires from <= to && Quiet(history, from, to) && entry.database == place
    requires exists hashedAt: nat, datedAt: nat | from <= hashedAt <= datedAt <= to ::
               DescribesAt(history, entry, hashedAt, datedAt)
    ensures place in history(to) && entry.digest == Sha256(history(to)[place].content)
  {
    var hashedAt: nat, datedAt: nat :| from <= hashedAt <= datedAt <= to &&
                                       DescribesAt(history, entry, hashedAt, datedAt);
    assert history(hashedAt) == history(to);
  }

  method SelectRepositories(files: Files, repositories: seq<Configured>, checked: seq<Provenance>)
      returns (result: Result<Selection, Error>, ghost picks: seq<Pick>)
    modifies files
    ensures AllPicked(files.history, checked, repositories, picks, old(files.now), files.now)
    ensures result.Ok? ==>
              && |picks| == |repositories| > 0
              && Follows(result.value.repositories, result.value.copies, picks)
              && IsOldest(result.value.dataAsOf, result.value.repositories)
    ensures result == Err(NoUsableData) ==>
              |picks| == |repositories| && forall i | 0 <= i < |picks| :: picks[i].selected.None?
    ensures result == Err(Unavailable) ==>
              |picks| == |repositories| && exists i | 0 <= i < |picks| :: picks[i].selected.None?
    ensures old(files.faulted) ==> files.faulted
    ensures result == Err(Changed) && !files.faulted ==> !Quiet(files.history, old(files.now), files.now)
  {
    var selected: seq<Provenance>, copies: seq<string> := [], [];
    var found, dataAsOf: Time := false, 0;
    picks := [];
    for i := 0 to |repositories|
      invariant files.now >= old(files.now) && |picks| == i && (old(files.faulted) ==> files.faulted)
      invariant AllPicked(files.history, checked, repositories, picks, old(files.now), files.now)
      invariant Progress(selected, copies, picks, found, dataAsOf)
    {
      ghost var before := files.now;
      var picked := PickRepository(files, repositories[i], checked);
      if picked.Err? {
        AllPickedLater(files.history, checked, repositories, picks, old(files.now), before, files.now);
        return Err(picked.error), picks;
      }
      OnePickedMore(files.history, checked, repositories, picks, picked.value, old(files.now), before, files.now);
      if picked.value.selected.None? {
        ProgressWithout(selected, copies, picks, found, dataAsOf, picked.value);
        picks := picks + [picked.value];
        continue;
      }
      ProgressWith(selected, copies, picks, found, dataAsOf, picked.value);
      picks := picks + [picked.value];
      var entry := picked.value.selected.value;
      if !found || entry.timestamp < dataAsOf {
        dataAsOf := entry.timestamp;
      }
      found := true;
      selected := selected + [entry];
      copies := copies + [picked.value.copy];
    }
    if !found {
      return Err(NoUsableData), picks;
    }
    if |selected| != |repositories| {
      return Err(Unavailable), picks;
    }
    return Ok(Selection(selected, copies, dataAsOf)), picks;
  }

  /** What the loop over the repositories has put together so far. */
  ghost predicate Progress(selected: seq<Provenance>, copies: seq<string>, picks: seq<Pick>, found: bool,
                           dataAsOf: Time) {
    && |selected| <= |picks|
    && (|selected| == |picks| ==> Follows(selected, copies, picks))
    && (|selected| < |picks| ==> exists k | 0 <= k < |picks| :: picks[k].selected.None?)
    && found == (selected != [])
    && (found ==> IsOldest(dataAsOf, selected))
    && (!found ==> forall k | 0 <= k < |picks| :: picks[k].selected.None?)
  }

  lemma ProgressWithout(selected: seq<Provenance>, copies: seq<string>, picks: seq<Pick>, found: bool, dataAsOf: Time,
                        pick: Pick)
    requires Progress(selected, copies, picks, found, dataAsOf) && pick.selected.None?
    ensures Progress(selected, copies, picks + [pick], found, dataAsOf)
  {
    assert (picks + [pick])[|picks|] == pick;
  }

  lemma ProgressWith(selected: seq<Provenance>, copies: seq<string>, picks: seq<Pick>, found: bool, dataAsOf: Time,
                     pick: Pick)
    requires Progress(selected, copies, picks, found, dataAsOf)
    requires pick.selected.Some? && Sha256(pick.copy) == pick.selected.value.digest
    ensures var entry := pick.selected.value;
            Progress(selected + [entry], copies + [pick.copy], picks + [pick], true,
                     if !found || entry.timestamp < dataAsOf then entry.timestamp else dataAsOf)
  {
    var entry := pick.selected.value;
    OldestMore(selected, entry, if !found || entry.timestamp < dataAsOf then entry.timestamp else dataAsOf);
    if |selected| < |picks| {
      var k :| 0 <= k < |picks| && picks[k].selected.None?;
      assert (picks + [pick])[k].selected.None?;
    }
  }

  lemma AllPickedLater(history: History, checked: seq<Provenance>, repositories: seq<Configured>, picks: seq<Pick>,
                       from: nat, before: nat, to: nat)
    requires AllPicked(history, checked, repositories, picks, from, before) && before <= to
    ensures AllPicked(history, checked, repositories, picks, from, to)
  {
    forall k | 0 <= k < |picks|
      ensures PickedFor(history, checked, repositories[k], picks[k], from, to)
    {
      PickedLater(history, checked, repositories[k], picks[k], from, before, to);
    }
  }

  lemma OnePickedMore(history: History, checked: seq<Provenance>, repositories: seq<Configured>, picks: seq<Pick>,
                      pick: Pick, from: nat, before: nat, to: nat)
    requires AllPicked(history, checked, repositories, picks, from, before) && from <= before <= to
    requires |picks| < |repositories|
    requires PickedFor(history, checked, repositories[|picks|], pick, before, to)
    ensures AllPicked(history, checked, repositories, picks + [pick], from, to)
  {
    AllPickedLater(history, checked, repositories, picks, from, before, to);
    PickedEarlier(history, checked, repositories[|picks|], pick, from, before, to);
  }

  lemma OldestMore(selected: seq<Provenance>, entry: Provenance, time: Time)
    requires time <= entry.timestamp
    requires time == entry.timestamp || (selected != [] && IsOldest(time, selected))
    requires selected != [] ==> forall i | 0 <= i < |selected| :: time <= selected[i].timestamp
    ensures IsOldest(time, selected + [entry])
  {
    var all := selected + [entry];
    assert all[|selected|] == entry;
    if time != entry.timestamp {
      var i :| 0 <= i < |selected| && selected[i].timestamp == time;
      assert all[i].timestamp == time;
    }
  }

  // What a selection means

  /**
   * Each entry is either the local database as it was during the selection, or a verified one of the present
   * configuration whose file still has the verified contents; and that one never displaces a local database that is
   * strictly newer and different. The copy evaluated has the entry's contents.
   */
  lemma SelectionIsSound(history: History, checked: seq<Provenance>, repositories: seq<Configured>,
                         selection: Selection, picks: seq<Pick>, from: nat, to: nat, i: nat)
    requires |picks| == |repositories| && AllPicked(history, checked, repositories, picks, from, to)
    requires Follows(selection.repositories, selection.copies, picks) && i < |repositories|
    ensures |selection.repositories| == |repositories|
    ensures var entry, repository := selection.repositories[i], repositories[i];
            && entry.name == repository.name
            && entry.identity == repository.identity
            && entry.digest == Sha256(selection.copies[i])
            && (|| Describes(history, entry, repository.name, repository.identity, repository.local, from, to)
                || (&& entry in checked
                    && (exists t: nat | from <= t <= to && entry.database in history(t) ::
                          entry.digest == Sha256(history(t)[entry.database].content))
                    && (picks[i].local.Some? ==>
                          picks[i].local.value.digest == entry.digest ||
                          picks[i].local.value.timestamp <= entry.timestamp)))
  {
    var repository, pick := repositories[i], picks[i];
    assert PickedFor(history, checked, repository, pick, from, to);
    if pick.selected != pick.local {
      var validated := pick.validated.value;
      var hashedAt: nat, datedAt: nat :| from <= hashedAt <= datedAt <= to &&
                                         DescribesAt(history, validated, hashedAt, datedAt);
      assert validated.database in history(hashedAt);
    }
  }

  // The result of an evaluation

  /** A failed evaluation falls back on the saved snapshot, as history and with the reason. */
  function LoadUpdates(evaluated: UpdateDisplay.LoadResult, saved: LoadResult): UpdateDisplay.LoadResult {
    if evaluated.Err? && saved.Valid? then
      Ok(saved.snapshot.snapshot.(previouslyLoaded := true, evaluated := false, evaluationError := evaluated.error))
    else evaluated
  }

  /** The published catalog is considered only under a lease, and only if the snapshot could be read. */
  function CheckedOf(leased: bool, saved: LoadResult): seq<Provenance> {
    if leased && saved.Valid? then saved.repositories else []
  }

  /** What falls back on a saved snapshot is never displayed as Ready, and its message is the evaluation's. */
  lemma FallbackIsHistory(evaluated: UpdateDisplay.LoadResult, saved: LoadResult)
    ensures var result := LoadUpdates(evaluated, saved);
            && (evaluated.Ok? ==> result == evaluated)
            && (evaluated.Err? ==>
                  (result.Ok? <==> saved.Valid?) &&
                  (result.Ok? ==>
                     UpdateDisplay.Display(result.value).state.Error? &&
                     UpdateDisplay.Display(result.value).lastError == evaluated.error &&
                     UpdateDisplay.Display(result.value).updateCount == CountShown(saved.snapshot.snapshot.updates)))
  {
  }

  /** What the source can return: an evaluation itself leaves the message empty. */
  ghost predicate FromSource(result: UpdateDisplay.LoadResult) {
    exists evaluated: UpdateDisplay.LoadResult, saved: LoadResult ::
      (evaluated.Ok? ==> evaluated.value.evaluationError == "") && result == LoadUpdates(evaluated, saved)
  }

  /** Fed by this source, the monitor shows a message in the state Error only, as its status type promises. */
  lemma MonitorKeepsPromise(world: MonitorProtocol.World, events: seq<MonitorProtocol.Event>)
    requires forall event <- events :: event.EvaluationFinishes? ==> FromSource(event.result)
    ensures var status := MonitorProtocol.Run(world, MonitorProtocol.INITIAL, events).status;
            status.lastError != "" ==> status.state.Error?
  {
    forall event | event in events && event.EvaluationFinishes?
      ensures UpdateDisplay.Explained(event.result)
    {
      assert FromSource(event.result);
    }
    MonitorProtocol.MessageMeansError(world, events);
  }

  /** Under a lease every published database offered for selection is on disk with its recorded contents. */
  lemma LeasedCatalogIsOnDisk(disk: Disk, leased: bool)
    requires leased ==> disk.lockFile
    ensures forall entry <- CheckedOf(leased, Load(disk)) :: Held(disk, entry) && entry.checked
  {
    if disk.published.Some? {
      LoadedIsHeld(disk, disk.published.value);
    }
  }
}

/**
 * Double-checked reads of a directory that others change at any time. Every read happens at an instant, and any
 * amount of change may happen between two reads. A modification time never comes back after a change, so equal stamps
 * at two instants mean that nothing changed in between.
 */
module SharedFiles {
  import opened Wrappers

  datatype Version = Version(stamp: int, content: string)

  type Files = map<string, Version>

  type History = nat -> Files

  predicate SameAt(history: History, path: string, first: nat, second: nat) {
    && path in history(first) && path in history(second)
    && history(first)[path].stamp == history(second)[path].stamp
  }

  /** A file whose stamp is the same at two instants had the same contents all the time between them. */
  ghost predicate StampsNeverRepeat(history: History) {
    forall path, first: nat, second: nat | first <= second && SameAt(history, path, first, second) ::
      Unchanged(history, path, first, second)
  }

  predicate Unchanged(history: History, path: string, first: nat, second: nat) {
    forall t | first <= t <= second :: path in history(t) && path in history(first) &&
                                       history(t)[path] == history(first)[path]
  }

  /** A directory and the clock of the reads made of it. */
  class SharedDirectory {
    const history: History
    /** When the directory can be listed. */
    const listable: nat -> bool
    var now: nat
    /** Loading or copying a file that was there has failed. */
    ghost var faulted: bool

    constructor (history: History, listable: nat -> bool)
      ensures this.history == history && this.listable == listable && now == 0 && !faulted
    {
      this.history := history;
      this.listable := listable;
      now := 0;
      faulted := false;
    }

    /** An operation that may fail. */
    method Attempt() returns (done: bool)
      modifies this`faulted
      ensures old(faulted) || !done ==> faulted
    {
      done := *;
      faulted := faulted || !done;
    }

    /** Others may do anything before the next read. */
    method Wait()
      modifies this`now
      ensures now >= old(now)
    {
      var later: int := *;
      if later > 0 {
        now := now + later;
      }
    }

    /** One file's version at one instant. */
    method Stat(path: string) returns (version: Option<Version>)
      modifies this`now
      ensures now >= old(now)
      ensures version == if path in history(now) then Some(history(now)[path]) else None
    {
      Wait();
      version := if path in history(now) then Some(history(now)[path]) else None;
    }

    /** Reads for a while: what is read is the file's contents if it did not change meanwhile, and else anything. */
    method ReadContent(path: string) returns (content: string)
      modifies this`now
      ensures now >= old(now)
      ensures Unchanged(history, path, old(now), now) && path in history(now) ==> content == history(now)[path].content
    {
      var begun := now;
      Wait();
      if path in history(now) && Unchanged(history, path, begun, now) {
        content := history(now)[path].content;
      } else {
        content := *;
      }
    }
  }
}

/** The cached libalpm connection: reused only when no database file has changed since it was loaded. */
module ConnectionCache {
  import opened Wrappers
  import opened SharedFiles

  datatype Error = RootInvalid | OpenFailed

  /** A registered database; it is what its file's contents make it. */
  datatype Database = Database(path: string, content: string)

  /** The database files in name order, with their modification times. */
  type SyncSnapshot = seq<(string, int)>

  /** At this instant the files of the snapshot have its stamps, and loading them gives these databases. */
  predicate LoadedFrom(files: Files, snapshot: SyncSnapshot, databases: seq<Database>) {
    && |databases| == |snapshot|
    && forall i | 0 <= i < |snapshot| ::
         && snapshot[i].0 in files && files[snapshot[i].0].stamp == snapshot[i].1
         && databases[i] == Database(snapshot[i].0, files[snapshot[i].0].content)
  }

  class AlpmConnectionCache {
    const directory: SharedDirectory
    /** The order in which a set of database files is listed. */
    const listed: set<string> -> seq<string>

    var handleOpen: bool
    var syncDatabases: seq<Database>
    var knownSnapshot: Option<SyncSnapshot>
    /** An instant at which the known snapshot and its databases were what the files held. */
    ghost var agreedAt: nat
    /** How often the databases have been loaded. */
    ghost var loads: nat

    ghost predicate Valid()
      reads this, directory
    {
      && StampsNeverRepeat(directory.history)
      && ListsExactly(listed)
      && (knownSnapshot.Some? ==>
            handleOpen && agreedAt <= directory.now &&
            LoadedFrom(directory.history(agreedAt), knownSnapshot.value, syncDatabases))
    }

    constructor (directory: SharedDirectory, listed: set<string> -> seq<string>)
      requires StampsNeverRepeat(directory.history) && ListsExactly(listed)
      ensures this.directory == directory && this.listed == listed && Valid() && knownSnapshot.None? && !handleOpen
    {
      this.directory := directory;
      this.listed := listed;
      handleOpen, syncDatabases, knownSnapshot, agreedAt, loads := false, [], None, 0, 0;
    }

    /** The listing at one instant, unless the directory cannot be listed. */
    method ListSyncDbFiles() returns (paths: Result<seq<string>, Error>)
      modifies directory`now
      ensures directory.now >= old(directory.now)
      ensures paths.Ok? <==> directory.listable(directory.now)
      ensures paths.Ok? ==> paths.value == listed(directory.history(directory.now).Keys)
    {
      directory.Wait();
      if !directory.listable(directory.now) {
        return Err(OpenFailed);
      }
      return Ok(listed(directory.history(directory.now).Keys));
    }

    /** Reads the stamps one after the other; each is what the file had at its own instant of the call. */
    method SnapshotOf(paths: seq<string>) returns (snapshot: Option<SyncSnapshot>, ghost readAt: seq<nat>)
      modifies directory`now
      ensures directory.now >= old(directory.now)
      ensures snapshot.Some? ==> StampedAt(directory.history, paths, snapshot.value, readAt) &&
                                 Within(readAt, old(directory.now), directory.now)
      ensures snapshot.None? ==> exists path <- paths, t: nat | old(directory.now) <= t <= directory.now ::
                                   path !in directory.history(t)
    {
      var stamps: SyncSnapshot := [];
      readAt := [];
      for i := 0 to |paths|
        invariant directory.now >= old(directory.now)
        invariant StampedAt(directory.history, paths[..i], stamps, readAt)
        invariant Within(readAt, old(directory.now), directory.now)
      {
        var version := directory.Stat(paths[i]);
        if version.None? {
          assert paths[i] in paths && paths[i] !in directory.history(directory.now);
          return None, [];
        }
        stamps := stamps + [(paths[i], version.value.stamp)];
        readAt := readAt + [directory.now];
      }
      assert paths[..|paths|] == paths;
      return Some(stamps), readAt;
    }

    /** Loads every listed database, or fails part of the way. */
    method RegisterSyncDatabases(paths: seq<string>) returns (databases: Result<seq<Database>, Error>)
      modifies directory
      ensures directory.now >= old(directory.now)
      ensures old(directory.faulted) || databases.Err? ==> directory.faulted
      ensures databases.Ok? ==> ReadDuring(directory.history, paths, databases.value, old(directory.now), directory.now)
    {
      var loaded: seq<Database> := [];
      for i := 0 to |paths|
        invariant directory.now >= old(directory.now) && (old(directory.faulted) ==> directory.faulted)
        invariant ReadDuring(directory.history, paths[..i], loaded, old(directory.now), directory.now)
      {
        var done := directory.Attempt();
        if !done {
          return Err(OpenFailed);
        }
        var content := directory.ReadContent(paths[i]);
        loaded := loaded + [Database(paths[i], content)];
      }
      assert paths[..|paths|] == paths;
      return Ok(loaded);
    }

    /** `initialized` is what opening libalpm on the root gives. */
    method Connection(initialized: Result<(), Error>) returns (connection: Result<seq<Database>, Error>)
      requires Valid()
      modifies this, directory
      ensures Valid() && directory.now >= old(directory.now)
      ensures connection.Ok? ==> handleOpen && connection.value == syncDatabases
      ensures connection.Ok? && knownSnapshot.Some? ==> old(directory.now) <= agreedAt
      ensures connection.Err? ==>
                || (&& handleOpen == old(handleOpen) && syncDatabases == old(syncDatabases)
                    && knownSnapshot == old(knownSnapshot))
                || (!handleOpen && syncDatabases == [] && knownSnapshot.None?)
      ensures old(directory.faulted) ==> directory.faulted
      ensures connection.Err? && !directory.faulted ==>
                initialized.Err? || exists t | old(directory.now) <= t <= directory.now :: !directory.listable(t)
      ensures connection.Ok? && Quiet(directory, old(directory.now), directory.now) ==>
                && knownSnapshot == Some(CurrentSnapshot(directory.history(directory.now), listed))
                && (old(handleOpen) && old(knownSnapshot) == knownSnapshot ==> loads == old(loads))
    {
      var listing := ListSyncDbFiles();
      if listing.Err? {
        return Err(listing.error);
      }
      ghost var begun := directory.now;
      var freshSnapshot, freshAt := SnapshotOf(listing.value);
      assert Quiet(directory, old(directory.now), directory.now) ==>
               freshSnapshot == Some(CurrentSnapshot(directory.history(directory.now), listed)) by {
        if Quiet(directory, old(directory.now), directory.now) {
          QuietSnapshot(directory.history, old(directory.now), directory.now, listing.value, freshSnapshot, freshAt);
        }
      }
      if handleOpen && freshSnapshot.Some? && freshSnapshot == knownSnapshot {
        StillLoaded(directory.history, listing.value, knownSnapshot.value, syncDatabases, agreedAt, freshAt, begun);
        agreedAt := begun;
        return Ok(syncDatabases);
      }
      connection := Reload(listing.value, freshSnapshot, freshAt, initialized);
    }

    /** Drops what is cached and loads everything; it is cached only if the files are found unchanged afterwards. */
    method Reload(listing: seq<string>, freshSnapshot: Option<SyncSnapshot>, ghost freshAt: seq<nat>,
                  initialized: Result<(), Error>) returns (connection: Result<seq<Database>, Error>)
      requires StampsNeverRepeat(directory.history) && ListsExactly(listed)
      requires freshSnapshot.Some? ==> StampedAt(directory.history, listing, freshSnapshot.value, freshAt) &&
                                       Within(freshAt, 0, directory.now)
      modifies this, directory
      ensures Valid() && directory.now >= old(directory.now) && loads == old(loads) + 1
      ensures connection.Ok? ==> handleOpen && connection.value == syncDatabases
      ensures connection.Ok? && knownSnapshot.Some? ==> old(directory.now) <= agreedAt
      ensures connection.Err? ==> !handleOpen && syncDatabases == [] && knownSnapshot.None?
      ensures old(directory.faulted) ==> directory.faulted
      ensures connection.Err? ==> initialized.Err? || directory.faulted
      ensures connection.Ok? && Quiet(directory, old(directory.now), directory.now) &&
              listing == listed(directory.history(directory.now).Keys) &&
              freshSnapshot == Some(CurrentSnapshot(directory.history(directory.now), listed)) ==>
                knownSnapshot == freshSnapshot
    {
      handleOpen, syncDatabases, knownSnapshot := false, [], None;
      loads := loads + 1;
      if initialized.Err? {
        return Err(initialized.error);
      }
      handleOpen := true;
      ghost var middle := directory.now;
      var registered := RegisterSyncDatabases(listing);
      if registered.Err? {
        handleOpen := false;
        return Err(registered.error);
      }
      syncDatabases := registered.value;
      ghost var read := directory.now;
      var finalListing := ListSyncDbFiles();
      var finalSnapshot: Option<SyncSnapshot> := None;
      ghost var finalAt := [];
      if finalListing.Ok? {
        finalSnapshot, finalAt := SnapshotOf(finalListing.value);
        if Quiet(directory, old(directory.now), directory.now) {
          QuietSnapshot(directory.history, old(directory.now), directory.now, finalListing.value, finalSnapshot,
                        finalAt);
        }
      }
      if freshSnapshot.Some? && finalListing.Ok? && finalListing.value == listing && finalSnapshot.Some? &&
         finalSnapshot == freshSnapshot {
        DoubleChecked(directory.history, listing, freshSnapshot.value, freshAt, finalAt, syncDatabases, middle, read);
        knownSnapshot := finalSnapshot;
        agreedAt := middle;
      }
      return Ok(syncDatabases);
    }
  }

  /** The stamps the listed files have. */
  function SnapshotIn(files: Files, paths: seq<string>): (snapshot: SyncSnapshot)
    ensures |snapshot| == |paths|
  {
    seq(|paths|, i requires 0 <= i < |paths| => (paths[i], if paths[i] in files then files[paths[i]].stamp else 0))
  }

  function CurrentSnapshot(files: Files, listed: set<string> -> seq<string>): SyncSnapshot {
    SnapshotIn(files, listed(files.Keys))
  }

  /** Stamps read while nothing changes are all the current ones. */
  lemma QuietSnapshot(history: History, from: nat, to: nat, paths: seq<string>, snapshot: Option<SyncSnapshot>,
                      readAt: seq<nat>)
    requires from <= to && forall t | from <= t <= to :: history(t) == history(to)
    requires forall path <- paths :: path in history(to)
    requires snapshot.Some? ==> StampedAt(history, paths, snapshot.value, readAt) && Within(readAt, from, to)
    requires snapshot.None? ==> exists path <- paths, t: nat | from <= t <= to :: path !in history(t)
    ensures snapshot == Some(SnapshotIn(history(to), paths))
  {
    if snapshot.Some? {
      forall i | 0 <= i < |paths|
        ensures snapshot.value[i] == SnapshotIn(history(to), paths)[i]
      {
        assert paths[i] in paths && history(readAt[i]) == history(to);
      }
      assert snapshot.value == SnapshotIn(history(to), paths);
    }
  }

  /** The listing names each file of the directory, and nothing else. */
  ghost predicate ListsExactly(listed: set<string> -> seq<string>) {
    forall files: set<string>, path: string :: path in listed(files) <==> path in files
  }

  /** Nothing changes in the directory during this time, and it can be listed. */
  ghost predicate Quiet(directory: SharedDirectory, from: nat, to: nat) {
    forall t | from <= t <= to :: directory.history(t) == directory.history(to) && directory.listable(t)
  }

  // Instants

  ghost predicate Within(readAt: seq<nat>, from: nat, to: nat) {
    forall i | 0 <= i < |readAt| :: from <= readAt[i] <= to
  }

  /** Each stamp is the file's at the instant it was read. */
  ghost predicate StampedAt(history: History, paths: seq<string>, snapshot: SyncSnapshot, readAt: seq<nat>) {
    && |snapshot| == |paths| == |readAt|
    && forall i | 0 <= i < |paths| ::
         && snapshot[i].0 == paths[i] && paths[i] in history(readAt[i])
         && history(readAt[i])[paths[i]].stamp == snapshot[i].1
  }

  /** Each database read during this time is its file's contents, if the file did not change all that time. */
  ghost predicate ReadDuring(history: History, paths: seq<string>, databases: seq<Database>, from: nat, to: nat) {
    && |databases| == |paths|
    && forall i | 0 <= i < |paths| ::
         && databases[i].path == paths[i]
         && (Unchanged(history, paths[i], from, to) && from <= to ==>
               databases[i].content == history(from)[paths[i]].content)
  }

  /** Stamps equal before and after the databases were read: they are what the files held at one instant. */
  lemma DoubleChecked(history: History, paths: seq<string>, snapshot: SyncSnapshot, freshAt: seq<nat>,
                      finalAt: seq<nat>, databases: seq<Database>, middle: nat, read: nat)
    requires StampsNeverRepeat(history) && middle <= read
    requires StampedAt(history, paths, snapshot, freshAt) && StampedAt(history, paths, snapshot, finalAt)
    requires forall i | 0 <= i < |paths| :: freshAt[i] <= middle && read <= finalAt[i]
    requires ReadDuring(history, paths, databases, middle, read)
    ensures LoadedFrom(history(middle), snapshot, databases)
  {
    forall i | 0 <= i < |paths|
      ensures snapshot[i].0 in history(middle) && history(middle)[paths[i]].stamp == snapshot[i].1
      ensures databases[i] == Database(paths[i], history(middle)[paths[i]].content)
    {
      assert SameAt(history, paths[i], freshAt[i], finalAt[i]);
      Narrower(history, paths[i], freshAt[i], finalAt[i], middle, read);
    }
  }

  lemma Narrower(history: History, path: string, first: nat, last: nat, from: nat, to: nat)
    requires Unchanged(history, path, first, last) && first <= from <= to <= last
    ensures Unchanged(history, path, from, to)
    ensures path in history(from) && history(from)[path] == history(first)[path]
  {
  }

  /** Stamps read again that are still the known ones: when the reading began, the files held what is cached. */
  lemma StillLoaded(history: History, paths: seq<string>, snapshot: SyncSnapshot, databases: seq<Database>,
                    agreedAt: nat, freshAt: seq<nat>, begun: nat)
    requires StampsNeverRepeat(history) && LoadedFrom(history(agreedAt), snapshot, databases)
    requires StampedAt(history, paths, snapshot, freshAt)
    requires agreedAt <= begun && forall i | 0 <= i < |paths| :: begun <= freshAt[i]
    ensures LoadedFrom(history(begun), snapshot, databases)
  {
    forall i | 0 <= i < |paths|
      ensures paths[i] in history(begun) && history(begun)[paths[i]] == history(agreedAt)[paths[i]]
    {
      assert SameAt(history, paths[i], agreedAt, freshAt[i]);
      Narrower(history, paths[i], agreedAt, freshAt[i], begun, begun);
    }
  }

  /** A hit equals a reload: the same files with the same stamps give the same databases, whenever they are loaded. */
  lemma HitEqualsReload(history: History, snapshot: SyncSnapshot, hitAt: nat, reloadAt: nat, hit: seq<Database>,
                        reloaded: seq<Database>)
    requires StampsNeverRepeat(history)
    requires LoadedFrom(history(hitAt), snapshot, hit) && LoadedFrom(history(reloadAt), snapshot, reloaded)
    ensures hit == reloaded
  {
    var first, last := if hitAt <= reloadAt then hitAt else reloadAt, if hitAt <= reloadAt then reloadAt else hitAt;
    forall i | 0 <= i < |snapshot|
      ensures hit[i] == reloaded[i]
    {
      assert SameAt(history, snapshot[i].0, first, last);
      assert Unchanged(history, snapshot[i].0, first, last);
    }
  }
}

/** The private copy of the databases a check works on: accepted only if no source changed while it was made. */
module VerifiedCopy {
  import opened Wrappers
  import opened SharedFiles

  datatype Error = Busy | Unknown

  datatype SourceStamp = SourceStamp(path: string, size: nat, modified: int)

  predicate SameStamp(stamp: SourceStamp, version: Version) {
    stamp.size == |version.content| && stamp.modified == version.stamp
  }

  /** This copy has the stamp of its source when it was opened, and its contents unless it changed while copied. */
  ghost predicate CopiedBetween(history: History, stamp: SourceStamp, copy: Version, from: nat, to: nat) {
    exists t: nat :: CopiedAt(history, stamp, copy, from, t, to)
  }

  ghost predicate CopiedAt(history: History, stamp: SourceStamp, copy: Version, from: nat, t: nat, to: nat) {
    && from <= t <= to
    && stamp.path in history(t) && SameStamp(stamp, history(t)[stamp.path])
    && copy.stamp == stamp.modified
    && (Unchanged(history, stamp.path, t, to) ==> copy == history(t)[stamp.path])
  }

  /** Copies chunk by chunk; the copy gets the source's modification time. */
  method CopyPreservingMtime(directory: SharedDirectory, path: string)
      returns (copied: Option<(SourceStamp, Version)>)
    modifies directory
    ensures directory.now >= old(directory.now) && (old(directory.faulted) ==> directory.faulted)
    ensures copied.None? && !directory.faulted ==>
              exists t | old(directory.now) <= t <= directory.now :: path !in directory.history(t)
    ensures copied.Some? ==>
              && copied.value.0.path == path
              && CopiedBetween(directory.history, copied.value.0, copied.value.1, old(directory.now), directory.now)
  {
    var source := directory.Stat(path);
    if source.None? {
      return None;
    }
    var content := source.value.content;
    var stamp := SourceStamp(path, |content|, source.value.stamp);
    ghost var openedAt := directory.now;
    var start := directory.now;
    var done := "";
    while |done| < |content| && Unchanged(directory.history, path, start, directory.now)
      invariant old(directory.now) <= openedAt <= directory.now && start == openedAt
      invariant old(directory.faulted) ==> directory.faulted
      invariant |done| <= |content| && done == content[..|done|]
      decreases |content| - |done|
    {
      directory.Wait();
      var arrived := directory.Attempt();
      if !arrived {
        return None;
      }
      var count: int := *;
      if count <= 0 || count > |content| - |done| {
        count := |content| - |done|;
      }
      done := done + content[|done|..|done| + count];
    }
    directory.Wait();
    if !Unchanged(directory.history, path, start, directory.now) {
      // The source changed under the descriptor: the bytes may be anything.
      done := *;
    }
    var copy := Version(stamp.modified, done);
    assert CopiedAt(directory.history, stamp, copy, old(directory.now), openedAt, directory.now) by {
      if Unchanged(directory.history, path, openedAt, directory.now) {
        assert done == content;
      }
    }
    return Some((stamp, copy));
  }

  /** `names` are the database files found in the directory. */
  method LayOutScratch(directory: SharedDirectory, names: seq<string>)
      returns (laidOut: Result<(seq<SourceStamp>, seq<Version>), Error>)
    modifies directory
    ensures directory.now >= old(directory.now) && (old(directory.faulted) ==> directory.faulted)
    ensures laidOut.Err? && !directory.faulted ==>
              exists name <- names :: !Unchanged(directory.history, name, old(directory.now), directory.now)
    ensures laidOut.Ok? ==>
              && |laidOut.value.0| == |laidOut.value.1| == |names|
              && forall i | 0 <= i < |names| ::
                   && laidOut.value.0[i].path == names[i]
                   && CopiedBetween(directory.history, laidOut.value.0[i], laidOut.value.1[i], old(directory.now),
                                    directory.now)
  {
    var stamps: seq<SourceStamp>, copies: seq<Version> := [], [];
    for i := 0 to |names|
      invariant directory.now >= old(directory.now) && (old(directory.faulted) ==> directory.faulted)
      invariant |stamps| == |copies| == i
      invariant forall k | 0 <= k < i ::
                  stamps[k].path == names[k] &&
                  CopiedBetween(directory.history, stamps[k], copies[k], old(directory.now), directory.now)
    {
      ghost var before := directory.now;
      var copied := CopyPreservingMtime(directory, names[i]);
      if copied.None? {
        assert names[i] in names;
        return Err(Unknown);
      }
      forall k | 0 <= k < i
        ensures CopiedBetween(directory.history, stamps[k], copies[k], old(directory.now), directory.now)
      {
        Later(directory.history, stamps[k], copies[k], old(directory.now), before, directory.now);
      }
      Earlier(directory.history, copied.value.0, copied.value.1, old(directory.now), before, directory.now);
      stamps := stamps + [copied.value.0];
      copies := copies + [copied.value.1];
    }
    return Ok((stamps, copies));
  }

  lemma Later(history: History, stamp: SourceStamp, copy: Version, from: nat, before: nat, to: nat)
    requires CopiedBetween(history, stamp, copy, from, before) && before <= to
    ensures CopiedBetween(history, stamp, copy, from, to)
  {
    var t :| CopiedAt(history, stamp, copy, from, t, before);
    assert Unchanged(history, stamp.path, t, to) ==> Unchanged(history, stamp.path, t, before);
    assert CopiedAt(history, stamp, copy, from, t, to);
  }

  lemma Earlier(history: History, stamp: SourceStamp, copy: Version, from: nat, before: nat, to: nat)
    requires CopiedBetween(history, stamp, copy, before, to) && from <= before
    ensures CopiedBetween(history, stamp, copy, from, to)
  {
    var t :| CopiedAt(history, stamp, copy, before, t, to);
    assert CopiedAt(history, stamp, copy, from, t, to);
  }

  /** No source's stamp has changed since it was copied; `locked` tells whether the package database is locked. */
  method VerifyCopy(directory: SharedDirectory, stamps: seq<SourceStamp>, locked: bool)
      returns (verified: Result<(), Error>)
    modifies directory`now
    ensures directory.now >= old(directory.now)
    ensures verified.Ok? ==> !locked && forall stamp <- stamps ::
              SameLater(directory.history, stamp, old(directory.now), directory.now)
    ensures verified.Err? ==> locked || exists stamp <- stamps, t: nat | old(directory.now) <= t <= directory.now ::
              !StillAt(directory.history, stamp, t)
  {
    if locked {
      return Err(Busy);
    }
    for i := 0 to |stamps|
      invariant directory.now >= old(directory.now)
      invariant forall k | 0 <= k < i ::
                  SameLater(directory.history, stamps[k], old(directory.now), directory.now)
    {
      ghost var before := directory.now;
      var version := directory.Stat(stamps[i].path);
      if version.None? || !SameStamp(stamps[i], version.value) {
        assert stamps[i] in stamps && !StillAt(directory.history, stamps[i], directory.now);
        return Err(Busy);
      }
      assert StillAt(directory.history, stamps[i], directory.now);
      forall k | 0 <= k < i
        ensures SameLater(directory.history, stamps[k], old(directory.now), directory.now)
      {
        var t: nat :| old(directory.now) <= t <= before && StillAt(directory.history, stamps[k], t);
      }
    }
    return Ok(());
  }

  ghost predicate StillAt(history: History, stamp: SourceStamp, t: nat) {
    stamp.path in history(t) && SameStamp(stamp, history(t)[stamp.path])
  }

  ghost predicate SameLater(history: History, stamp: SourceStamp, from: nat, to: nat) {
    exists t: nat | from <= t <= to :: StillAt(history, stamp, t)
  }

  /** An accepted copy is, file by file, what all its sources were at one common instant: when verification began. */
  method CopyDatabases(directory: SharedDirectory, names: seq<string>, locked: bool)
      returns (copies: Result<seq<Version>, Error>, ghost at: nat)
    requires StampsNeverRepeat(directory.history)
    modifies directory
    ensures copies.Ok? ==>
              && old(directory.now) <= at <= directory.now
              && |copies.value| == |names|
              && forall i | 0 <= i < |names| ::
                   names[i] in directory.history(at) && copies.value[i] == directory.history(at)[names[i]]
    ensures copies.Err? && !directory.faulted ==>
              locked || exists name <- names :: !Unchanged(directory.history, name, old(directory.now), directory.now)
  {
    var laidOut := LayOutScratch(directory, names);
    at := directory.now;
    if laidOut.Err? {
      return Err(laidOut.error), at;
    }
    var verified := VerifyCopy(directory, laidOut.value.0, locked);
    if verified.Err? {
      if !locked {
        NotStill(directory.history, names, laidOut.value.0, laidOut.value.1, old(directory.now), at, directory.now);
      }
      return Err(verified.error), at;
    }
    forall i | 0 <= i < |names|
      ensures names[i] in directory.history(at) && laidOut.value.1[i] == directory.history(at)[names[i]]
    {
      assert laidOut.value.0[i] in laidOut.value.0;
      VerifiedIsCommon(directory.history, laidOut.value.0[i], laidOut.value.1[i], old(directory.now), at,
                       directory.now);
    }
    return Ok(laidOut.value.1), at;
  }

  /** A stamp that is not seen again belongs to a file that has changed. */
  lemma NotStill(history: History, names: seq<string>, stamps: seq<SourceStamp>, copies: seq<Version>, from: nat,
                 at: nat, to: nat)
    requires |stamps| == |copies| == |names| && from <= at <= to
    requires forall i | 0 <= i < |names| ::
               stamps[i].path == names[i] && CopiedBetween(history, stamps[i], copies[i], from, at)
    requires exists stamp <- stamps, t: nat | at <= t <= to :: !StillAt(history, stamp, t)
    ensures exists name <- names :: !Unchanged(history, name, from, to)
  {
    var stamp, t: nat :| stamp in stamps && at <= t <= to && !StillAt(history, stamp, t);
    var i :| 0 <= i < |stamps| && stamps[i] == stamp;
    var openedAt :| CopiedAt(history, stamps[i], copies[i], from, openedAt, at);
    assert names[i] in names;
  }

  lemma VerifiedIsCommon(history: History, stamp: SourceStamp, copy: Version, from: nat, at: nat, to: nat)
    requires StampsNeverRepeat(history)
    requires CopiedBetween(history, stamp, copy, from, at) && SameLater(history, stamp, at, to)
    ensures stamp.path in history(at) && copy == history(at)[stamp.path]
  {
    var openedAt :| CopiedAt(history, stamp, copy, from, openedAt, at);
    var checked: nat :| at <= checked <= to && StillAt(history, stamp, checked);
    assert SameAt(history, stamp.path, openedAt, checked);
    assert Unchanged(history, stamp.path, openedAt, checked);
    assert Unchanged(history, stamp.path, openedAt, at);
  }
}

/**
 * Publication of a snapshot, step by step. Every state the directory passes through is recorded in `trace`:
 * a crash leaves the directory in one of them. Any file operation may fail.
 */
module Publication {
  import opened Wrappers
  import opened Domain
  import opened SnapshotJson
  import opened Catalog

  datatype StoreError = StoreError(message: string)

  /** A catalog directory exists only if the lock file does. */
  predicate Guarded(disk: Disk) {
    disk.generations != map[] ==> disk.lockFile
  }

  /** A new UUID: no sidecar names it. */
  predicate Unnamed(disk: Disk, generation: nat) {
    forall bytes <- disk.sidecars :: disk.sidecars[bytes].generation != generation
  }

  /** The sidecar of these bytes names a generation that retains exactly these repositories. */
  predicate CatalogReady(disk: Disk, bytes: Bytes, repositories: seq<Provenance>, generation: nat,
                         sidecarLength: nat) {
    && bytes in disk.sidecars
    && disk.sidecars[bytes] == Sidecar(generation, RowsFor(repositories), sidecarLength)
    && generation in disk.generations
    && Retains(disk.generations[generation], repositories)
  }

  /** What a reader makes of a catalog that is ready. */
  function ReadyCatalog(repositories: seq<Provenance>, generation: nat, sidecarLength: nat): seq<Provenance> {
    if Readable(repositories) && sidecarLength <= MAX_SIDECAR_BYTES then Relocated(repositories, generation) else []
  }

  lemma ReadyCatalogLoads(disk: Disk, bytes: Bytes, repositories: seq<Provenance>, generation: nat,
                          sidecarLength: nat)
    requires CatalogReady(disk, bytes, repositories, generation, sidecarLength)
    ensures LoadProvenance(disk, bytes) == ReadyCatalog(repositories, generation, sidecarLength)
  {
    RetainedReadsBack(disk.generations[generation], generation, repositories);
  }

  /** A state before the snapshot is replaced: a new generation may be growing, and at the end its sidecar appears. */
  predicate Preparing(before: Disk, disk: Disk, bytes: Bytes, repositories: seq<Provenance>, generation: nat,
                      sidecarLength: nat) {
    && disk.published == before.published
    && disk.lockFile == before.lockFile
    && (forall g <- before.generations :: g in disk.generations && disk.generations[g] == before.generations[g])
    && (forall g <- disk.generations :: g in before.generations || g == generation)
    && (|| disk.sidecars == before.sidecars
        || (&& CatalogReady(disk, bytes, repositories, generation, sidecarLength)
            && disk.sidecars == before.sidecars[bytes := disk.sidecars[bytes]]))
  }

  /** While a publication is prepared, every snapshot keeps its catalog, except that the new bytes may gain theirs. */
  lemma PreparingKeepsCatalogs(before: Disk, disk: Disk, bytes: Bytes, repositories: seq<Provenance>,
                               generation: nat, sidecarLength: nat, other: Bytes)
    requires Unnamed(before, generation)
    requires Preparing(before, disk, bytes, repositories, generation, sidecarLength)
    ensures || LoadProvenance(disk, other) == LoadProvenance(before, other)
            || (other == bytes && LoadProvenance(disk, other) == ReadyCatalog(repositories, generation, sidecarLength))
    ensures disk.sidecars == before.sidecars ==> LoadProvenance(disk, other) == LoadProvenance(before, other)
  {
    if disk.sidecars != before.sidecars && other == bytes {
      ReadyCatalogLoads(disk, bytes, repositories, generation, sidecarLength);
    } else if other in before.sidecars {
      assert disk.sidecars[other] == before.sidecars[other];
      assert before.sidecars[other].generation != generation;
    }
  }

  /** A state of the reclamation: files vanish, but the kept generation and the sidecar of the bytes stay. */
  predicate Reclaiming(start: Disk, disk: Disk, bytes: Bytes, keep: Option<nat>) {
    && disk.published == start.published
    && disk.lockFile == start.lockFile
    && (forall g <- disk.generations :: g in start.generations &&
          forall name <- disk.generations[g] ::
            name in start.generations[g] && disk.generations[g][name] == start.generations[g][name])
    && (keep.Some? && keep.value in start.generations ==>
          keep.value in disk.generations && disk.generations[keep.value] == start.generations[keep.value])
    && (bytes in start.sidecars <==> bytes in disk.sidecars)
    && (bytes in start.sidecars ==> disk.sidecars[bytes] == start.sidecars[bytes])
    && disk.sidecars.Keys <= start.sidecars.Keys
  }

  /** The generation the reclamation spares: the one the sidecar names, if the sidecar can be readable. */
  function CurrentGeneration(disk: Disk, bytes: Bytes, readable: bool): Option<nat> {
    if readable && bytes in disk.sidecars then Some(disk.sidecars[bytes].generation) else None
  }

  lemma ReclaimingKeepsCatalog(start: Disk, disk: Disk, bytes: Bytes, readable: bool)
    requires Reclaiming(start, disk, bytes, CurrentGeneration(start, bytes, readable))
    ensures readable ==> LoadProvenance(disk, bytes) == LoadProvenance(start, bytes)
    ensures LoadProvenance(disk, bytes) == LoadProvenance(start, bytes) || LoadProvenance(disk, bytes) == []
  {
    if bytes in start.sidecars {
      var sidecar := start.sidecars[bytes];
      if sidecar.generation in disk.generations {
        FewerFiles(start.generations[sidecar.generation], disk.generations[sidecar.generation], sidecar.generation,
                   sidecar.rows);
      }
    }
  }

  /** The directory after a reclamation in which every removal succeeds. */
  function Reclaimed(disk: Disk, bytes: Bytes, readable: bool): Disk {
    var keep := CurrentGeneration(disk, bytes, readable);
    disk.(generations := map g | g in disk.generations && Some(g) == keep :: disk.generations[g],
          sidecars := map b | b in disk.sidecars && b == bytes :: disk.sidecars[b])
  }

  /**
   * Reclamation after publication keeps the published catalog exactly when the sidecar could be readable again.
   * When that open fails, the generation in use is taken for an unused one.
   */
  lemma ReclamationKeepsCatalogIffOpened(disk: Disk, bytes: Bytes, readable: bool)
    requires disk.published == Some(bytes) && disk.lockFile
    requires Load(disk).Valid? && Load(disk).repositories != []
    ensures Load(Reclaimed(disk, bytes, readable)) == Load(disk) <==> readable
  {
    var after := Reclaimed(disk, bytes, readable);
    assert bytes in disk.sidecars && after.sidecars[bytes] == disk.sidecars[bytes];
    if readable {
      assert after.generations[disk.sidecars[bytes].generation] == disk.generations[disk.sidecars[bytes].generation];
    } else {
      assert after.generations == map[];
    }
  }

  datatype Entry = GenerationEntry(generation: nat) | SidecarEntry(bytes: Bytes)

  class SnapshotStore {
    var disk: Disk
    var trace: seq<Disk>
    /** A file operation has failed, or a database changed while it was copied. */
    ghost var faulted: bool

    ghost predicate Valid()
      reads this
    {
      trace != [] && trace[|trace| - 1] == disk
    }

    constructor (disk: Disk)
      ensures Valid() && this.disk == disk && trace == [disk] && !faulted
    {
      this.disk := disk;
      trace := [disk];
      faulted := false;
    }

    /** One indivisible change of the directory. */
    method Write(next: Disk)
      requires Valid()
      modifies this`disk, this`trace
      ensures Valid() && disk == next && trace == old(trace) + [next]
    {
      disk := next;
      trace := trace + [next];
    }

    /** A file operation that may fail. */
    method Attempt() returns (done: bool)
      modifies this`faulted
      ensures old(faulted) ==> faulted
      ensures !done ==> faulted
    {
      done := *;
      if !done {
        faulted := true;
      }
    }

    /** Some(_) when the published bytes are these already: the sidecar is reused if it is equivalent. */
    method ReusePublishedProvenance(repositories: seq<Provenance>, bytes: Bytes)
        returns (reused: Option<Result<(), StoreError>>)
      modifies this`faulted
      ensures old(faulted) ==> faulted
      ensures reused.Some? ==> disk.published == Some(bytes)
      ensures reused.Some? ==> (reused.value.Ok? <==> SameCatalog(LoadProvenance(disk, bytes), repositories))
      ensures reused.None? && !faulted ==> disk.published != Some(bytes)
    {
      var readable := Attempt();
      if readable && disk.published == Some(bytes) {
        var previous := LoadProvenance(disk, bytes);
        if |previous| == |repositories| {
          var equivalent := true;
          for i := 0 to |repositories|
            invariant equivalent <==> SameCatalog(previous[..i], repositories[..i])
            invariant old(faulted) ==> faulted
          {
            equivalent := equivalent && previous[i].name == repositories[i].name &&
            previous[i].identity == repositories[i].identity && previous[i].digest == repositories[i].digest &&
            previous[i].timestamp == repositories[i].timestamp;
            SameCatalogMore(previous, repositories, i);
          }
          assert previous[..|previous|] == previous && repositories[..|repositories|] == repositories;
          if equivalent {
            return Some(Ok(()));
          }
        }
        return Some(Err(StoreError("snapshot content hash already identifies a different catalog")));
      }
      return None;
    }

    /** Copies one database into the new generation; its source may change or vanish at any time. */
    method RetainDatabase(repository: Provenance, generation: nat) returns (result: Result<(), StoreError>)
      requires Valid() && generation in disk.generations
      modifies this
      ensures Valid() && (old(faulted) ==> faulted)
      ensures (disk == old(disk) && trace == old(trace)) || trace == old(trace) + [disk]
      ensures result.Err? && !faulted ==>
                !SafeName(repository.name) || repository.name in old(disk.generations[generation])
      ensures OnlyGenerationDiffers(old(disk), disk, generation)
      ensures result.Ok? ==>
                && RetainsEntry(disk.generations[generation], repository)
                && repository.name !in old(disk.generations[generation])
                && disk.generations[generation] ==
                   old(disk.generations[generation])[repository.name :=
                                                     disk.generations[generation][repository.name]]
    {
      if !SafeName(repository.name) {
        return Err(StoreError("invalid repository identity"));
      }
      var files := disk.generations[generation];
      var copied := Attempt();
      var content: string := *;
      if repository.name in files || !copied {
        var partial: bool := *;
        if partial && repository.name !in files {
          Write(disk.(generations := disk.generations[generation := files[repository.name := content]]));
        }
        return Err(StoreError("cannot retain repository database"));
      }
      Write(disk.(generations := disk.generations[generation := files[repository.name := content]]));
      if repository.digest != Sha256(content) {
        faulted := true;
        return Err(StoreError("repository changed during publication"));
      }
      var synced := Attempt();
      if !synced {
        return Err(StoreError("cannot sync retained repository database"));
      }
      return Ok(());
    }

    method RetainDatabases(repositories: seq<Provenance>, generation: nat) returns (result: Result<(), StoreError>)
      requires Valid() && generation in disk.generations && disk.generations[generation] == map[]
      modifies this
      ensures Valid() && old(trace) <= trace && (old(faulted) ==> faulted)
      ensures AllFilling(old(disk), trace, |old(trace)|, generation)
      ensures OnlyGenerationDiffers(old(disk), disk, generation)
      ensures result.Ok? ==> Retains(disk.generations[generation], repositories)
      ensures result.Err? && !faulted ==> !Retainable(repositories)
    {
      for i := 0 to |repositories|
        invariant Valid() && old(trace) <= trace && (old(faulted) ==> faulted)
        invariant AllFilling(old(disk), trace, |old(trace)|, generation)
        invariant OnlyGenerationDiffers(old(disk), disk, generation)
        invariant RetainsOnly(disk.generations[generation], repositories[..i])
      {
        ghost var before, files := disk, disk.generations[generation];
        var retained := RetainDatabase(repositories[i], generation);
        DiffersTransitive(old(disk), before, disk, generation);
        if retained.Err? {
          if !faulted {
            NotRetainable(files, repositories, i);
          }
          return retained;
        }
        OneMoreRetained(files, disk.generations[generation], repositories[..i], repositories[i]);
        assert repositories[..i + 1] == repositories[..i] + [repositories[i]];
      }
      assert repositories[..|repositories|] == repositories;
      return Ok(());
    }

    /** Retains the databases and then, in one step, publishes the sidecar that names them. */
    method SaveProvenance(repositories: seq<Provenance>, bytes: Bytes, generation: nat, sidecarLength: nat)
        returns (result: Result<(), StoreError>, ghost reused: bool)
      requires Valid() && Unnamed(disk, generation)
      modifies this
      ensures Valid() && old(trace) <= trace
      ensures forall k | |old(trace)| <= k < |trace| ::
                Preparing(old(disk), trace[k], bytes, repositories, generation, sidecarLength)
      ensures Preparing(old(disk), disk, bytes, repositories, generation, sidecarLength)
      ensures repositories == [] || reused ==> disk == old(disk) && trace == old(trace)
      ensures repositories == [] ==> result.Ok? && !reused
      ensures reused ==> disk.published == Some(bytes) && SameCatalog(LoadProvenance(disk, bytes), repositories)
      ensures result.Ok? && repositories != [] && !reused ==>
                CatalogReady(disk, bytes, repositories, generation, sidecarLength)
      ensures result.Err? ==> disk.sidecars == old(disk.sidecars)
      ensures old(faulted) ==> faulted
      ensures !faulted ==> (result.Ok? <==> CanPublish(old(disk), bytes, repositories, generation))
      ensures !faulted && disk.published == Some(bytes) && result.Ok? && repositories != [] ==> reused
    {
      reused := false;
      if repositories == [] {
        return Ok(()), reused;
      }
      var published := ReusePublishedProvenance(repositories, bytes);
      if published.Some? {
        return published.value, published.value.Ok?;
      }
      result := RetainCatalog(repositories, bytes, generation, sidecarLength);
    }

    /** Publishes a generation's sidecar once the generation is complete. */
    method RetainCatalog(repositories: seq<Provenance>, bytes: Bytes, generation: nat, sidecarLength: nat)
        returns (result: Result<(), StoreError>)
      requires Valid() && Unnamed(disk, generation)
      modifies this
      ensures Valid() && old(trace) <= trace
      ensures forall k | |old(trace)| <= k < |trace| ::
                Preparing(old(disk), trace[k], bytes, repositories, generation, sidecarLength)
      ensures Preparing(old(disk), disk, bytes, repositories, generation, sidecarLength)
      ensures result.Ok? ==> CatalogReady(disk, bytes, repositories, generation, sidecarLength)
      ensures result.Err? ==> disk.sidecars == old(disk.sidecars)
      ensures old(faulted) ==> faulted
      ensures !faulted ==> (result.Ok? <==> generation !in old(disk.generations) && Retainable(repositories))
    {
      result := FillGeneration(repositories, generation);
      forall d |
        d == old(disk) || (OnlyGenerationDiffers(old(disk), d, generation) && generation !in old(disk.generations))
        ensures Preparing(old(disk), d, bytes, repositories, generation, sidecarLength)
      {
        FillingPrepares(old(disk), d, bytes, repositories, generation, sidecarLength);
      }
      if result.Err? {
        return;
      }
      RetainedIsRetainable(disk.generations[generation], repositories);
      var committed := Attempt();
      if !committed {
        return Err(StoreError("cannot publish catalog provenance"));
      }
      ghost var filled := disk;
      Write(disk.(sidecars := disk.sidecars[bytes := Sidecar(generation, RowsFor(repositories), sidecarLength)]));
      SidecarPrepares(old(disk), filled, disk, bytes, repositories, generation, sidecarLength);
    }

    /** Creates a new generation and retains every database in it. */
    method FillGeneration(repositories: seq<Provenance>, generation: nat) returns (result: Result<(), StoreError>)
      requires Valid()
      modifies this
      ensures Valid() && old(trace) <= trace
      ensures forall k | |old(trace)| <= k < |trace| :: OnlyGenerationDiffers(old(disk), trace[k], generation)
      ensures disk == old(disk) || OnlyGenerationDiffers(old(disk), disk, generation)
      ensures disk != old(disk) || result.Ok? ==> generation !in old(disk.generations)
      ensures trace != old(trace) ==> generation !in old(disk.generations)
      ensures result.Ok? ==> generation in disk.generations && Retains(disk.generations[generation], repositories)
      ensures old(faulted) ==> faulted
      ensures result.Err? && !faulted ==> generation in old(disk.generations) || !Retainable(repositories)
    {
      var created := Attempt();
      if generation in disk.generations || !created {
        return Err(StoreError("cannot create catalog generation"));
      }
      Write(disk.(generations := disk.generations[generation := map[]]));
      ghost var empty := disk;
      result := RetainDatabases(repositories, generation);
      forall d | OnlyGenerationDiffers(empty, d, generation)
        ensures OnlyGenerationDiffers(old(disk), d, generation)
      {
        DiffersTransitive(old(disk), empty, d, generation);
      }
      if result.Ok? {
        var synced := Attempt();
        if !synced {
          return Err(StoreError("cannot sync catalog generation"));
        }
      }
    }

    /** Writes a temporary file and renames it over the snapshot. */
    method ReplaceSnapshot(bytes: Bytes) returns (result: Result<(), StoreError>)
      requires Valid()
      modifies this
      ensures Valid() && old(trace) <= trace
      ensures forall k | |old(trace)| <= k < |trace| :: Replacing(old(disk), trace[k], bytes)
      ensures disk == old(disk).(temporaries := disk.temporaries,
                                 published := if result.Ok? then Some(bytes) else old(disk.published))
      ensures old(faulted) || result.Err? ==> faulted
    {
      var created := Attempt();
      if !created {
        return Err(StoreError("cannot create a temporary file"));
      }
      Write(disk.(temporaries := disk.temporaries + 1));
      var renamed := Attempt(); // false when writing, syncing, the hook or the rename itself fails
      if !renamed {
        var removed := Attempt();
        if removed {
          Write(disk.(temporaries := disk.temporaries - 1));
        }
        return Err(StoreError("cannot replace the snapshot"));
      }
      Write(disk.(temporaries := disk.temporaries - 1, published := Some(bytes)));
      return Ok(());
    }

    /** Removes a generation file by file; any removal may fail. */
    method RemoveGeneration(generation: nat) returns (removed: bool)
      requires Valid() && generation in disk.generations
      modifies this
      ensures Valid() && old(trace) <= trace
      ensures forall k | |old(trace)| <= k < |trace| :: Shrinking(old(disk), trace[k], generation)
      ensures Shrinking(old(disk), disk, generation)
      ensures removed ==> disk == old(disk).(generations := old(disk.generations) - {generation})
      ensures old(faulted) || !removed ==> faulted
    {
      var emptied := EmptyGeneration(generation);
      if !emptied {
        return false;
      }
      removed := Attempt();
      if removed {
        ShrunkAway(old(disk), disk, generation);
        Write(disk.(generations := disk.generations - {generation}));
      }
    }

    method EmptyGeneration(generation: nat) returns (emptied: bool)
      requires Valid() && generation in disk.generations
      modifies this
      ensures Valid() && old(trace) <= trace && generation in disk.generations
      ensures AllShrinking(old(disk), trace, |old(trace)|, generation)
      ensures Shrinking(old(disk), disk, generation)
      ensures old(faulted) || !emptied ==> faulted
    {
      while disk.generations[generation] != map[]
        invariant Valid() && old(trace) <= trace && (old(faulted) ==> faulted)
        invariant AllShrinking(old(disk), trace, |old(trace)|, generation)
        invariant generation in disk.generations && Shrinking(old(disk), disk, generation)
        decreases |disk.generations[generation]|
      {
        ghost var before, files := disk, disk.generations[generation];
        ghost var name;
        emptied, name := UnlinkOne(generation);
        if !emptied {
          return;
        }
        FewerAfterRemoval(files, name);
        FileRemoved(old(disk), before, generation, name);
      }
      return true;
    }

    /** Removes any one file of the generation. */
    method UnlinkOne(generation: nat) returns (unlinked: bool, ghost name: string)
      requires Valid() && generation in disk.generations && disk.generations[generation] != map[]
      modifies this
      ensures Valid() && (old(faulted) || !unlinked ==> faulted)
      ensures name in old(disk).generations[generation]
      ensures unlinked ==>
                var left := old(disk).generations[generation] - {name};
                && disk == old(disk).(generations := old(disk).generations[generation := left])
                && trace == old(trace) + [disk]
      ensures !unlinked ==> disk == old(disk) && trace == old(trace)
    {
      var files := disk.generations[generation];
      var file :| file in files;
      name := file;
      unlinked := Attempt();
      if unlinked {
        Write(disk.(generations := disk.generations[generation := files - {file}]));
      }
    }

    /** Removes one entry of the directory unless it is in use or gone. */
    method RemoveUnused(entry: Entry, bytes: Bytes, current: Option<nat>) returns (clean: bool)
      requires Valid()
      modifies this
      ensures Valid() && old(trace) <= trace
      ensures AllReclaiming(old(disk), trace, |old(trace)|, bytes, current)
      ensures Reclaiming(old(disk), disk, bytes, current)
      ensures clean ==> disk == Without(old(disk), entry, bytes, current)
      ensures old(faulted) || !clean ==> faulted
    {
      clean := true;
      if entry.GenerationEntry? && Some(entry.generation) != current && entry.generation in disk.generations {
        clean := RemoveGeneration(entry.generation);
        forall d | Shrinking(old(disk), d, entry.generation)
          ensures Reclaiming(old(disk), d, bytes, current)
        {
          ShrinkingReclaims(old(disk), d, entry.generation, bytes, current);
        }
      } else if entry.SidecarEntry? && entry.bytes != bytes {
        var removed := Attempt();
        if removed {
          Write(disk.(sidecars := disk.sidecars - {entry.bytes}));
        }
        clean := removed;
      }
    }

    /** Removes every other generation and every other sidecar, in any order; listing them may end early. */
    method ReclaimUnusedGenerations(bytes: Bytes) returns (ghost readable: bool, ghost complete: bool)
      requires Valid()
      modifies this
      ensures Valid() && old(trace) <= trace
      ensures forall k | |old(trace)| <= k < |trace| ::
                Reclaiming(old(disk), trace[k], bytes, CurrentGeneration(old(disk), bytes, readable))
      ensures Reclaiming(old(disk), disk, bytes, CurrentGeneration(old(disk), bytes, readable))
      ensures complete ==> disk == Reclaimed(old(disk), bytes, readable)
      ensures old(faulted) || !readable || !complete ==> faulted
    {
      var read := Attempt();
      readable := read;
      complete := RemoveAllUnused(bytes, CurrentGeneration(disk, bytes, read));
      if complete {
        AllSwept(old(disk), disk, bytes, readable);
      }
    }

    method RemoveAllUnused(bytes: Bytes, current: Option<nat>) returns (ghost complete: bool)
      requires Valid()
      modifies this
      ensures Valid() && old(trace) <= trace
      ensures AllReclaiming(old(disk), trace, |old(trace)|, bytes, current)
      ensures Reclaiming(old(disk), disk, bytes, current)
      ensures complete ==> Swept(old(disk), disk, bytes, current, {})
      ensures old(faulted) || !complete ==> faulted
    {
      complete := true;
      var entries := EntriesOf(disk);
      AllListed(disk, bytes, current);
      while entries != {}
        invariant Valid() && old(trace) <= trace
        invariant AllReclaiming(old(disk), trace, |old(trace)|, bytes, current)
        invariant Reclaiming(old(disk), disk, bytes, current)
        invariant complete ==> Swept(old(disk), disk, bytes, current, entries)
        invariant old(faulted) || !complete ==> faulted
      {
        var listed := Attempt();
        if !listed {
          return false;
        }
        var entry :| entry in entries;
        complete := RemoveListed(entry, bytes, current, old(disk), |old(trace)|, entries, complete);
        entries := entries - {entry};
      }
    }

    /** Removes one of the listed entries, in a reclamation that began at `start`. */
    method RemoveListed(entry: Entry, bytes: Bytes, current: Option<nat>, ghost start: Disk, ghost from: nat,
                        ghost entries: set<Entry>, ghost clean: bool)
        returns (ghost complete: bool)
      requires Valid() && from <= |trace| && entry in entries
      requires AllReclaiming(start, trace, from, bytes, current) && Reclaiming(start, disk, bytes, current)
      requires clean ==> Swept(start, disk, bytes, current, entries)
      modifies this
      ensures Valid() && old(trace) <= trace
      ensures AllReclaiming(start, trace, from, bytes, current) && Reclaiming(start, disk, bytes, current)
      ensures complete ==> clean && Swept(start, disk, bytes, current, entries - {entry})
      ensures old(faulted) || (clean && !complete) ==> faulted
    {
      ghost var mid, mark := disk, trace;
      var removed := RemoveUnused(entry, bytes, current);
      TraceReclaims(start, mid, mark, trace, from, bytes, current);
      complete := clean && removed;
      if complete {
        SweptOneMore(start, mid, bytes, current, entries, entry);
      }
    }

    /** Opens the lock file, creating it if needed, and takes the exclusive lease; either may fail. */
    method TakeExclusiveLease() returns (valid: bool)
      requires Valid()
      modifies this
      ensures Valid() && (disk == old(disk) || disk == old(disk).(lockFile := true))
      ensures trace == old(trace) || trace == old(trace) + [disk]
      ensures trace == old(trace) ==> disk == old(disk)
      ensures trace != old(trace) || valid ==> disk.lockFile
      ensures old(faulted) || !valid ==> faulted
    {
      var openable := Attempt();
      if !openable {
        return false;
      }
      if !disk.lockFile {
        Write(disk.(lockFile := true));
      }
      valid := Attempt();
    }

    /**
     * Takes the lease if there is a catalog to protect, then retains the databases and their sidecar. When looking for
     * the lock file fails, it is taken to be missing.
     */
    method Prepare(bytes: Bytes, repositories: seq<Provenance>, generation: nat, sidecarLength: nat)
        returns (result: Result<(), StoreError>, ghost reused: bool, ghost leased: bool)
      requires Valid() && Guarded(disk) && Unnamed(disk, generation)
      modifies this
      ensures Valid() && old(trace) <= trace && Guarded(disk) && disk.published == old(disk.published)
      ensures var catalog := NewCatalog(old(disk), bytes, repositories, reused, generation, sidecarLength);
              && (forall k | |old(trace)| <= k < |trace| :: Showing(old(disk), trace[k], bytes, catalog, true))
              && Showing(old(disk), disk, bytes, catalog, true)
              && (result.Ok? ==> LoadProvenance(disk, bytes) == catalog)
      ensures reused ==> SameCatalog(LoadProvenance(old(disk), bytes), repositories)
      ensures result.Ok? && repositories != [] ==> HasCatalog(disk, bytes)
      ensures Load(disk) == Load(old(disk)) || old(disk.published) == Some(bytes)
      ensures result.Err? ==> Load(disk) == Load(old(disk))
      ensures leased || (repositories == [] && (!old(disk.lockFile) || faulted))
      ensures if leased
              then (result.Ok? ==> disk.lockFile) && forall k | |old(trace)| <= k < |trace| :: trace[k].lockFile
              else disk == old(disk) && trace == old(trace)
      ensures old(faulted) ==> faulted
      ensures !faulted ==> (result.Ok? <==> CanPublish(old(disk), bytes, repositories, generation))
      ensures !faulted && disk.published == Some(bytes) && result.Ok? && repositories != [] ==> reused
    {
      ghost var before := disk;
      reused := false;
      var found := LookForLock();
      leased := repositories != [] || found;
      if repositories != [] || found {
        var locked := TakeExclusiveLease();
        SameCatalogs(before, disk);
        if !locked {
          return Err(StoreError("cannot lock catalog cache")), reused, leased;
        }
      }
      result, reused := PrepareCatalog(bytes, repositories, generation, sidecarLength, before);
    }

    /** Once there is a lease if one is needed: what was loaded `before` is loaded until the new catalog is there. */
    method PrepareCatalog(bytes: Bytes, repositories: seq<Provenance>, generation: nat, sidecarLength: nat,
                          ghost before: Disk)
        returns (result: Result<(), StoreError>, ghost reused: bool)
      requires Valid() && Guarded(before) && (disk == before || disk == before.(lockFile := true))
      requires Unnamed(disk, generation) && (repositories != [] ==> disk.lockFile)
      modifies this
      ensures Valid() && old(trace) <= trace && disk.published == before.published
      ensures disk.lockFile == old(disk.lockFile)
      ensures repositories == [] ==> disk == old(disk) && trace == old(trace)
      ensures var catalog := NewCatalog(before, bytes, repositories, reused, generation, sidecarLength);
              && (forall k | |old(trace)| <= k < |trace| ::
                    Showing(before, trace[k], bytes, catalog, true) && trace[k].lockFile == disk.lockFile)
              && Showing(before, disk, bytes, catalog, true)
              && (result.Ok? ==> LoadProvenance(disk, bytes) == catalog)
      ensures reused ==> SameCatalog(LoadProvenance(before, bytes), repositories)
      ensures result.Ok? && repositories != [] ==> HasCatalog(disk, bytes)
      ensures Load(disk) == Load(before) || before.published == Some(bytes)
      ensures result.Err? ==> Load(disk) == Load(before)
      ensures old(faulted) ==> faulted
      ensures !faulted ==> (result.Ok? <==> CanPublish(before, bytes, repositories, generation))
      ensures !faulted && disk.published == Some(bytes) && result.Ok? && repositories != [] ==> reused
    {
      ghost var start := disk;
      SameCatalogs(before, start);
      result, reused := SaveProvenance(repositories, bytes, generation, sidecarLength);
      forall d | Preparing(start, d, bytes, repositories, generation, sidecarLength) &&
                 (d == start || (!reused && repositories != []))
        ensures Showing(before, d, bytes,
                        NewCatalog(before, bytes, repositories, reused, generation, sidecarLength), true)
        ensures Load(d) == Load(before) || before.published == Some(bytes)
        ensures d.sidecars == start.sidecars ==> Load(d) == Load(before)
      {
        PreparingShows(before, start, d, bytes, repositories, reused, generation, sidecarLength);
      }
      if result.Ok? {
        PreparedCatalog(start, disk, bytes, repositories, reused, generation, sidecarLength);
      }
    }

    /** Whether the lock file is there; an error reads as no. */
    method LookForLock() returns (found: bool)
      modifies this`faulted
      ensures old(faulted) ==> faulted
      ensures found ==> disk.lockFile
      ensures !found ==> !disk.lockFile || faulted
    {
      var looked := Attempt();
      found := looked && disk.lockFile;
    }

    /** Replaces the snapshot and reclaims what the new one does not use. */
    method Replace(bytes: Bytes, ghost before: Disk, ghost catalog: seq<Provenance>)
        returns (result: Result<(), StoreError>, ghost readable: bool, ghost complete: bool)
      requires Valid() && Guarded(disk)
      requires LoadProvenance(disk, bytes) == catalog && Showing(before, disk, bytes, catalog, true)
      modifies this
      ensures Valid() && old(trace) <= trace && Guarded(disk) && disk.lockFile == old(disk.lockFile)
      ensures forall k | |old(trace)| <= k < |trace| ::
                Showing(before, trace[k], bytes, catalog, readable) && SameLease(old(disk), trace[k])
      ensures result.Ok? ==> disk.published == Some(bytes)
      ensures result.Ok? && readable ==> Load(disk) == LoadOf(bytes, catalog)
      ensures result.Ok? ==> Load(disk) == LoadOf(bytes, catalog) || Load(disk) == LoadOf(bytes, [])
      ensures result.Ok? && readable && complete && HasCatalog(old(disk), bytes) ==> OneCatalogLeft(disk, bytes)
      ensures result.Err? ==> readable && disk.published == old(disk.published) && Load(disk) == Load(old(disk))
      ensures old(faulted) || !readable || !complete || result.Err? ==> faulted
    {
      readable, complete := true, true;
      ghost var prepared := disk;
      result := ReplaceSnapshot(bytes);
      forall d | Replacing(prepared, d, bytes)
        ensures Showing(before, d, bytes, catalog, true) && SameLease(prepared, d)
        ensures d.published == prepared.published ==> Load(d) == Load(prepared)
        ensures LoadProvenance(d, bytes) == catalog
      {
        ReplacingShows(before, prepared, d, bytes, catalog);
      }
      if result.Err? {
        return;
      }
      ghost var replaced := disk;
      readable, complete := ReclaimUnusedGenerations(bytes);
      forall d | Reclaiming(replaced, d, bytes, CurrentGeneration(replaced, bytes, readable))
        ensures Showing(before, d, bytes, catalog, readable) && SameLease(prepared, d) && Guarded(d)
        ensures Load(d) == LoadOf(bytes, catalog) || (!readable && Load(d) == LoadOf(bytes, []))
      {
        ReclaimingShows(before, replaced, d, bytes, catalog, readable);
      }
    }

    /** Removes the snapshot file if it is still invalid; the catalogs stay. */
    method DiscardInvalid() returns (result: Result<(), StoreError>)
      requires Valid()
      modifies this
      ensures Valid() && (result.Ok? ==> !Load(disk).Invalid?)
      ensures old(faulted) || result.Err? ==> faulted
      ensures disk == if result.Ok? && Load(old(disk)).Invalid? then old(disk).(published := None) else old(disk)
      ensures trace == if disk == old(disk) then old(trace) else old(trace) + [disk]
    {
      if Load(disk).Invalid? {
        var removed := Attempt();
        if !removed {
          return Err(StoreError("cannot remove the snapshot"));
        }
        Write(disk.(published := None));
      }
      return Ok(());
    }

    /** The steps of a publication, for the serialized bytes. */
    method Publish(bytes: Bytes, repositories: seq<Provenance>, generation: nat, sidecarLength: nat)
        returns (result: Result<(), StoreError>, ghost ending: Ending)
      requires Valid() && Guarded(disk) && Unnamed(disk, generation)
      modifies this
      ensures Valid() && old(trace) <= trace && (old(faulted) ==> faulted)
      ensures ending.ok == result.Ok? && ending.generation == generation && ending.faulted == faulted
      ensures SaveEnds(old(disk), disk, bytes, repositories, sidecarLength, ending)
      ensures var catalog := NewCatalog(old(disk), bytes, repositories, ending.reused, generation, sidecarLength);
              forall k | |old(trace)| <= k < |trace| :: Showing(old(disk), trace[k], bytes, catalog, ending.readable)
      ensures ending.leased || (repositories == [] && (!old(disk.lockFile) || faulted))
      ensures forall k | |old(trace)| <= k < |trace| ::
                if ending.leased then trace[k].lockFile else SameLease(old(disk), trace[k])
    {
      ghost var before := disk;
      ghost var reused, leased, readable, complete := false, false, true, true;
      result, reused, leased := Prepare(bytes, repositories, generation, sidecarLength);
      if result.Err? {
        ending := Ending(generation, false, reused, false, leased, true, true, faulted);
        return;
      }
      ghost var committed := repositories != [] && !reused;
      ghost var catalog, prepared := NewCatalog(before, bytes, repositories, reused, generation, sidecarLength), disk;
      result, readable, complete := Replace(bytes, before, catalog);
      ending := Ending(generation, result.Ok?, reused, committed, leased, readable, complete, faulted);
      if result.Err? {
        FailureShows(before, prepared, disk, bytes, catalog, committed);
      }
    }

    /**
     * Publishes a snapshot with its catalog. Every state on the way, and so every state a crash can leave, loads as
     * before or as the new snapshot with its whole catalog. The one exception needs the sidecar to be unreadable
     * during reclamation: then the catalog is dropped, though the snapshot itself stays. While the directory has
     * catalogs to protect, every change is made under the exclusive lease, unless looking for the lock file failed.
     */
    method Save(snapshot: CheckedSnapshot, repositories: seq<Provenance>, generation: nat, length: nat,
                sidecarLength: nat)
        returns (result: Result<(), StoreError>, ghost ending: Ending)
      requires Valid() && Guarded(disk) && Unnamed(disk, generation)
      modifies this
      ensures Valid() && old(trace) <= trace && (old(faulted) ==> faulted)
      ensures ending.ok == result.Ok? && ending.generation == generation && ending.faulted == faulted
      ensures SaveEnds(old(disk), disk, Bytes(DocumentOf(snapshot), length), repositories, sidecarLength, ending)
      ensures var bytes := Bytes(DocumentOf(snapshot), length);
              var catalog := NewCatalog(old(disk), bytes, repositories, ending.reused, generation, sidecarLength);
              forall k | |old(trace)| <= k < |trace| :: Showing(old(disk), trace[k], bytes, catalog, ending.readable)
      ensures forall k | |old(trace)| <= k < |trace| ::
                && Guarded(trace[k])
                && Attempted(old(disk), trace[k], Publishing(snapshot, repositories, length, sidecarLength),
                             ending.readable)
      ensures ending.leased || (repositories == [] && (!old(disk.lockFile) || faulted))
      ensures forall k | |old(trace)| <= k < |trace| ::
                if ending.leased then trace[k].lockFile else SameLease(old(disk), trace[k])
    {
      var document := Serialize(snapshot);
      result, ending := Publish(Bytes(document, length), repositories, generation, sidecarLength);
      forall k | |old(trace)| <= k < |trace|
        ensures Attempted(old(disk), trace[k], Publishing(snapshot, repositories, length, sidecarLength),
                          ending.readable)
      {
        ShownIsAttempted(old(disk), trace[k], Publishing(snapshot, repositories, length, sidecarLength), ending.reused,
                         generation, ending.readable);
      }
    }
  }

  /**
   * How a publication ended: whether it reused the catalog already published or committed a new one, whether it asked
   * for the lease, whether reclamation could open the sidecar and removed everything unused, and whether anything
   * failed.
   */
  datatype Ending = Ending(
    generation: nat,
    ok: bool,
    reused: bool,
    committed: bool,
    leased: bool,
    readable: bool,
    complete: bool,
    faulted: bool)

  /**
   * What a publication leaves behind. A failed one changes what is loaded in one case only: the same bytes were
   * published already, a fault kept that from being noticed, and the new catalog was committed under their name.
   */
  predicate SaveEnds(before: Disk, after: Disk, bytes: Bytes, repositories: seq<Provenance>, sidecarLength: nat,
                     ending: Ending) {
    var catalog := NewCatalog(before, bytes, repositories, ending.reused, ending.generation, sidecarLength);
    && Guarded(after)
    && (ending.reused ==> SameCatalog(LoadProvenance(before, bytes), repositories))
    && (ending.committed ==> repositories != [] && !ending.reused)
    && (if ending.ok
        then Published(after, bytes, catalog, ending)
        else && ending.readable && after.published == before.published
             && Load(after) == (if ending.committed && before.published == Some(bytes) then LoadOf(bytes, catalog)
                                else Load(before)))
    && (ending.ok && ending.readable && ending.complete && repositories != [] ==> OneCatalogLeft(after, bytes))
    && (!ending.faulted ==>
          && ending.readable && ending.complete
          && (ending.ok <==> CanPublish(before, bytes, repositories, ending.generation))
          && (ending.committed ==> before.published != Some(bytes)))
  }

  /** The new bytes are loaded with their catalog; without it only if reclamation could not open the sidecar. */
  predicate Published(after: Disk, bytes: Bytes, catalog: seq<Provenance>, ending: Ending) {
    && after.published == Some(bytes)
    && (Load(after) == LoadOf(bytes, catalog) || (!ending.readable && Load(after) == LoadOf(bytes, [])))
  }

  lemma FailureShows(before: Disk, prepared: Disk, after: Disk, bytes: Bytes, catalog: seq<Provenance>,
                     committed: bool)
    requires Guarded(before) && Guarded(prepared) && prepared.published == before.published
    requires Load(prepared) == Load(before) || before.published == Some(bytes)
    requires LoadProvenance(prepared, bytes) == catalog && Load(after) == Load(prepared)
    requires !committed ==> catalog == LoadProvenance(before, bytes)
    ensures Load(after) == if committed && before.published == Some(bytes) then LoadOf(bytes, catalog)
                           else Load(before)
  {
    GuardedLoads(before);
    GuardedLoads(prepared);
  }

  /** Names the store can retain databases under. */
  predicate Retainable(repositories: seq<Provenance>) {
    && (forall i | 0 <= i < |repositories| :: SafeName(repositories[i].name))
    && (forall i, j | 0 <= i < j < |repositories| :: repositories[i].name != repositories[j].name)
  }

  /**
   * When a publication succeeds if nothing fails: the same bytes are published again only with an equal catalog, and
   * other bytes with any catalog whose databases can be retained.
   */
  predicate CanPublish(disk: Disk, bytes: Bytes, repositories: seq<Provenance>, generation: nat) {
    || repositories == []
    || (if disk.published == Some(bytes) then SameCatalog(LoadProvenance(disk, bytes), repositories)
        else generation !in disk.generations && Retainable(repositories))
  }

  lemma RetainedIsRetainable(files: map<string, string>, repositories: seq<Provenance>)
    requires Retains(files, repositories)
    ensures Retainable(repositories)
  {
    forall i | 0 <= i < |repositories|
      ensures SafeName(repositories[i].name)
    {
      assert RetainsEntry(files, repositories[i]);
    }
  }

  lemma NotRetainable(files: map<string, string>, repositories: seq<Provenance>, i: nat)
    requires i < |repositories| && RetainsOnly(files, repositories[..i])
    requires !SafeName(repositories[i].name) || repositories[i].name in files
    ensures !Retainable(repositories)
  {
    if SafeName(repositories[i].name) {
      assert NameTaken(repositories[..i], repositories[i].name);
      var j :| 0 <= j < i && repositories[..i][j].name == repositories[i].name;
      assert repositories[j].name == repositories[i].name;
    }
  }

  lemma SameCatalogMore(loaded: seq<Provenance>, repositories: seq<Provenance>, i: nat)
    requires i < |loaded| && i < |repositories|
    ensures SameCatalog(loaded[..i + 1], repositories[..i + 1]) <==>
            && SameCatalog(loaded[..i], repositories[..i])
            && loaded[i].name == repositories[i].name && loaded[i].identity == repositories[i].identity
            && loaded[i].digest == repositories[i].digest && loaded[i].timestamp == repositories[i].timestamp
  {
    assert loaded[..i + 1][i] == loaded[i] && repositories[..i + 1][i] == repositories[i];
    assert forall k | 0 <= k < i ::
        loaded[..i + 1][k] == loaded[..i][k] && repositories[..i + 1][k] == repositories[..i][k];
  }

  predicate HasCatalog(disk: Disk, bytes: Bytes) {
    bytes in disk.sidecars && disk.sidecars[bytes].generation in disk.generations
  }

  /** A step that leaves the lock file alone and, without one, creates no catalog. */
  predicate SameLease(before: Disk, disk: Disk) {
    disk.lockFile == before.lockFile && (before.generations == map[] ==> disk.generations == map[])
  }

  predicate Unleased(disk: Disk) {
    !disk.lockFile && disk.generations == map[]
  }

  /** The catalog the new bytes come with: the leftover or reused one, or the one just written. */
  function NewCatalog(before: Disk, bytes: Bytes, repositories: seq<Provenance>, reused: bool, generation: nat,
                      sidecarLength: nat): seq<Provenance> {
    if repositories == [] || reused then LoadProvenance(before, bytes)
    else ReadyCatalog(repositories, generation, sidecarLength)
  }

  /** The directory loads as before, or as the new bytes with their catalog. */
  predicate Showing(before: Disk, disk: Disk, bytes: Bytes, catalog: seq<Provenance>, readable: bool) {
    || Load(disk) == Load(before)
    || Load(disk) == LoadOf(bytes, catalog)
    || (!readable && Load(disk) == LoadOf(bytes, []))
  }

  predicate OneCatalogLeft(disk: Disk, bytes: Bytes) {
    disk.sidecars.Keys == {bytes} && disk.generations.Keys == {disk.sidecars[bytes].generation}
  }

  lemma GuardedLoads(disk: Disk)
    requires Guarded(disk)
    ensures disk.published.Some? ==>
              Load(disk) == LoadOf(disk.published.value, LoadProvenance(disk, disk.published.value))
  {
  }

  lemma SameCatalogs(before: Disk, disk: Disk)
    requires disk == before || disk == before.(lockFile := true)
    requires Guarded(before)
    ensures forall bytes :: LoadProvenance(disk, bytes) == LoadProvenance(before, bytes)
    ensures Load(disk) == Load(before)
  {
  }

  lemma PreparingShows(before: Disk, start: Disk, disk: Disk, bytes: Bytes, repositories: seq<Provenance>,
                       reused: bool, generation: nat, sidecarLength: nat)
    requires Guarded(before) && (start == before || start == before.(lockFile := true))
    requires Unnamed(start, generation) && Preparing(start, disk, bytes, repositories, generation, sidecarLength)
    requires disk == start || (!reused && repositories != [] && start.lockFile)
    ensures Showing(before, disk, bytes,
                    NewCatalog(before, bytes, repositories, reused, generation, sidecarLength), true)
    ensures Load(disk) == Load(before) || before.published == Some(bytes)
    ensures disk.sidecars == start.sidecars ==> Load(disk) == Load(before)
  {
    SameCatalogs(before, start);
    if disk != start && disk.published.Some? {
      GuardedLoads(start);
      GuardedLoads(disk);
      PreparingKeepsCatalogs(start, disk, bytes, repositories, generation, sidecarLength, disk.published.value);
    }
  }

  /** Once the provenance is saved, the bytes have exactly the catalog they are published with. */
  lemma PreparedCatalog(start: Disk, prepared: Disk, bytes: Bytes, repositories: seq<Provenance>, reused: bool,
                        generation: nat, sidecarLength: nat)
    requires repositories == [] || reused ==> prepared == start
    requires repositories != [] && !reused ==>
               CatalogReady(prepared, bytes, repositories, generation, sidecarLength)
    ensures LoadProvenance(prepared, bytes) ==
            NewCatalog(start, bytes, repositories, reused, generation, sidecarLength)
  {
    if repositories != [] && !reused {
      ReadyCatalogLoads(prepared, bytes, repositories, generation, sidecarLength);
    }
  }

  lemma ReplacingShows(before: Disk, prepared: Disk, disk: Disk, bytes: Bytes, catalog: seq<Provenance>)
    requires Guarded(prepared) && Replacing(prepared, disk, bytes)
    requires LoadProvenance(prepared, bytes) == catalog && Showing(before, prepared, bytes, catalog, true)
    ensures Showing(before, disk, bytes, catalog, true)
    ensures disk.published == Some(bytes) ==> Load(disk) == LoadOf(bytes, catalog)
    ensures forall other :: LoadProvenance(disk, other) == LoadProvenance(prepared, other)
  {
    GuardedLoads(disk);
    if disk.published == prepared.published {
      assert Load(disk) == Load(prepared);
    }
  }

  lemma ReclaimingShows(before: Disk, replaced: Disk, disk: Disk, bytes: Bytes, catalog: seq<Provenance>,
                        readable: bool)
    requires Guarded(replaced) && replaced.published == Some(bytes)
    requires LoadProvenance(replaced, bytes) == catalog
    requires Reclaiming(replaced, disk, bytes, CurrentGeneration(replaced, bytes, readable))
    ensures Guarded(disk) && Showing(before, disk, bytes, catalog, readable)
    ensures Load(disk) == LoadOf(bytes, catalog) || (!readable && Load(disk) == LoadOf(bytes, []))
  {
    if disk.generations != map[] {
      var g :| g in disk.generations;
      assert replaced.generations != map[];
    }
    ReclaimingKeepsCatalog(replaced, disk, bytes, readable);
    GuardedLoads(disk);
  }

  /** The directory without this entry, unless the entry is in use. */
  function Without(disk: Disk, entry: Entry, bytes: Bytes, keep: Option<nat>): Disk {
    match entry
    case GenerationEntry(g) => if Some(g) == keep then disk else disk.(generations := disk.generations - {g})
    case SidecarEntry(b) => if b == bytes then disk else disk.(sidecars := disk.sidecars - {b})
  }

  lemma ReclaimingTransitive(start: Disk, mid: Disk, disk: Disk, bytes: Bytes, keep: Option<nat>)
    requires Reclaiming(start, mid, bytes, keep) && Reclaiming(mid, disk, bytes, keep)
    ensures Reclaiming(start, disk, bytes, keep)
  {
  }

  /** The entries of the directory that reclamation looks at. */
  function EntriesOf(disk: Disk): set<Entry> {
    (set g | g in disk.generations :: GenerationEntry(g)) + (set b | b in disk.sidecars :: SidecarEntry(b))
  }

  lemma AllListed(disk: Disk, bytes: Bytes, keep: Option<nat>)
    ensures Swept(disk, disk, bytes, keep, EntriesOf(disk)) && Reclaiming(disk, disk, bytes, keep)
  {
  }

  ghost predicate AllReclaiming(start: Disk, trace: seq<Disk>, from: nat, bytes: Bytes, keep: Option<nat>) {
    forall k | from <= k < |trace| :: Reclaiming(start, trace[k], bytes, keep)
  }

  /** What is removed after a state of the reclamation is part of the reclamation. */
  lemma TraceReclaims(start: Disk, mid: Disk, before: seq<Disk>, trace: seq<Disk>, from: nat, bytes: Bytes,
                      keep: Option<nat>)
    requires from <= |before| && before <= trace && trace != [] && Reclaiming(start, mid, bytes, keep)
    requires AllReclaiming(start, before, from, bytes, keep) && AllReclaiming(mid, trace, |before|, bytes, keep)
    requires Reclaiming(mid, trace[|trace| - 1], bytes, keep)
    ensures AllReclaiming(start, trace, from, bytes, keep)
    ensures Reclaiming(start, trace[|trace| - 1], bytes, keep)
  {
    forall k | from <= k < |trace|
      ensures Reclaiming(start, trace[k], bytes, keep)
    {
      if k < |before| {
        assert trace[k] == before[k];
      } else {
        ReclaimingTransitive(start, mid, trace[k], bytes, keep);
      }
    }
    ReclaimingTransitive(start, mid, trace[|trace| - 1], bytes, keep);
  }

  lemma SweptOneMore(start: Disk, disk: Disk, bytes: Bytes, keep: Option<nat>, entries: set<Entry>, entry: Entry)
    requires Swept(start, disk, bytes, keep, entries)
    ensures Swept(start, Without(disk, entry, bytes, keep), bytes, keep, entries - {entry})
  {
  }

  lemma AllSwept(start: Disk, disk: Disk, bytes: Bytes, readable: bool)
    requires var keep := CurrentGeneration(start, bytes, readable);
             Reclaiming(start, disk, bytes, keep) && Swept(start, disk, bytes, keep, {})
    ensures disk == Reclaimed(start, bytes, readable)
  {
    var after := Reclaimed(start, bytes, readable);
    assert disk.generations == after.generations;
    assert disk.sidecars == after.sidecars;
  }

  lemma ShrinkingReclaims(start: Disk, disk: Disk, generation: nat, bytes: Bytes, keep: Option<nat>)
    requires generation in start.generations && Shrinking(start, disk, generation) && Some(generation) != keep
    ensures Reclaiming(start, disk, bytes, keep)
  {
  }

  lemma ShrunkAway(start: Disk, disk: Disk, generation: nat)
    requires generation in start.generations && Shrinking(start, disk, generation)
    ensures disk.generations - {generation} == start.generations - {generation}
    ensures Shrinking(start, disk.(generations := disk.generations - {generation}), generation)
  {
  }

  lemma FileRemoved(start: Disk, disk: Disk, generation: nat, name: string)
    requires generation in start.generations && generation in disk.generations
    requires Shrinking(start, disk, generation)
    ensures var left := disk.generations[generation] - {name};
            Shrinking(start, disk.(generations := disk.generations[generation := left]), generation)
  {
  }

  /** Only the entries still listed are left of what reclamation removes; what it keeps is unchanged. */
  ghost predicate Swept(start: Disk, disk: Disk, bytes: Bytes, keep: Option<nat>, entries: set<Entry>) {
    && disk.temporaries == start.temporaries
    && (forall g <- disk.generations :: Some(g) == keep || GenerationEntry(g) in entries)
    && (forall b <- disk.sidecars :: b == bytes || SidecarEntry(b) in entries)
  }

  predicate Replacing(before: Disk, disk: Disk, bytes: Bytes) {
    disk == before.(temporaries := disk.temporaries, published := disk.published) &&
    (disk.published == before.published || disk.published == Some(bytes))
  }

  /** Only this generation differs, and it has lost files or is gone. */
  predicate Shrinking(before: Disk, disk: Disk, generation: nat)
    requires generation in before.generations
  {
    && disk == before.(generations := disk.generations)
    && (forall g <- before.generations ::
          g != generation ==> g in disk.generations && disk.generations[g] == before.generations[g])
    && (forall g <- disk.generations :: g in before.generations)
    && (generation in disk.generations ==>
          forall name <- disk.generations[generation] ::
            name in before.generations[generation] &&
            disk.generations[generation][name] == before.generations[generation][name])
  }

  ghost predicate AllShrinking(start: Disk, trace: seq<Disk>, from: nat, generation: nat)
    requires generation in start.generations
  {
    forall k | from <= k < |trace| :: Shrinking(start, trace[k], generation)
  }

  lemma FewerAfterRemoval(files: map<string, string>, name: string)
    requires name in files
    ensures |files - {name}| < |files|
  {
    assert (files - {name}).Keys == files.Keys - {name};
  }

  /** A growing generation that no sidecar names yet is part of the preparation. */
  lemma FillingPrepares(start: Disk, disk: Disk, bytes: Bytes, repositories: seq<Provenance>, generation: nat,
                        sidecarLength: nat)
    requires disk == start || (OnlyGenerationDiffers(start, disk, generation) && generation !in start.generations)
    ensures Preparing(start, disk, bytes, repositories, generation, sidecarLength)
  {
  }

  lemma SidecarPrepares(start: Disk, filled: Disk, disk: Disk, bytes: Bytes, repositories: seq<Provenance>,
                        generation: nat, sidecarLength: nat)
    requires generation !in start.generations && OnlyGenerationDiffers(start, filled, generation)
    requires Retains(filled.generations[generation], repositories)
    requires var sidecar := Sidecar(generation, RowsFor(repositories), sidecarLength);
             disk == filled.(sidecars := filled.sidecars[bytes := sidecar])
    ensures Preparing(start, disk, bytes, repositories, generation, sidecarLength)
    ensures CatalogReady(disk, bytes, repositories, generation, sidecarLength)
  {
  }

  predicate OnlyGenerationDiffers(before: Disk, disk: Disk, generation: nat) {
    generation in disk.generations &&
    disk == before.(generations := before.generations[generation := disk.generations[generation]])
  }

  ghost predicate AllFilling(start: Disk, trace: seq<Disk>, from: nat, generation: nat) {
    forall k | from <= k < |trace| :: OnlyGenerationDiffers(start, trace[k], generation)
  }

  lemma DiffersTransitive(start: Disk, mid: Disk, disk: Disk, generation: nat)
    requires OnlyGenerationDiffers(start, mid, generation) && OnlyGenerationDiffers(mid, disk, generation)
    ensures OnlyGenerationDiffers(start, disk, generation)
  {
  }

  /** Retains these repositories and no other file. */
  predicate RetainsOnly(files: map<string, string>, repositories: seq<Provenance>) {
    Retains(files, repositories) && forall name <- files :: NameTaken(repositories, name)
  }

  lemma OneMoreRetained(files: map<string, string>, more: map<string, string>, before: seq<Provenance>,
                        repository: Provenance)
    requires RetainsOnly(files, before) && RetainsEntry(more, repository) && repository.name !in files
    requires more == files[repository.name := more[repository.name]]
    ensures RetainsOnly(more, before + [repository])
  {
    var all := before + [repository];
    assert all[|before|] == repository && forall i | 0 <= i < |before| :: all[i] == before[i];
    forall name <- more ensures NameTaken(all, name) {
      if name in files {
        var entry :| entry in before && entry.name == name;
        assert entry in all;
      } else {
        assert repository in all;
      }
    }
    forall i | 0 <= i < |before| ensures all[i].name != repository.name {
      assert RetainsEntry(files, before[i]);
    }
  }

  // What readers see over any number of publications

  datatype Attempt = Publishing(
    snapshot: CheckedSnapshot,
    repositories: seq<Provenance>,
    length: nat,
    sidecarLength: nat)

  function BytesOf(attempt: Attempt): Bytes {
    Bytes(DocumentOf(attempt.snapshot), attempt.length)
  }

  /** The writer's row counter is an int. */
  predicate Countable(attempt: Attempt) {
    |attempt.snapshot.snapshot.updates| <= 0x7FFF_FFFF
  }

  /** The reader's limits, which the writer does not check. */
  predicate WithinLimits(attempt: Attempt) {
    && attempt.length <= MAX_SNAPSHOT_BYTES
    && attempt.sidecarLength <= MAX_SIDECAR_BYTES
    && Storable(attempt.snapshot)
    && Readable(attempt.repositories)
  }

  /** The attempt's snapshot, cut to seconds, with its whole catalog. */
  predicate Shows(load: LoadResult, attempt: Attempt) {
    && load.Valid?
    && load.snapshot == Persisted(attempt.snapshot)
    && SameCatalog(load.repositories, attempt.repositories)
  }

  /** A newly retained catalog is shown in full exactly when the attempt is within the reader's limits. */
  lemma NewCatalogShownIff(attempt: Attempt, generation: nat)
    requires Countable(attempt) && attempt.repositories != []
    ensures var catalog := ReadyCatalog(attempt.repositories, generation, attempt.sidecarLength);
            Shows(LoadOf(BytesOf(attempt), catalog), attempt) <==> WithinLimits(attempt)
  {
    RoundTrip(attempt.snapshot);
  }

  /** What `Save` guarantees of any state it passes through, with the sidecar opened again by reclamation or not. */
  ghost predicate Attempted(before: Disk, after: Disk, attempt: Attempt, reopened: bool) {
    exists reused: bool, generation: nat ::
      && (reused ==> SameCatalog(LoadProvenance(before, BytesOf(attempt)), attempt.repositories))
      && Showing(before, after, BytesOf(attempt),
                 NewCatalog(before, BytesOf(attempt), attempt.repositories, reused, generation, attempt.sidecarLength),
                 reopened)
  }

  lemma ShownIsAttempted(before: Disk, after: Disk, attempt: Attempt, reused: bool, generation: nat, reopened: bool)
    requires reused ==> SameCatalog(LoadProvenance(before, BytesOf(attempt)), attempt.repositories)
    requires Showing(before, after, BytesOf(attempt),
                     NewCatalog(before, BytesOf(attempt), attempt.repositories, reused, generation,
                                attempt.sidecarLength), reopened)
    ensures Attempted(before, after, attempt, reopened)
  {
  }

  /**
   * What the bytes of an attempt can be loaded with once it has taken effect: nothing if reclamation could not open the
   * sidecar; a leftover catalog of the same bytes if it brings none; else its own, if that is within the reader's
   * limits or was published already.
   */
  predicate EffectCatalog(before: Disk, attempt: Attempt, catalog: seq<Provenance>, reopened: bool) {
    var earlier := LoadProvenance(before, BytesOf(attempt));
    || (!reopened && catalog == [])
    || (if attempt.repositories == [] then catalog == earlier
        else if Readable(attempt.repositories) && attempt.sidecarLength <= MAX_SIDECAR_BYTES
        then SameCatalog(catalog, attempt.repositories)
        else catalog == [] || (catalog == earlier && SameCatalog(earlier, attempt.repositories)))
  }

  lemma NewCatalogIsEffect(before: Disk, attempt: Attempt, reused: bool, generation: nat, reopened: bool)
    requires reused ==> SameCatalog(LoadProvenance(before, BytesOf(attempt)), attempt.repositories)
    ensures EffectCatalog(before, attempt,
                          NewCatalog(before, BytesOf(attempt), attempt.repositories, reused, generation,
                                     attempt.sidecarLength),
                          reopened)
  {
  }

  ghost predicate Effect(before: Disk, load: LoadResult, attempt: Attempt, reopened: bool) {
    exists catalog ::
      load == LoadOf(BytesOf(attempt), catalog) && EffectCatalog(before, attempt, catalog, reopened)
  }

  /** Stopped anywhere, a publication of any snapshot leaves what was loaded before, or has taken effect. */
  lemma OldOrNew(before: Disk, after: Disk, attempt: Attempt, reopened: bool)
    requires Attempted(before, after, attempt, reopened)
    ensures Load(after) == Load(before) || Effect(before, Load(after), attempt, reopened)
  {
    var bytes := BytesOf(attempt);
    var reused: bool, generation: nat :|
      && (reused ==> SameCatalog(LoadProvenance(before, bytes), attempt.repositories))
      && Showing(before, after, bytes,
                 NewCatalog(before, bytes, attempt.repositories, reused, generation, attempt.sidecarLength), reopened);
    NewCatalogIsEffect(before, attempt, reused, generation, reopened);
    assert !reopened ==> EffectCatalog(before, attempt, [], reopened);
  }

  /** Within the reader's limits, and with the sidecar opened again, the effect is the whole publication. */
  lemma EffectShows(before: Disk, load: LoadResult, attempt: Attempt)
    requires Effect(before, load, attempt, true)
    requires Countable(attempt) && WithinLimits(attempt) && attempt.repositories != []
    ensures Shows(load, attempt)
  {
    RoundTrip(attempt.snapshot);
  }

  /** An attempt that is stopped somewhere, its sidecar opened again by reclamation or not. */
  datatype Stop = Stop(attempt: Attempt, reopened: bool)

  /** A run of attempts, each stopped at some step of its own. */
  ghost predicate Attempts(disks: seq<Disk>, stops: seq<Stop>) {
    && |disks| == |stops| + 1
    && forall i | 0 <= i < |stops| :: Attempted(disks[i], disks[i + 1], stops[i].attempt, stops[i].reopened)
  }

  /** This attempt took effect, and nothing has changed what is loaded since. */
  ghost predicate Stands(disks: seq<Disk>, stops: seq<Stop>, j: nat)
    requires |disks| == |stops| + 1
  {
    && j < |stops|
    && Load(disks[|stops|]) == Load(disks[j + 1])
    && Effect(disks[j], Load(disks[j + 1]), stops[j].attempt, stops[j].reopened)
  }

  /**
   * After any sequence of publications, each of anything and stopped at any step, the directory loads as at the start
   * or as one attempt that took effect, and nothing has changed since that one did.
   */
  lemma {:induction false} LastPublicationStands(disks: seq<Disk>, stops: seq<Stop>)
    requires Attempts(disks, stops)
    ensures Load(disks[|stops|]) == Load(disks[0]) || exists j: nat :: Stands(disks, stops, j)
  {
    if stops != [] {
      var last := |stops| - 1;
      var earlier, before := disks[..|stops|], stops[..last];
      LastPublicationStands(earlier, before);
      OldOrNew(disks[last], disks[last + 1], stops[last].attempt, stops[last].reopened);
      if Load(disks[last + 1]) != Load(disks[last]) {
        assert Stands(disks, stops, last);
      } else if Load(disks[last]) != Load(disks[0]) {
        var j: nat :| Stands(earlier, before, j);
        assert Stands(disks, stops, j);
      }
    }
  }

  /** If every one of them is whole, the directory loads as at the start or shows one with its whole catalog. */
  lemma LastPublicationIsWhole(disks: seq<Disk>, stops: seq<Stop>)
    requires Attempts(disks, stops)
    requires forall stop <- stops ::
               stop.reopened && Countable(stop.attempt) && WithinLimits(stop.attempt) && stop.attempt.repositories != []
    ensures Load(disks[|stops|]) == Load(disks[0]) ||
            exists stop <- stops :: Shows(Load(disks[|stops|]), stop.attempt)
  {
    LastPublicationStands(disks, stops);
    if Load(disks[|stops|]) != Load(disks[0]) {
      var j: nat :| Stands(disks, stops, j);
      assert stops[j] in stops;
      EffectShows(disks[j], Load(disks[j + 1]), stops[j].attempt);
    }
  }

  lemma {:induction false} AboveAll(used: set<nat>) returns (unused: nat)
    ensures forall g <- used :: g < unused
  {
    unused := 0;
    if used != {} {
      var g :| g in used;
      var above := AboveAll(used - {g});
      unused := if g < above then above else g + 1;
      assert forall other <- used :: other == g || other in used - {g};
    }
  }

  lemma SomeUnnamed(disk: Disk)
    ensures exists generation: nat :: Unnamed(disk, generation)
  {
    var used := set bytes | bytes in disk.sidecars :: disk.sidecars[bytes].generation;
    var unused := AboveAll(used);
    forall bytes <- disk.sidecars
      ensures disk.sidecars[bytes].generation != unused
    {
      assert disk.sidecars[bytes].generation in used;
    }
    assert Unnamed(disk, unused);
  }

  lemma OneMoreAttempt(disks: seq<Disk>, stops: seq<Stop>, disk: Disk, stop: Stop)
    requires Attempts(disks, stops) && Attempted(disks[|stops|], disk, stop.attempt, stop.reopened)
    ensures Attempts(disks + [disk], stops + [stop])
  {
    var after, all := disks + [disk], stops + [stop];
    assert after[|stops|] == disks[|stops|] && after[|all|] == disk && all[|stops|] == stop;
    forall i | 0 <= i < |all|
      ensures Attempted(after[i], after[i + 1], all[i].attempt, all[i].reopened)
    {
      if i < |stops| {
        assert after[i] == disks[i] && after[i + 1] == disks[i + 1] && all[i] == stops[i];
      }
    }
  }

  /** Publishes one after the other, each stopped in any of the states it passes through. */
  method PublishAndStop(start: Disk, attempts: seq<Attempt>) returns (disks: seq<Disk>, ghost stops: seq<Stop>)
    requires Guarded(start)
    ensures |stops| == |attempts| && forall i | 0 <= i < |attempts| :: stops[i].attempt == attempts[i]
    ensures Attempts(disks, stops) && disks[0] == start && Guarded(disks[|attempts|])
    ensures Load(disks[|attempts|]) == Load(start) || exists j: nat :: Stands(disks, stops, j)
  {
    disks, stops := [start], [];
    for i := 0 to |attempts|
      invariant |disks| == i + 1 && |stops| == i && disks[0] == start && Guarded(disks[i])
      invariant forall k | 0 <= k < i :: stops[k].attempt == attempts[k]
      invariant Attempts(disks, stops)
    {
      var stopped: Disk;
      ghost var reopened: bool;
      stopped, reopened := StopWithin(disks[i], attempts[i]);
      OneMoreAttempt(disks, stops, stopped, Stop(attempts[i], reopened));
      stops := stops + [Stop(attempts[i], reopened)];
      disks := disks + [stopped];
    }
    LastPublicationStands(disks, stops);
  }

  method StopWithin(disk: Disk, attempt: Attempt) returns (stopped: Disk, ghost reopened: bool)
    requires Guarded(disk)
    ensures Guarded(stopped) && Attempted(disk, stopped, attempt, reopened)
  {
    var store := new SnapshotStore(disk);
    SomeUnnamed(disk);
    var generation: nat :| Unnamed(disk, generation);
    var result;
    ghost var ending;
    result, ending := store.Save(attempt.snapshot, attempt.repositories, generation, attempt.length,
                                 attempt.sidecarLength);
    reopened := ending.readable;
    ShownIsAttempted(disk, disk, attempt, false, generation, reopened);
    var steps: int := *;
    stopped := if 0 <= steps < |store.trace| then store.trace[steps] else store.disk;
  }
}

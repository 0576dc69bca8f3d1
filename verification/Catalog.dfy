/**
 * The directory of the published snapshot: the snapshot file, the provenance sidecars named after the hash of the
 * snapshot's bytes, the catalog generations that retain the repository databases, and the lock file.
 * SHA-256 is injective, so a sidecar is keyed by the bytes it is named after and a digest is the content it hashes.
 */
module Catalog {
  import opened Wrappers
  import opened Domain
  import opened SnapshotJson

  const MAX_SNAPSHOT_BYTES := 8 * 1024 * 1024
  const MAX_SIDECAR_BYTES := 1024 * 1024

  datatype Digest = Sha256(content: string) | Other(text: string)

  datatype Place = Source(path: string) | Retained(generation: nat, name: string)

  type Provenance = RepositoryProvenance<Digest, Place>

  datatype Bytes = Bytes(document: Json, length: nat)

  /** `timestamp` is what SnapshotJson.RepositoryTimestamp reads from the row's two timestamp fields. */
  datatype Row = Row(name: string, identity: string, digest: Digest, priority: int, timestamp: Option<Time>)

  datatype Sidecar = Sidecar(generation: nat, rows: seq<Row>, length: nat)

  datatype Disk = Disk(
    lockFile: bool,
    published: Option<Bytes>,
    sidecars: map<Bytes, Sidecar>,
    generations: map<nat, map<string, string>>,
    temporaries: nat)

  datatype LoadResult = Absent | Invalid | Valid(snapshot: CheckedSnapshot, repositories: seq<Provenance>)

  predicate SafeName(name: string) {
    name != "" && '/' !in name && !HasDots(name)
  }

  predicate HasDots(name: string) {
    exists i | 0 <= i < |name| - 1 :: name[i] == '.' && name[i + 1] == '.'
  }

  // Loading

  function LoadRow(files: map<string, string>, generation: nat, row: Row, priority: nat): Option<Provenance> {
    if SafeName(row.name) && |row.identity| == 64 && row.timestamp.Some? && row.priority == priority &&
       row.name in files && row.digest == Sha256(files[row.name])
    then Some(RepositoryProvenance(row.name, row.identity, row.digest, row.timestamp.value,
                                   Retained(generation, row.name), true))
    else None
  }

  predicate NameTaken(repositories: seq<Provenance>, name: string) {
    exists repository <- repositories :: repository.name == name
  }

  /** All rows, or nothing when any of them fails a check. */
  function LoadRows(files: map<string, string>, generation: nat, rows: seq<Row>)
      : (repositories: Option<seq<Provenance>>)
    ensures repositories.Some? ==> |repositories.value| == |rows|
  {
    if rows == [] then Some([])
    else
      var last := |rows| - 1;
      var before := LoadRows(files, generation, rows[..last]);
      var loaded := LoadRow(files, generation, rows[last], last);
      if before.Some? && loaded.Some? && !NameTaken(before.value, rows[last].name)
      then Some(before.value + [loaded.value])
      else None
  }

  /** The catalog of the given snapshot bytes: empty unless the sidecar and every database it names check out. */
  function LoadProvenance(disk: Disk, bytes: Bytes): seq<Provenance> {
    if bytes in disk.sidecars && disk.sidecars[bytes].length <= MAX_SIDECAR_BYTES &&
       disk.sidecars[bytes].generation in disk.generations
    then
      var sidecar := disk.sidecars[bytes];
      var loaded := LoadRows(disk.generations[sidecar.generation], sidecar.generation, sidecar.rows);
      if loaded.Some? then loaded.value else []
    else []
  }

  /** What a snapshot file with these bytes reads as, next to this catalog. */
  function LoadOf(bytes: Bytes, repositories: seq<Provenance>): LoadResult {
    if bytes.length > MAX_SNAPSHOT_BYTES || SnapshotOf(bytes.document).None? then Invalid
    else Valid(SnapshotOf(bytes.document).value, repositories)
  }

  /** Without a lock file there is no valid lease, and the catalog is not read. */
  function Load(disk: Disk): LoadResult {
    if disk.published.None? then Absent
    else LoadOf(disk.published.value, if disk.lockFile then LoadProvenance(disk, disk.published.value) else [])
  }

  /** The database this entry names is present and has the recorded content. */
  predicate Held(disk: Disk, repository: Provenance) {
    && repository.database.Retained?
    && repository.database.generation in disk.generations
    && repository.database.name in disk.generations[repository.database.generation]
    && repository.digest == Sha256(disk.generations[repository.database.generation][repository.database.name])
  }

  lemma {:induction false} LoadedRowsAreHeld(disk: Disk, generation: nat, rows: seq<Row>)
    requires generation in disk.generations
    requires LoadRows(disk.generations[generation], generation, rows).Some?
    ensures forall repository <- LoadRows(disk.generations[generation], generation, rows).value ::
              Held(disk, repository) && repository.checked
    ensures forall i | 0 <= i < |rows| ::
              var repository := LoadRows(disk.generations[generation], generation, rows).value[i];
              repository.name == rows[i].name && repository.database == Retained(generation, rows[i].name)
  {
    if rows != [] {
      LoadedRowsAreHeld(disk, generation, rows[..|rows| - 1]);
    }
  }

  /** Every database of a loaded catalog is on disk with the digest the catalog records. */
  lemma LoadedIsHeld(disk: Disk, bytes: Bytes)
    ensures forall repository <- LoadProvenance(disk, bytes) :: Held(disk, repository) && repository.checked
  {
    if LoadProvenance(disk, bytes) != [] {
      LoadedRowsAreHeld(disk, disk.sidecars[bytes].generation, disk.sidecars[bytes].rows);
    }
  }

  // Writing a catalog

  function RowFor(repository: Provenance, priority: nat): Row {
    Row(repository.name, repository.identity, repository.digest, priority, TimestampRead(repository.timestamp))
  }

  function RowsFor(repositories: seq<Provenance>): (rows: seq<Row>)
    ensures |rows| == |repositories|
  {
    if repositories == [] then []
    else
      var last := |repositories| - 1;
      RowsFor(repositories[..last]) + [RowFor(repositories[last], last)]
  }

  predicate RetainsEntry(files: map<string, string>, repository: Provenance) {
    SafeName(repository.name) && repository.name in files && repository.digest == Sha256(files[repository.name])
  }

  /** The generation directory holds every repository's database under a usable name of its own. */
  predicate Retains(files: map<string, string>, repositories: seq<Provenance>) {
    && (forall i | 0 <= i < |repositories| :: RetainsEntry(files, repositories[i]))
    && (forall i, j | 0 <= i < j < |repositories| :: repositories[i].name != repositories[j].name)
  }

  /** What the reader demands of an entry beyond what the writer checks. */
  predicate ReadableEntry(repository: Provenance) {
    |repository.identity| == 64 && repository.timestamp >= 0
  }

  function RelocatedEntry(repository: Provenance, generation: nat): Provenance {
    repository.(database := Retained(generation, repository.name), checked := true)
  }

  predicate Readable(repositories: seq<Provenance>) {
    forall i | 0 <= i < |repositories| :: ReadableEntry(repositories[i])
  }

  function Relocated(repositories: seq<Provenance>, generation: nat): (relocated: seq<Provenance>)
    ensures |relocated| == |repositories|
    ensures forall i | 0 <= i < |repositories| :: relocated[i] == RelocatedEntry(repositories[i], generation)
  {
    if repositories == [] then []
    else
      var last := |repositories| - 1;
      Relocated(repositories[..last], generation) + [RelocatedEntry(repositories[last], generation)]
  }

  lemma RowReadsBack(files: map<string, string>, generation: nat, repository: Provenance, priority: nat)
    requires SafeName(repository.name) && repository.name in files
    requires repository.digest == Sha256(files[repository.name])
    ensures LoadRow(files, generation, RowFor(repository, priority), priority) ==
            if ReadableEntry(repository) then Some(RelocatedEntry(repository, generation)) else None
  {
  }

  lemma RelocatedNames(repositories: seq<Provenance>, generation: nat, name: string)
    ensures NameTaken(Relocated(repositories, generation), name) <==>
            exists i | 0 <= i < |repositories| :: repositories[i].name == name
  {
    var moved := Relocated(repositories, generation);
    forall i | 0 <= i < |repositories| && repositories[i].name == name
      ensures NameTaken(moved, name)
    {
      assert moved[i] in moved;
    }
  }

  /** A retained catalog reads back, at its new place, exactly when its entries are readable. */
  lemma {:induction false} RetainedReadsBack(files: map<string, string>, generation: nat,
                                             repositories: seq<Provenance>)
    requires Retains(files, repositories)
    ensures LoadRows(files, generation, RowsFor(repositories)) ==
            if Readable(repositories) then Some(Relocated(repositories, generation)) else None
  {
    if repositories != [] {
      var last := |repositories| - 1;
      var before, repository := repositories[..last], repositories[last];
      RetainedReadsBack(files, generation, before);
      RowReadsBack(files, generation, repository, last);
      RelocatedNames(before, generation, repository.name);
      OneMoreRow(before, repository);
      OneMoreRelocated(before, repository, generation);
      OneMoreReadable(before, repository);
      assert repositories == before + [repository];
      assert RowsFor(repositories)[..last] == RowsFor(before);
    }
  }

  lemma OneMoreRow(before: seq<Provenance>, repository: Provenance)
    ensures RowsFor(before + [repository]) == RowsFor(before) + [RowFor(repository, |before|)]
  {
    assert (before + [repository])[..|before|] == before;
  }

  lemma OneMoreRelocated(before: seq<Provenance>, repository: Provenance, generation: nat)
    ensures Relocated(before + [repository], generation) ==
            Relocated(before, generation) + [RelocatedEntry(repository, generation)]
  {
    assert (before + [repository])[..|before|] == before;
  }

  lemma OneMoreReadable(before: seq<Provenance>, repository: Provenance)
    ensures Readable(before + [repository]) <==> Readable(before) && ReadableEntry(repository)
  {
    var all := before + [repository];
    assert all[|before|] == repository;
    assert forall i | 0 <= i < |before| :: before[i] == all[i];
  }

  /** Reads the rows one by one and gives up at the first that fails a check. */
  method ReadRows(files: map<string, string>, generation: nat, rows: seq<Row>)
      returns (loaded: Option<seq<Provenance>>)
    ensures loaded == LoadRows(files, generation, rows)
  {
    var repositories: seq<Provenance> := [];
    for i := 0 to |rows|
      invariant LoadRows(files, generation, rows[..i]) == Some(repositories)
    {
      assert rows[..i + 1][..i] == rows[..i];
      var repository := LoadRow(files, generation, rows[i], |repositories|);
      if repository.None? || NameTaken(repositories, rows[i].name) {
        UnreadableRow(files, generation, rows, i + 1);
        return None;
      }
      repositories := repositories + [repository.value];
    }
    assert rows[..|rows|] == rows;
    return Some(repositories);
  }

  lemma {:induction false} UnreadableRow(files: map<string, string>, generation: nat, rows: seq<Row>, i: nat)
    requires i <= |rows| && LoadRows(files, generation, rows[..i]).None?
    ensures LoadRows(files, generation, rows).None?
    decreases |rows|
  {
    if i == |rows| {
      assert rows[..i] == rows;
    } else {
      assert rows[..|rows| - 1][..i] == rows[..i];
      UnreadableRow(files, generation, rows[..|rows| - 1], i);
    }
  }

  /** Two catalogs agree on everything but where the databases are kept. */
  predicate SameCatalog(loaded: seq<Provenance>, repositories: seq<Provenance>) {
    && |loaded| == |repositories|
    && forall i | 0 <= i < |loaded| ::
         && loaded[i].name == repositories[i].name
         && loaded[i].identity == repositories[i].identity
         && loaded[i].digest == repositories[i].digest
         && loaded[i].timestamp == repositories[i].timestamp
  }

  /** Losing files never changes a catalog into another one: it reads the same or not at all. */
  lemma {:induction false} FewerFiles(files: map<string, string>, left: map<string, string>, generation: nat,
                                      rows: seq<Row>)
    requires forall name <- left :: name in files && left[name] == files[name]
    ensures LoadRows(left, generation, rows).None? ||
            LoadRows(left, generation, rows) == LoadRows(files, generation, rows)
  {
    if rows != [] {
      FewerFiles(files, left, generation, rows[..|rows| - 1]);
    }
  }
}

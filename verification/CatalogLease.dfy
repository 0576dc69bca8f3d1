/**
 * Readers and the writer of the published catalog, interleaved step by step. A lease is an flock on the lock file:
 * shared for readers, exclusive for the writer. Blocking is a step that is not enabled yet.
 */
module CatalogLease {
  import opened Wrappers
  import opened Catalog
  import Publication

  /** How far a reader has come: it reads the snapshot's bytes first and their catalog later. */
  datatype Progress = Fresh | HasBytes(bytes: Bytes) | HasCatalog(bytes: Bytes, repositories: seq<Provenance>)

  /** `leases` counts the shared leases held: a reader nests a second one when it loads the store. */
  datatype Reader = Reader(leases: nat, progress: Progress)

  datatype Writer = Idle | Waiting | Publishing(leased: bool)

  datatype World = World(disk: Disk, writer: Writer, readers: map<nat, Reader>)

  /** Without repositories to publish the writer skips the lock file it does not find: `looked` tells a true absence. */
  datatype Step =
    | WriterOpensLock
    | WriterSkipsLock(looked: bool)
    | WriterLocks
    | WriterMoves(next: Disk)
    | WriterStops
    | WriterDiscards
    | ReaderLeases(reader: nat)
    | ReaderReadsBytes(reader: nat)
    | ReaderReadsCatalog(reader: nat)
    | ReaderReleases(reader: nat)

  /** The lock file stays, and without one there are no catalogs and no lease. */
  predicate WriterMove(disk: Disk, next: Disk, leased: bool) {
    if disk.lockFile then next.lockFile
    else !leased && Publication.Unleased(disk) && Publication.Unleased(next)
  }

  /** Every change `Publication.SnapshotStore.Save` makes to a directory has this form. */
  lemma SaveMoves(before: Disk, disk: Disk, next: Disk, leased: bool)
    requires Publication.Guarded(before)
    requires if leased then disk.lockFile && next.lockFile
             else Publication.SameLease(before, disk) && Publication.SameLease(before, next)
    ensures WriterMove(disk, next, leased)
  {
  }

  predicate Leased(world: World, reader: nat) {
    reader in world.readers && world.readers[reader].leases > 0
  }

  predicate Enabled(world: World, step: Step) {
    match step
    case WriterOpensLock => world.writer.Idle?
    case WriterSkipsLock(looked) => world.writer.Idle? && (looked ==> !world.disk.lockFile)
    case WriterLocks => world.writer.Waiting? && forall r <- world.readers :: world.readers[r].leases == 0
    case WriterMoves(next) => world.writer.Publishing? && WriterMove(world.disk, next, world.writer.leased)
    case WriterStops => true // done, failed or crashed
    case WriterDiscards => world.writer.Idle? && Load(world.disk).Invalid?
    case ReaderLeases(r) => r in world.readers && world.disk.lockFile && world.writer != Publishing(true)
    case ReaderReadsBytes(r) => Leased(world, r) && world.disk.published.Some?
    case ReaderReadsCatalog(r) => Leased(world, r) && world.readers[r].progress.HasBytes?
    case ReaderReleases(r) => Leased(world, r)
  }

  function Next(world: World, step: Step): World
    requires Enabled(world, step)
  {
    match step
    case WriterOpensLock => world.(disk := world.disk.(lockFile := true), writer := Waiting)
    case WriterSkipsLock(_) => world.(writer := Publishing(false))
    case WriterLocks => world.(writer := Publishing(true))
    case WriterMoves(next) => world.(disk := next)
    case WriterStops => world.(writer := Idle)
    case WriterDiscards => world.(disk := world.disk.(published := None))
    case ReaderLeases(r) => Update(world, r, world.readers[r].(leases := world.readers[r].leases + 1))
    case ReaderReadsBytes(r) => Update(world, r, world.readers[r].(progress := HasBytes(world.disk.published.value)))
    case ReaderReadsCatalog(r) =>
      var bytes := world.readers[r].progress.bytes;
      Update(world, r, world.readers[r].(progress := HasCatalog(bytes, LoadProvenance(world.disk, bytes))))
    case ReaderReleases(r) =>
      var left := world.readers[r].leases - 1;
      Update(world, r, Reader(left, if left == 0 then Fresh else world.readers[r].progress))
  }

  function Update(world: World, reader: nat, state: Reader): World {
    world.(readers := world.readers[reader := state])
  }

  predicate Inv(world: World) {
    && Publication.Guarded(world.disk)
    && (world.writer == Waiting || world.writer == Publishing(true) ==> world.disk.lockFile)
    && (world.writer == Publishing(true) ==> forall r <- world.readers :: world.readers[r].leases == 0)
    && (world.writer == Publishing(false) ==> Publication.Unleased(world.disk))
    && (forall r <- world.readers :: ReaderInv(world.disk, world.readers[r]))
  }

  /** What a leaseholder has read is still what the directory holds. */
  predicate ReaderInv(disk: Disk, reader: Reader) {
    && (reader.leases > 0 ==> disk.lockFile)
    && (reader.leases == 0 ==> reader.progress.Fresh?)
    && (reader.progress.HasCatalog? ==>
          reader.progress.repositories == LoadProvenance(disk, reader.progress.bytes))
  }

  /** All readers idle, and catalogs only behind a lock file. */
  predicate Initial(world: World) {
    && Publication.Guarded(world.disk)
    && world.writer == Idle
    && forall r <- world.readers :: world.readers[r] == Reader(0, Fresh)
  }

  /** Looking for the lock file does not fail. */
  predicate Sighted(step: Step) {
    step.WriterSkipsLock? ==> step.looked
  }

  lemma InvStep(world: World, step: Step)
    requires Inv(world) && Enabled(world, step) && Sighted(step)
    ensures Inv(Next(world, step))
  {
    var next := Next(world, step);
    if step.WriterMoves? {
      forall r <- next.readers ensures ReaderInv(next.disk, next.readers[r]) {
        assert world.readers[r].leases == 0 by {
          if !world.writer.leased {
            assert ReaderInv(world.disk, world.readers[r]);
          }
        }
        assert ReaderInv(world.disk, world.readers[r]);
      }
    } else {
      forall r <- next.readers ensures ReaderInv(next.disk, next.readers[r]) {
        assert ReaderInv(world.disk, world.readers[r]);
      }
    }
  }

  /** The worlds passed through by a run of enabled steps. */
  predicate Run(worlds: seq<World>, steps: seq<Step>) {
    && |worlds| == |steps| + 1
    && Initial(worlds[0])
    && forall i | 0 <= i < |steps| :: Enabled(worlds[i], steps[i]) && worlds[i + 1] == Next(worlds[i], steps[i])
  }

  /** Up to here, looking for the lock file has not failed. */
  predicate AllSighted(steps: seq<Step>, i: nat)
    requires i <= |steps|
  {
    forall k | 0 <= k < i :: Sighted(steps[k])
  }

  lemma {:induction false} RunInv(worlds: seq<World>, steps: seq<Step>, i: nat)
    requires Run(worlds, steps) && i <= |steps| && AllSighted(steps, i)
    ensures Inv(worlds[i])
  {
    if i > 0 {
      RunInv(worlds, steps, i - 1);
      InvStep(worlds[i - 1], steps[i - 1]);
    }
  }

  /**
   * In every interleaving in which looking for the lock file does not fail, while a reader holds a lease, every
   * database its catalog names is present with the recorded digest, and the catalog is still the one the bytes it
   * read stand for. FailedLookBreaksLease says what such a failure can do.
   */
  lemma LeasedCatalogHeld(worlds: seq<World>, steps: seq<Step>, i: nat, reader: nat)
    requires Run(worlds, steps) && i <= |steps| && AllSighted(steps, i)
    requires Leased(worlds[i], reader) && worlds[i].readers[reader].progress.HasCatalog?
    ensures var progress := worlds[i].readers[reader].progress;
            && progress.repositories == LoadProvenance(worlds[i].disk, progress.bytes)
            && forall repository <- progress.repositories :: Held(worlds[i].disk, repository)
  {
    RunInv(worlds, steps, i);
    assert ReaderInv(worlds[i].disk, worlds[i].readers[reader]);
    LoadedIsHeld(worlds[i].disk, worlds[i].readers[reader].progress.bytes);
  }

  /** No step taken while a lease is held touches a sidecar or a catalog generation. */
  lemma LeaseFreezesCatalogs(worlds: seq<World>, steps: seq<Step>, i: nat, reader: nat)
    requires Run(worlds, steps) && i < |steps| && AllSighted(steps, i)
    requires Leased(worlds[i], reader)
    ensures worlds[i + 1].disk.generations == worlds[i].disk.generations
    ensures worlds[i + 1].disk.sidecars == worlds[i].disk.sidecars
  {
    RunInv(worlds, steps, i);
    assert ReaderInv(worlds[i].disk, worlds[i].readers[reader]);
  }

  /** A reader that holds a lease can always take another one, even while the writer waits. */
  lemma NestedLeaseGranted(worlds: seq<World>, steps: seq<Step>, i: nat, reader: nat)
    requires Run(worlds, steps) && i <= |steps| && AllSighted(steps, i)
    requires Leased(worlds[i], reader)
    ensures Enabled(worlds[i], ReaderLeases(reader))
  {
    RunInv(worlds, steps, i);
    assert ReaderInv(worlds[i].disk, worlds[i].readers[reader]);
  }

  /** A publication without a lease starts, and stays, in a directory without catalogs and without leases. */
  lemma UnleasedPublicationIsAlone(worlds: seq<World>, steps: seq<Step>, i: nat)
    requires Run(worlds, steps) && i <= |steps| && AllSighted(steps, i)
    requires worlds[i].writer == Publishing(false)
    ensures worlds[i].disk.generations == map[]
    ensures forall r <- worlds[i].readers :: worlds[i].readers[r].leases == 0
  {
    RunInv(worlds, steps, i);
    forall r <- worlds[i].readers ensures worlds[i].readers[r].leases == 0 {
      assert ReaderInv(worlds[i].disk, worlds[i].readers[r]);
    }
  }

  /** What a publication of these bytes without repositories leaves, where they have no sidecar yet. */
  function Replaced(disk: Disk, bytes: Bytes): Disk {
    Publication.Reclaimed(disk.(published := Some(bytes)), bytes, true)
  }

  /**
   * While a lease is held a publication can start without one exactly if looking for the lock file fails; and then
   * publishing other bytes takes every database away from the leaseholder.
   */
  lemma FailedLookBreaksLease(worlds: seq<World>, steps: seq<Step>, i: nat, reader: nat, looked: bool, other: Bytes)
    requires Run(worlds, steps) && i <= |steps| && AllSighted(steps, i)
    requires worlds[i].writer.Idle? && Leased(worlds[i], reader)
    requires worlds[i].readers[reader].progress.HasCatalog? && other !in worlds[i].disk.sidecars
    ensures Enabled(worlds[i], WriterSkipsLock(looked)) <==> !looked
    ensures var started, move := Next(worlds[i], WriterSkipsLock(false)), WriterMoves(Replaced(worlds[i].disk, other));
            && Enabled(started, move)
            && Leased(Next(started, move), reader)
            && forall entry <- worlds[i].readers[reader].progress.repositories ::
                 Held(worlds[i].disk, entry) && !Held(Next(started, move).disk, entry)
  {
    RunInv(worlds, steps, i);
    assert ReaderInv(worlds[i].disk, worlds[i].readers[reader]);
    LoadedIsHeld(worlds[i].disk, worlds[i].readers[reader].progress.bytes);
    assert Replaced(worlds[i].disk, other).generations == map[];
  }
}

/** Removing a directory tree without ever following a symbolic link. */
module ScratchRemoval {
  type Ino = nat

  /** A directory names inodes; a symbolic link only holds a path. */
  datatype Inode =
    | Regular(content: string)
    | Symlink(target: string)
    | Directory(owned: bool, accessible: bool, entries: map<string, Ino>)

  type Inodes = map<Ino, Inode>

  /** Directory entries name existing inodes, and directories are nested without cycles. */
  ghost predicate Nested(inodes: Inodes, rank: map<Ino, nat>) {
    forall ino <- inodes :: ino in rank &&
      (inodes[ino].Directory? ==> forall name <- inodes[ino].entries :: NestedEntry(inodes, rank, ino, name))
  }

  ghost predicate NestedEntry(inodes: Inodes, rank: map<Ino, nat>, ino: Ino, name: string)
    requires ino in inodes && inodes[ino].Directory? && name in inodes[ino].entries && ino in rank
  {
    var child := inodes[ino].entries[name];
    child in inodes && child in rank && (inodes[child].Directory? ==> rank[child] < rank[ino])
  }

  /** A set of inodes that no directory entry leads out of; symbolic links may point anywhere. */
  ghost predicate Closed(inodes: Inodes, inside: set<Ino>) {
    forall ino <- inodes | ino in inside && inodes[ino].Directory? ::
      forall name <- inodes[ino].entries :: inodes[ino].entries[name] in inside
  }

  ghost predicate FewerEntries(before: Inode, after: Inode) {
    if before.Directory? then
      after.Directory? && after.owned == before.owned &&
      forall name <- after.entries :: name in before.entries && after.entries[name] == before.entries[name]
    else after == before
  }

  /** Only inodes of this set and of lower rank have changed, and directories have only lost entries. */
  ghost predicate Changed(before: Inodes, after: Inodes, inside: set<Ino>, rank: map<Ino, nat>, below: nat) {
    && after.Keys == before.Keys
    && forall ino <- before ::
         && FewerEntries(before[ino], after[ino])
         && (after[ino] == before[ino] || (ino in inside && ino in rank && rank[ino] < below))
  }

  /** The directory has at most lost this entry; nothing else of its rank or higher has changed. */
  ghost predicate EntryRemoved(before: Inodes, after: Inodes, parent: Ino, name: string, inside: set<Ino>,
                               rank: map<Ino, nat>)
    requires parent in before && before[parent].Directory? && parent in rank
  {
    && parent in after
    && (after[parent] == before[parent] ||
        after[parent] == before[parent].(entries := before[parent].entries - {name}))
    && Changed(before, after[parent := before[parent]], inside, rank, rank[parent])
  }

  class FileSystem {
    var inodes: Inodes
    /** An operation has been refused. */
    ghost var refused: bool

    constructor (inodes: Inodes)
      ensures this.inodes == inodes && !refused
    {
      this.inodes := inodes;
      refused := false;
    }

    /** Removes a name; a directory must be empty. */
    method Unlink(parent: Ino, name: string)
      requires parent in inodes && inodes[parent].Directory?
      requires name in inodes[parent].entries && inodes[parent].entries[name] in inodes
      modifies this
      ensures inodes == old(inodes) || inodes == old(inodes)[parent := old(inodes[parent]).(
                                                   entries := old(inodes[parent]).entries - {name})]
      ensures old(refused) ==> refused
      ensures var child := old(inodes[inodes[parent].entries[name]]);
              !refused && (child.Directory? ==> child.entries == map[]) ==> name !in inodes[parent].entries
    {
      var allowed: bool := *;
      var child := inodes[inodes[parent].entries[name]];
      if !allowed {
        refused := true;
      } else if child.Directory? ==> child.entries == map[] {
        inodes := inodes[parent := inodes[parent].(entries := inodes[parent].entries - {name})];
      }
    }

    /** Removes one entry, whatever it is. A directory is emptied first; a link or a file only loses this name. */
    method RemoveEntry(parent: Ino, name: string, ghost inside: set<Ino>, ghost rank: map<Ino, nat>)
      requires Nested(inodes, rank) && parent in inodes && inodes[parent].Directory?
      requires Closed(inodes, inside) && (name in inodes[parent].entries ==> inodes[parent].entries[name] in inside)
      modifies this
      ensures EntryRemoved(old(inodes), inodes, parent, name, inside, rank)
      ensures old(refused) ==> refused
      ensures !refused ==> name !in inodes[parent].entries
      decreases rank[parent], 0
    {
      Unmoved(inodes, parent, name, inside, rank);
      if name !in inodes[parent].entries {
        return;
      }
      var child := inodes[parent].entries[name];
      assert NestedEntry(inodes, rank, parent, name);
      if inodes[child].Directory? {
        var allowed: bool := *;
        if allowed {
          Open(child, inside, rank);
          RemoveDirectoryContents(child, inside, rank);
        } else {
          refused := true;
        }
      }
      label Emptied:
      assert Changed(old(inodes), inodes, inside, rank, rank[parent]);
      Unlink(parent, name);
      Unlinked(old(inodes), old@Emptied(inodes), inodes, parent, name, inside, rank);
    }

    /** Makes an owned directory accessible. */
    method Open(directory: Ino, ghost inside: set<Ino>, ghost rank: map<Ino, nat>)
      requires Nested(inodes, rank) && Closed(inodes, inside)
      requires directory in inodes && inodes[directory].Directory? && directory in inside
      modifies this`inodes
      ensures Changed(old(inodes), inodes, inside, rank, rank[directory] + 1)
      ensures Nested(inodes, rank) && Closed(inodes, inside)
    {
      if inodes[directory].owned {
        inodes := inodes[directory := inodes[directory].(accessible := true)];
      }
      ChangeKeepsNested(old(inodes), inodes, inside, rank, rank[directory] + 1);
    }

    /** Removes every entry of a directory, as listed at the start. */
    method RemoveDirectoryContents(directory: Ino, ghost inside: set<Ino>, ghost rank: map<Ino, nat>)
      requires Nested(inodes, rank) && directory in inodes && inodes[directory].Directory?
      requires Closed(inodes, inside) && directory in inside
      modifies this
      ensures Changed(old(inodes), inodes, inside, rank, rank[directory] + 1)
      ensures old(refused) ==> refused
      ensures !refused ==> inodes[directory].entries == map[]
      decreases rank[directory], 1
    {
      var names := inodes[directory].entries.Keys;
      while names != {}
        invariant Changed(old(inodes), inodes, inside, rank, rank[directory] + 1)
        invariant old(refused) ==> refused
        invariant !refused ==> inodes[directory].entries.Keys <= names
        decreases names
      {
        ghost var before := inodes;
        ChangeKeepsNested(old(inodes), before, inside, rank, rank[directory] + 1);
        var name :| name in names;
        RemoveEntry(directory, name, inside, rank);
        RemovedIsChange(before, inodes, directory, name, inside, rank);
        ChangedTwice(old(inodes), before, inodes, inside, rank, rank[directory] + 1);
        names := names - {name};
      }
    }
  }

  lemma Unmoved(inodes: Inodes, parent: Ino, name: string, inside: set<Ino>, rank: map<Ino, nat>)
    requires Nested(inodes, rank) && parent in inodes && inodes[parent].Directory?
    ensures EntryRemoved(inodes, inodes, parent, name, inside, rank)
    ensures Changed(inodes, inodes, inside, rank, rank[parent])
  {
    assert inodes[parent := inodes[parent]] == inodes;
  }

  lemma ChangedTwice(before: Inodes, middle: Inodes, after: Inodes, inside: set<Ino>, rank: map<Ino, nat>, below: nat)
    requires Changed(before, middle, inside, rank, below) && Changed(middle, after, inside, rank, below)
    ensures Changed(before, after, inside, rank, below)
  {
    forall ino <- before
      ensures FewerEntries(before[ino], after[ino])
    {
      assert FewerEntries(before[ino], middle[ino]) && FewerEntries(middle[ino], after[ino]);
    }
  }

  lemma RemovedIsChange(before: Inodes, after: Inodes, directory: Ino, name: string, inside: set<Ino>,
                        rank: map<Ino, nat>)
    requires directory in before && before[directory].Directory? && directory in rank && directory in inside
    requires EntryRemoved(before, after, directory, name, inside, rank)
    ensures Changed(before, after, inside, rank, rank[directory] + 1)
  {
    var others := after[directory := before[directory]];
    forall ino <- before
      ensures FewerEntries(before[ino], after[ino])
    {
      assert FewerEntries(before[ino], others[ino]);
    }
    assert forall ino <- before | ino != directory :: after[ino] == others[ino];
  }

  lemma Unlinked(before: Inodes, emptied: Inodes, after: Inodes, parent: Ino, name: string, inside: set<Ino>,
                 rank: map<Ino, nat>)
    requires parent in before && before[parent].Directory? && parent in rank
    requires Changed(before, emptied, inside, rank, rank[parent])
    requires after == emptied ||
             after == emptied[parent := before[parent].(entries := before[parent].entries - {name})]
    ensures EntryRemoved(before, after, parent, name, inside, rank)
  {
    assert emptied[parent] == before[parent];
    assert after[parent := before[parent]] == emptied;
  }

  lemma ChangeKeepsNested(before: Inodes, after: Inodes, inside: set<Ino>, rank: map<Ino, nat>, below: nat)
    requires Nested(before, rank) && Closed(before, inside) && Changed(before, after, inside, rank, below)
    ensures Nested(after, rank) && Closed(after, inside)
  {
    forall ino <- after, name: string | after[ino].Directory? && name in after[ino].entries
      ensures ino in rank && NestedEntry(after, rank, ino, name)
      ensures ino in inside ==> after[ino].entries[name] in inside
    {
      assert FewerEntries(before[ino], after[ino]);
      assert NestedEntry(before, rank, ino, name);
      var child := after[ino].entries[name];
      assert FewerEntries(before[child], after[child]);
    }
  }

  // What is reachable only through a symbolic link

  /** Inodes reached from one of these by directory entries alone. */
  ghost predicate ClosedAround(inodes: Inodes, start: Ino, inside: set<Ino>) {
    start in inside && Closed(inodes, inside)
  }

  /**
   * Removal leaves everything alone that directory entries do not lead to from the removed entry, whatever symbolic
   * links in the removed tree point to.
   */
  method RemoveTreeWithoutFollowingLinks(files: FileSystem, parent: Ino, name: string, ghost rank: map<Ino, nat>,
                                         ghost kept: Ino)
    requires Nested(files.inodes, rank) && parent in files.inodes && files.inodes[parent].Directory?
    requires kept in files.inodes && kept != parent
    requires name in files.inodes[parent].entries ==>
               exists inside: set<Ino> ::
                 ClosedAround(files.inodes, files.inodes[parent].entries[name], inside) && kept !in inside
    modifies files
    ensures kept in files.inodes && files.inodes[kept] == old(files.inodes[kept])
    ensures parent in files.inodes && files.inodes[parent].Directory?
    ensures !files.refused ==> name !in files.inodes[parent].entries
  {
    ghost var inside: set<Ino> := {};
    if name in files.inodes[parent].entries {
      inside :| ClosedAround(files.inodes, files.inodes[parent].entries[name], inside) && kept !in inside;
    }
    files.RemoveEntry(parent, name, inside, rank);
    assert files.inodes[parent := old(files.inodes[parent])][kept] == files.inodes[kept];
  }
}

/**
 * The scratch directory of the checks. Any number of checks, abandoned workers and sweeps run at once; each goes
 * through its steps in its own time and may crash between any two of them. A process acts on its own phase alone:
 * nothing but the lock keeps them apart.
 */
module ScratchProtocol {
  import opened ByteStrings

  type Process = nat

  type Run = string

  /** A modification time, in seconds and nanoseconds. */
  datatype Stamp = Stamp(seconds: int, nanos: int)

  datatype Phase =
    | Idle
    | Sweeping(todo: set<Run>)
    | Swept
    | Running(run: Run)
    | Guarding(run: Run, todo: set<Run>)

  /** `messy` records a crash, or a removal that failed, since the last sweep began. */
  datatype State = State(lock: set<Process>, phases: map<Process, Phase>, runs: map<Run, Stamp>, messy: bool)

  function PhaseOf(s: State, p: Process): Phase {
    if p in s.phases then s.phases[p] else Idle
  }

  // The newest run directory

  predicate Newer(left: Run, leftStamp: Stamp, right: Run, rightStamp: Stamp) {
    if leftStamp.seconds != rightStamp.seconds then leftStamp.seconds > rightStamp.seconds
    else if leftStamp.nanos != rightStamp.nanos then leftStamp.nanos > rightStamp.nanos
    else BytesBefore(right, left)
  }

  predicate IsNewest(runs: map<Run, Stamp>, newest: Run) {
    newest in runs && forall other <- runs | other != newest :: Newer(newest, runs[newest], other, runs[other])
  }

  /** There is exactly one newest run directory, in whatever order they are listed. */
  lemma {:induction false} NewestExists(runs: map<Run, Stamp>) returns (newest: Run)
    requires runs != map[]
    ensures IsNewest(runs, newest)
    ensures forall other :: IsNewest(runs, other) ==> other == newest
    decreases |runs|
  {
    var run :| run in runs;
    var others := runs - {run};
    newest := run;
    assert runs.Keys == others.Keys + {run};
    if others != map[] {
      var best := NewestExists(others);
      NewerIsOrder(run, runs[run], best, runs[best], best, runs[best]);
      if Newer(best, runs[best], run, runs[run]) {
        newest := best;
      } else {
        forall other <- runs | other != run
          ensures Newer(run, runs[run], other, runs[other])
        {
          NewerIsOrder(run, runs[run], best, runs[best], other, runs[other]);
        }
      }
    }
    assert IsNewest(runs, newest) by {
      assert forall other <- runs | other != run :: other in others && others[other] == runs[other];
    }
    forall other | IsNewest(runs, other)
      ensures other == newest
    {
      NewerIsOrder(other, runs[other], newest, runs[newest], other, runs[other]);
    }
  }

  lemma NewerIsOrder(a: Run, aStamp: Stamp, b: Run, bStamp: Stamp, c: Run, cStamp: Stamp)
    ensures a != b ==> (Newer(a, aStamp, b, bStamp) <==> !Newer(b, bStamp, a, aStamp))
    ensures Newer(a, aStamp, b, bStamp) && Newer(b, bStamp, c, cStamp) ==> Newer(a, aStamp, c, cStamp)
  {
    BytesAreOrdered(a, b, c);
    BytesAreOrdered(c, b, a);
  }

  // Steps

  datatype Event =
    | Acquires(process: Process, newest: Run)
    | SweepsOne(process: Process, run: Run, removed: bool)
    | EndsSweep(process: Process)
    | Creates(process: Process, run: Run, stamp: Stamp)
    | Writes(process: Process, stamp: Stamp)
    | StartsGuard(process: Process)
    | GuardsOne(process: Process, run: Run, removed: bool)
    | Releases(process: Process)
    | Crashes(process: Process)

  /**
   * When a process can take a step. Taking the lock succeeds only while no other process holds it; a process whose
   * sweep is done may release at once, as after a failed precondition, or go on to a run.
   */
  predicate Possible(s: State, event: Event) {
    match event
    case Acquires(p, newest) =>
      PhaseOf(s, p).Idle? && s.lock == {} && (s.runs != map[] ==> IsNewest(s.runs, newest))
    case SweepsOne(p, run, _) => PhaseOf(s, p).Sweeping? && run in PhaseOf(s, p).todo
    case EndsSweep(p) => PhaseOf(s, p) == Sweeping({})
    case Creates(p, run, _) => PhaseOf(s, p).Swept? && run !in s.runs
    case Writes(p, _) => PhaseOf(s, p).Running? && PhaseOf(s, p).run in s.runs
    case StartsGuard(p) => PhaseOf(s, p).Running?
    case GuardsOne(p, run, _) => PhaseOf(s, p).Guarding? && run in PhaseOf(s, p).todo
    case Releases(p) => PhaseOf(s, p).Swept? || (PhaseOf(s, p).Guarding? && PhaseOf(s, p).todo == {})
    case Crashes(p) => !PhaseOf(s, p).Idle?
  }

  function Enter(s: State, p: Process, phase: Phase): State {
    s.(phases := s.phases[p := phase])
  }

  /** Removal of a directory may fail, and then it stays. */
  function Remove(s: State, run: Run, removed: bool): State {
    if removed then s.(runs := s.runs - {run}) else s.(messy := true)
  }

  /** An event that cannot occur changes nothing. */
  function Step(s: State, event: Event): State {
    if !Possible(s, event) then s
    else
      match event
      case Acquires(p, newest) =>
        Enter(s, p, Sweeping(s.runs.Keys - {newest})).(lock := {p}, messy := false)
      case SweepsOne(p, run, removed) => Enter(Remove(s, run, removed), p, Sweeping(PhaseOf(s, p).todo - {run}))
      case EndsSweep(p) => Enter(s, p, Swept)
      case Creates(p, run, stamp) => Enter(s, p, Running(run)).(runs := s.runs[run := stamp])
      case Writes(p, stamp) => s.(runs := s.runs[PhaseOf(s, p).run := stamp])
      case StartsGuard(p) => Enter(s, p, Guarding(PhaseOf(s, p).run, s.runs.Keys - {PhaseOf(s, p).run}))
      case GuardsOne(p, run, removed) =>
        Enter(Remove(s, run, removed), p, Guarding(PhaseOf(s, p).run, PhaseOf(s, p).todo - {run}))
      case Releases(p) => Enter(s, p, Idle).(lock := s.lock - {p})
      case Crashes(p) => Enter(s, p, Idle).(lock := s.lock - {p}, messy := true)
  }

  function After(s: State, events: seq<Event>): State
    decreases events
  {
    if events == [] then s else After(Step(s, events[0]), events[1..])
  }

  // What every run keeps

  predicate HasRun(phase: Phase) {
    phase.Running? || phase.Guarding?
  }

  /** Only a lock holder is past the lock, and its own run directory is there. */
  predicate Exclusive(s: State) {
    && (forall p, q | p in s.lock && q in s.lock :: p == q)
    && (forall p <- s.phases | !s.phases[p].Idle? :: p in s.lock)
    && (forall p <- s.phases | HasRun(s.phases[p]) :: s.phases[p].run in s.runs)
    && (forall p <- s.phases | s.phases[p].Guarding? :: s.phases[p].run !in s.phases[p].todo)
    && (forall p <- s.lock :: p in s.phases && !s.phases[p].Idle?)
  }

  predicate AtMostOne(runs: set<Run>) {
    forall a, b | a in runs && b in runs :: a == b
  }

  /** Without a mess, what is in the directory is accounted for by the lock holder's phase. */
  predicate Tidy(s: State) {
    !s.messy ==>
      && (s.lock == {} ==> AtMostOne(s.runs.Keys))
      && forall p <- s.phases ::
           match s.phases[p]
           case Sweeping(todo) => AtMostOne(s.runs.Keys - todo)
           case Swept => AtMostOne(s.runs.Keys)
           case Guarding(run, todo) => s.runs.Keys <= todo + {run}
           case _ => true
  }

  predicate Inv(s: State) {
    Exclusive(s) && Tidy(s)
  }

  lemma StepInv(s: State, event: Event)
    requires Inv(s)
    ensures Inv(Step(s, event))
  {
    StepExclusive(s, event);
    StepTidy(s, event);
  }

  lemma StepExclusive(s: State, event: Event)
    requires Inv(s)
    ensures Exclusive(Step(s, event))
  {
  }

  lemma StepTidy(s: State, event: Event)
    requires Inv(s)
    ensures Tidy(Step(s, event))
  {
    if Possible(s, event) {
      match event
      case Acquires(p, newest) =>
      case SweepsOne(p, run, removed) =>
        var todo := PhaseOf(s, p).todo;
        assert (s.runs - {run}).Keys - (todo - {run}) == s.runs.Keys - todo;
      case EndsSweep(p) => assert s.runs.Keys - {} == s.runs.Keys;
      case Creates(p, run, stamp) =>
      case Writes(p, stamp) =>
      case StartsGuard(p) =>
      case GuardsOne(p, run, removed) =>
      case Releases(p) =>
      case Crashes(p) =>
    }
  }

  lemma {:induction false} RunInv(s: State, events: seq<Event>)
    requires Inv(s)
    ensures Inv(After(s, events))
    decreases events
  {
    if events != [] {
      StepInv(s, events[0]);
      RunInv(Step(s, events[0]), events[1..]);
    }
  }

  /** No process has begun; whatever runs left behind is there. */
  function Initial(runs: map<Run, Stamp>): State {
    State({}, map[], runs, true)
  }

  /** However the processes interleave and crash, the run directory of a check in progress is there. */
  lemma LiveRunIsKept(runs: map<Run, Stamp>, events: seq<Event>)
    ensures var s := After(Initial(runs), events);
            forall p <- s.phases | HasRun(s.phases[p]) :: s.phases[p].run in s.runs
  {
    RunInv(Initial(runs), events);
  }

  /** At most one process is past the lock at any time. */
  lemma OneCheckAtATime(runs: map<Run, Stamp>, events: seq<Event>, p: Process, q: Process)
    ensures var s := After(Initial(runs), events);
            !PhaseOf(s, p).Idle? && !PhaseOf(s, q).Idle? ==> p == q
  {
    RunInv(Initial(runs), events);
  }

  /** Once the lock is free, and unless something crashed or resisted removal since, at most one run is left. */
  lemma AtMostOneRunIsLeft(runs: map<Run, Stamp>, events: seq<Event>)
    ensures var s := After(Initial(runs), events);
            s.lock == {} && !s.messy ==> AtMostOne(s.runs.Keys)
  {
    RunInv(Initial(runs), events);
  }
}

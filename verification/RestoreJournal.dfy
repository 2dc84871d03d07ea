/** The journaled restore and its recovery (internal/backup/restore_journal.go), operation by
    operation on a disk that remembers every state it has been in.

    Every file operation that succeeds takes effect at once and for good; rename and remove are
    atomic; a copy passes through partial contents.  An operation may fail without effect, and a
    method then returns as the program does; on a reliable disk none does without a reason.  A process stop needs no separate step: it leaves the
    disk in one of the states the disk remembers. */
module RestoreJournal {
  import opened Wrappers
  import opened RestorePaths
  import opened RestoreState

  /** How a recovery ends.  Failed covers every file operation and lease check that may fail. */
  datatype Recovery = NothingPending | Recovered | Failed | InvalidJournal | Unrecoverable

  /** How an install ends. */
  datatype Install = Installed(saved: seq<Name>) | Refused | Interrupted

  datatype Publication = NotPublished | Unconfirmed | Published

  /** a and b differ at most in one file. */
  ghost predicate OnlyChanges(a: Files, b: Files, name: Name) {
    a - {name} == b - {name}
  }

  /** b is a, or a with a new file that holds a part of these bytes. */
  ghost predicate PartialCopy(a: Files, b: Files, name: Name, bytes: Bytes) {
    b == a || (name !in a && exists n | 0 <= n <= |bytes| :: b == a[name := Data(bytes[..n])])
  }

  /** Every state remembered from index start on is a crash state of the plan. */
  ghost predicate Kept(states: seq<Files>, start: nat, plan: Plan) {
    forall k | start <= k < |states| :: CrashSafe(states[k], plan)
  }

  /** Every state remembered from index start on is a crash state that recovers to the goal, and
      every change brought recovery nearer to its end. */
  ghost predicate Converges(states: seq<Files>, start: nat, plan: Plan, goal: Live)
    requires 0 < start
  {
    forall k | start <= k < |states| ::
      CrashSafe(states[k], plan) && Resolve(states[k]) == goal &&
      (states[k] == states[k - 1] || Work(states[k], plan.transaction) < Work(states[k - 1], plan.transaction))
  }

  /** a and b agree but for live files and the journal and candidates of the plan, and b holds no
      file besides the live ones that a does not. */
  ghost predicate Confined(a: Files, b: Files, plan: Plan) {
    forall name: Name | !name.Target? ::
      (name in b ==> name in a) &&
      (name !in {JournalFile, Candidate(Config, plan.transaction), Candidate(Database, plan.transaction)} ==>
         Look(b, name) == Look(a, name))
  }

  /** What abandoning a restore takes off the disk: its journal, both candidates and every saved copy. */
  ghost function Leftovers(plan: Plan): set<Name> {
    {JournalFile, Candidate(Config, plan.transaction), Candidate(Database, plan.transaction)} +
    (set which: Which | plan.before.Of(which).Some? :: Previous(which, plan.transaction))
  }

  /** A file that holds bytes, or no file. */
  predicate PlainFile(files: Files, name: Name) {
    name in files ==> files[name].Data?
  }

  class Disk {
    /** On a reliable disk every file operation, check and lease goes through unless the files forbid it. */
    const reliable: bool
    var files: Files
    var states: seq<Files>

    ghost predicate Valid()
      reads this
    {
      |states| > 0 && states[|states| - 1] == files
    }

    constructor (initial: Files, reliable: bool)
      ensures Valid() && files == initial && states == [initial] && this.reliable == reliable
    {
      this.reliable := reliable;
      files := initial;
      states := [initial];
    }

    method Set(next: Files)
      requires Valid()
      modifies this
      ensures Valid() && files == next && states == old(states) + [next]
    {
      files := next;
      states := states + [next];
    }

    /** Whether the next operation, check or sync goes through. */
    method Works() returns (ok: bool)
      ensures reliable ==> ok
    {
      ok := *;
      ok := ok || reliable;
    }

    /** publishFile: an atomic rename. */
    method Rename(source: Name, target: Name) returns (ok: bool)
      requires Valid() && source != target
      modifies this
      ensures Valid()
      ensures ok ==> source in old(files) && files == (old(files) - {source})[target := old(files)[source]]
      ensures ok ==> states == old(states) + [files]
      ensures !ok ==> files == old(files) && states == old(states)
      ensures reliable && source in old(files) ==> ok
    {
      var works := Works();
      ok := works && source in files;
      if ok {
        Set((files - {source})[target := files[source]]);
      }
    }

    /** removeRegularIfExists: removing a missing file succeeds. */
    method Remove(name: Name) returns (ok: bool)
      requires Valid()
      modifies this
      ensures Valid()
      ensures ok ==> files == old(files) - {name}
      ensures !ok ==> files == old(files)
      ensures states == old(states) || (ok && name in old(files) && states == old(states) + [files])
      ensures reliable ==> ok
    {
      if name !in files {
        assert files == files - {name};
        return true;
      }
      ok := Works();
      if ok {
        Set(files - {name});
      }
    }

    /** copyFileExclusive: create the target, which must not exist, and fill it piece by piece. */
    method CopyExclusive(bytes: Bytes, target: Name) returns (ok: bool)
      requires Valid()
      modifies this
      ensures Valid()
      ensures ok ==> target !in old(files) && files == old(files)[target := Data(bytes)]
      ensures old(states) <= states && PartialCopy(old(files), files, target, bytes)
      ensures forall k | |old(states)| <= k < |states| ::
                PartialCopy(old(files), states[k], target, bytes) && OnlyChanges(old(files), states[k], target)
      ensures OnlyChanges(old(files), files, target)
      ensures reliable && target !in old(files) ==> ok
    {
      ok := Works();
      if !ok || target in files {
        return false;
      }
      Set(files[target := Data([])]);
      var written := 0;
      while written < |bytes|
        invariant Valid() && written <= |bytes|
        invariant files == old(files)[target := Data(bytes[..written])]
        invariant old(states) <= states && PartialCopy(old(files), files, target, bytes)
        invariant forall k | |old(states)| <= k < |states| ::
                    PartialCopy(old(files), states[k], target, bytes) && OnlyChanges(old(files), states[k], target)
      {
        ok := Works();
        if !ok {
          return;
        }
        var piece: nat := *;
        written := if 0 < piece <= |bytes| - written then written + piece else |bytes|;
        Set(files[target := Data(bytes[..written])]);
      }
      assert bytes[..written] == bytes;
      ok := Works();
    }

    /** verifyJournalFile: reading may fail, a wrong size or digest always does. */
    method Verify(name: Name, entry: Entry) returns (ok: bool)
      ensures ok ==> Matches(files, name, entry)
      ensures reliable && Matches(files, name, entry) ==> ok
    {
      var readable := Works();
      ok := readable && Matches(files, name, entry);
    }

    /** writeRestoreJournal: the temporary file is published by one rename, whose durability may
        stay unconfirmed. */
    method WriteJournal(journal: Journal) returns (result: Publication)
      requires Valid()
      modifies this
      ensures Valid()
      ensures result.NotPublished? ==> files == old(files) && states == old(states)
      ensures !result.NotPublished? ==>
                files == old(files)[JournalFile := Encoded(journal)] && states == old(states) + [files]
      ensures reliable ==> result.Published?
    {
      var works := Works();
      if !works {
        return NotPublished;
      }
      Set(files[JournalFile := Encoded(journal)]);
      var synced := Works();
      return if synced then Published else Unconfirmed;
    }

    /** publishJournalEntry: check the candidate, rename it over the target, check the target.  A
        failure after the rename leaves the rename in place. */
    method PublishEntry(entry: Entry) returns (ok: bool)
      requires Valid() && entry.candidate.Some? && entry.candidate.value.Candidate?
      modifies this
      ensures Valid()
      ensures var candidate := entry.candidate.value;
              (files == old(files) && states == old(states) && !ok) ||
              (Matches(old(files), candidate, entry) && states == old(states) + [files] &&
               files == (old(files) - {candidate})[Target(entry.which) := old(files)[candidate]])
      ensures reliable && Matches(old(files), entry.candidate.value, entry) ==> ok
    {
      ok := Verify(entry.candidate.value, entry);
      var lease := Works();
      if !ok || !lease {
        return false;
      }
      ok := Rename(entry.candidate.value, Target(entry.which));
      if ok {
        ok := Works();
      }
      if ok {
        ok := Verify(Target(entry.which), entry);
      }
    }

    /** preserveLiveFile: copy a live file that exists to its saved name; a failed copy is removed. */
    method Preserve(which: Which, transaction: string) returns (ok: bool, previous: Option<Name>)
      requires Valid()
      modifies this
      ensures Valid()
      ensures ok ==> previous == if Target(which) in old(files) then Some(Previous(which, transaction)) else None
      ensures ok && previous.Some? ==> Look(files, Previous(which, transaction)) == Look(old(files), Target(which))
      ensures ok && previous.None? ==> files == old(files)
      ensures !ok && Target(which) in old(files) && old(files)[Target(which)].Data? ==>
                files == old(files) - {Previous(which, transaction)} ||
                PartialCopy(old(files), files, Previous(which, transaction), old(files)[Target(which)].bytes)
      ensures OnlyChanges(old(files), files, Previous(which, transaction))
      ensures reliable && Previous(which, transaction) !in old(files) && PlainFile(old(files), Target(which)) ==> ok
      ensures reliable && !ok && Previous(which, transaction) !in old(files) ==> Previous(which, transaction) !in files
      ensures old(states) <= states
      ensures forall k | |old(states)| <= k < |states| :: OnlyChanges(old(files), states[k], Previous(which, transaction))
    {
      if Target(which) !in files {
        var absent := Works();
        return absent, None;
      }
      if !files[Target(which)].Data? {
        return false, None;
      }
      ok := CopyExclusive(files[Target(which)].bytes, Previous(which, transaction));
      if ok {
        return true, Some(Previous(which, transaction));
      }
      var removed := Remove(Previous(which, transaction));
      return false, None;
    }

    /** A process stop: the disk is left in some state it has been in since index start. */
    method Stop(start: nat)
      requires Valid() && start < |states|
      modifies this
      ensures Valid()
      ensures exists k :: start <= k < |old(states)| && files == old(states)[k]
    {
      var k: nat :| start <= k < |states|;
      files := states[k];
      states := states[..k + 1];
    }
  }

  // ---------------------------------------------------------------- recovery

  /** The disk of a plan that has not touched a live file and has no journal. */
  ghost predicate Idle(files: Files, plan: Plan) {
    ValidTransaction(plan.transaction) && JournalFile !in files && LiveOf(files) == plan.before
  }

  ghost predicate WorkFile(name: Name, plan: Plan) {
    (name.Candidate? && name.which in {Config, Database} && name.transaction == plan.transaction) ||
    (name.Previous? && name.transaction == plan.transaction)
  }

  /** Dropping a leftover candidate or saved copy is progress and touches no live file. */
  lemma DropWorkFile(files: Files, name: Name, plan: Plan)
    requires Idle(files, plan) && WorkFile(name, plan)
    ensures Idle(files - {name}, plan)
    ensures name in files ==> Work(files - {name}, plan.transaction) < Work(files, plan.transaction)
  {
    assert forall n: Name :: Present(files - {name}, n) == if n == name then 0 else Present(files, n);
    assert name.which in {Config, Database, Wal, Shm} by {
      match name.which case Config => case Database => case Wal => case Shm =>
    }
  }

  /** Dropping the journal of an untouched restore abandons it. */
  lemma DropJournal(files: Files, plan: Plan)
    requires CrashSafe(files, plan) && JournalFile in files
    requires files[JournalFile].journal.phase.Prepared? && Candidate(Config, plan.transaction) in files
    ensures Idle(files - {JournalFile}, plan) && Resolve(files) == plan.before
    ensures Work(files - {JournalFile}, plan.transaction) < Work(files, plan.transaction)
  {
  }

  lemma Extend(states: seq<Files>, start: nat, plan: Plan, goal: Live, next: Files)
    requires 0 < start <= |states| && Converges(states, start, plan, goal)
    requires CrashSafe(next, plan) && Resolve(next) == goal
    requires var last := states[|states| - 1];
             next == last || Work(next, plan.transaction) < Work(last, plan.transaction)
    ensures Converges(states + [next], start, plan, goal)
  {
  }

  /** Removes one file an abandoned restore left behind. */
  method Discard(disk: Disk, name: Name, ghost start: nat, ghost plan: Plan) returns (ok: bool)
    requires disk.Valid() && 0 < start <= |disk.states| && Converges(disk.states, start, plan, plan.before)
    requires Idle(disk.files, plan) && WorkFile(name, plan)
    modifies disk
    ensures disk.Valid() && old(disk.states) <= disk.states
    ensures Converges(disk.states, start, plan, plan.before) && Idle(disk.files, plan)
    ensures disk.files in {old(disk.files), old(disk.files) - {name}} && (ok ==> name !in disk.files)
    ensures disk.reliable ==> ok
  {
    DropWorkFile(disk.files, name, plan);
    Extend(disk.states, start, plan, plan.before, disk.files - {name});
    ok := disk.Remove(name);
  }

  /** The files an entry lists besides its target. */
  function Listed(entry: Entry): set<Name> {
    (if entry.candidate.Some? then {entry.candidate.value} else {}) +
    (if entry.hadPrevious && entry.previous.Some? then {entry.previous.value} else {})
  }

  ghost predicate ListedIn(name: Name, entries: seq<Entry>) {
    exists k | 0 <= k < |entries| :: name in Listed(entries[k])
  }

  lemma EntriesAreWorkFiles(files: Files, plan: Plan, journal: Journal)
    requires CrashSafe(files, plan) && JournalFile in files && files[JournalFile] == Encoded(journal)
    ensures forall entry | entry in [journal.config, journal.database] + journal.sidecars ::
              (forall name | name in Listed(entry) :: WorkFile(name, plan)) && (entry.hadPrevious ==> entry.previous.Some?)
  {
  }

  lemma LeftoversAreListed(plan: Plan, name: Name)
    ensures var journal := JournalFor(plan, Prepared);
            name in Leftovers(plan) <==>
              name == JournalFile || ListedIn(name, [journal.config, journal.database] + journal.sidecars)
  {
    var journal := JournalFor(plan, Prepared);
    var entries := [journal.config, journal.database] + journal.sidecars;
    assert forall k | 0 <= k < 4 :: entries[k].which == ROLES[k];
    if name.Previous? && name in Leftovers(plan) {
      var k := match name.which case Config => 0 case Database => 1 case Wal => 2 case Shm => 3;
      assert name in Listed(entries[k]);
    } else if name.Candidate? && name in Leftovers(plan) {
      var k := if name.which.Config? then 0 else 1;
      assert name in Listed(entries[k]);
    }
  }

  /** Removes the files of one entry of an abandoned restore. */
  method DiscardEntry(disk: Disk, entry: Entry, ghost start: nat, ghost plan: Plan) returns (ok: bool)
    requires disk.Valid() && 0 < start <= |disk.states| && Converges(disk.states, start, plan, plan.before)
    requires Idle(disk.files, plan) && forall name | name in Listed(entry) :: WorkFile(name, plan)
    requires entry.hadPrevious ==> entry.previous.Some?
    modifies disk
    ensures disk.Valid() && old(disk.states) <= disk.states
    ensures Converges(disk.states, start, plan, plan.before) && Idle(disk.files, plan)
    ensures disk.files.Keys <= old(disk.files).Keys && (ok ==> disk.files == old(disk.files) - Listed(entry))
    ensures disk.reliable ==> ok
  {
    ok := true;
    if entry.candidate.Some? {
      ok := Discard(disk, entry.candidate.value, start, plan);
    }
    if entry.hadPrevious {
      var removed := Discard(disk, entry.previous.value, start, plan);
      ok := ok && removed;
    }
  }

  /** Removes what the entries of an abandoned restore list, going on past a removal that fails. */
  method DiscardAll(disk: Disk, entries: seq<Entry>, ghost start: nat, ghost plan: Plan) returns (ok: bool)
    requires disk.Valid() && 0 < start <= |disk.states| && Converges(disk.states, start, plan, plan.before)
    requires Idle(disk.files, plan)
    requires forall entry | entry in entries ::
               (forall name | name in Listed(entry) :: WorkFile(name, plan)) && (entry.hadPrevious ==> entry.previous.Some?)
    modifies disk
    ensures disk.Valid() && old(disk.states) <= disk.states
    ensures Converges(disk.states, start, plan, plan.before) && Idle(disk.files, plan)
    ensures disk.files.Keys <= old(disk.files).Keys && (ok ==> Without(old(disk.files), disk.files, entries))
    ensures disk.reliable ==> ok
  {
    ok := true;
    for i := 0 to |entries|
      invariant disk.Valid() && old(disk.states) <= disk.states
      invariant Converges(disk.states, start, plan, plan.before) && Idle(disk.files, plan)
      invariant disk.files.Keys <= old(disk.files).Keys && (ok ==> Without(old(disk.files), disk.files, entries[..i]))
      invariant disk.reliable ==> ok
    {
      assert entries[i] in entries && entries[..i + 1] == entries[..i] + [entries[i]];
      ghost var before := disk.files;
      var removed := DiscardEntry(disk, entries[i], start, plan);
      if ok && removed {
        WithoutOneMore(old(disk.files), before, entries[..i], entries[i]);
      }
      ok := ok && removed;
    }
    assert entries[..|entries|] == entries;
  }

  /** b is a without the files that the entries list. */
  ghost predicate Without(a: Files, b: Files, entries: seq<Entry>) {
    forall name: Name :: Look(b, name) == if ListedIn(name, entries) then None else Look(a, name)
  }

  lemma WithoutOneMore(a: Files, b: Files, entries: seq<Entry>, entry: Entry)
    requires Without(a, b, entries)
    ensures Without(a, b - Listed(entry), entries + [entry])
  {
    forall name: Name
      ensures ListedIn(name, entries + [entry]) <==> ListedIn(name, entries) || name in Listed(entry)
    {
      assert (entries + [entry])[|entries|] == entry;
      assert forall k | 0 <= k < |entries| :: (entries + [entry])[k] == entries[k];
    }
    assert forall name: Name :: Look(b - Listed(entry), name) == if name in Listed(entry) then None else Look(b, name);
  }

  lemma LeftoversAreGone(a: Files, b: Files, plan: Plan, journal: Journal)
    requires journal == JournalFor(plan, Prepared)
    requires Without(a - {JournalFile}, b, [journal.config, journal.database] + journal.sidecars)
    ensures b == a - Leftovers(plan)
  {
    forall name: Name
      ensures Look(b, name) == Look(a - Leftovers(plan), name)
    {
      LeftoversAreListed(plan, name);
    }
    SameLooks(b, a - Leftovers(plan));
  }

  /** abortPreparedRestore: drop the journal first, then what it listed. */
  method AbortPrepared(disk: Disk, journal: Journal, ghost plan: Plan) returns (ok: bool)
    requires disk.Valid() && CrashSafe(disk.files, plan)
    requires JournalFile in disk.files && disk.files[JournalFile] == Encoded(journal)
    requires journal.phase.Prepared? && Candidate(Config, plan.transaction) in disk.files
    modifies disk
    ensures disk.Valid() && old(disk.states) <= disk.states
    ensures Converges(disk.states, |old(disk.states)|, plan, plan.before)
    ensures ok ==> JournalFile !in disk.files && LiveOf(disk.files) == plan.before
    ensures disk.files.Keys <= old(disk.files).Keys && (ok ==> disk.files == old(disk.files) - Leftovers(plan))
    ensures disk.reliable ==> ok
  {
    ghost var start := |disk.states|;
    DropJournal(disk.files, plan);
    Extend(disk.states, start, plan, plan.before, disk.files - {JournalFile});
    EntriesAreWorkFiles(disk.files, plan, journal);
    ok := disk.Remove(JournalFile);
    if ok {
      ok := disk.Works();
    }
    if !ok {
      return;
    }
    ok := DiscardAll(disk, [journal.config, journal.database] + journal.sidecars, start, plan);
    if ok {
      LeftoversAreGone(old(disk.files), disk.files, plan, journal);
    }
    var synced := disk.Works();
    return ok && synced;
  }

  lemma SameLooks(a: Files, b: Files)
    requires forall name: Name :: Look(a, name) == Look(b, name)
    ensures a == b
  {
    forall name: Name
      ensures name in a <==> name in b
      ensures name in a ==> a[name] == b[name]
    {
      assert Look(a, name) == Look(b, name);
    }
  }

  // ---------------------------------------------------------------- recovery past the commit point

  /** Recording the next phase of a committed restore is progress. */
  lemma WritePhase(files: Files, plan: Plan, phase: Phase)
    requires CrashSafe(files, plan) && JournalFile in files
    requires Rank(phase) <= Rank(files[JournalFile].journal.phase)
    requires ConfigInstalled(files, plan) && PhaseState(files, plan, phase)
    ensures var next := files[JournalFile := Encoded(JournalFor(plan, phase))];
            CrashSafe(next, plan) && Resolve(next) == Resolve(files) == NewLive(plan.offer) &&
            (next == files || Work(next, plan.transaction) < Work(files, plan.transaction))
  {
    var next := files[JournalFile := Encoded(JournalFor(plan, phase))];
    assert forall n: Name | n != JournalFile :: Look(next, n) == Look(files, n) && Present(next, n) == Present(files, n);
    if phase == files[JournalFile].journal.phase {
      assert next == files;
    }
  }

  /** Removing a sidecar of a committed restore is progress. */
  lemma DropSidecar(files: Files, plan: Plan, which: Which)
    requires CrashSafe(files, plan) && JournalFile in files && !files[JournalFile].journal.phase.Prepared?
    requires which in {Wal, Shm}
    ensures var next := files - {Target(which)};
            CrashSafe(next, plan) && Resolve(next) == Resolve(files) &&
            next.Keys == files.Keys - {Target(which)} && next[JournalFile] == files[JournalFile] &&
            (Target(which) in files ==> Work(next, plan.transaction) < Work(files, plan.transaction))
  {
    var next := files - {Target(which)};
    assert forall n: Name :: Look(next, n) == if n == Target(which) then None else Look(files, n);
    assert forall n: Name :: Present(next, n) == if n == Target(which) then 0 else Present(files, n);
  }

  /** Publishing the waiting database of a committed restore is progress. */
  lemma MoveDatabase(files: Files, plan: Plan)
    requires CrashSafe(files, plan) && JournalFile in files
    requires files[JournalFile].journal.phase in {SidecarsDetached, DatabaseCommitted} && SidecarsGone(files)
    requires Look(files, Candidate(Database, plan.transaction)) == Some(Data(plan.offer.database))
    ensures var candidate := Candidate(Database, plan.transaction);
            var next := (files - {candidate})[Target(Database) := files[candidate]];
            CrashSafe(next, plan) && Resolve(next) == Resolve(files) && DatabaseInstalled(next, plan) &&
            ConfigInstalled(next, plan) && SidecarsGone(next) && next[JournalFile] == files[JournalFile] &&
            Work(next, plan.transaction) < Work(files, plan.transaction)
  {
    var candidate := Candidate(Database, plan.transaction);
    var next := (files - {candidate})[Target(Database) := files[candidate]];
    assert forall n: Name | n != candidate && n != Target(Database) ::
      Look(next, n) == Look(files, n) && Present(next, n) == Present(files, n);
  }

  lemma MoveIsConfined(files: Files, plan: Plan)
    requires CrashSafe(files, plan) && JournalFile in files
    requires Look(files, Candidate(Database, plan.transaction)) == Some(Data(plan.offer.database))
    ensures var candidate := Candidate(Database, plan.transaction);
            Confined(files, (files - {candidate})[Target(Database) := files[candidate]], plan) &&
            Matches(files, candidate, files[JournalFile].journal.database)
  {
    assert files[JournalFile].journal.database == ReplacedEntry(Database, plan.offer.database, plan);
  }

  /** Dropping the leftover candidates, and last the journal, of a finished restore is progress. */
  lemma DropFinished(files: Files, plan: Plan, name: Name)
    requires CrashSafe(files, plan) && JournalFile in files
    requires files[JournalFile].journal.phase.DatabaseCommitted?
    requires name in {Candidate(Config, plan.transaction), Candidate(Database, plan.transaction), JournalFile}
    requires name == JournalFile ==> NothingWaits(files, plan.transaction)
    ensures var next := files - {name};
            CrashSafe(next, plan) && Resolve(next) == Resolve(files) == NewLive(plan.offer) && Saved(next, plan) &&
            (name != JournalFile ==> JournalFile in next && next[JournalFile] == files[JournalFile]) &&
            (name in files ==> Work(next, plan.transaction) < Work(files, plan.transaction))
  {
    var next := files - {name};
    assert forall n: Name :: Look(next, n) == if n == name then None else Look(files, n);
    assert forall n: Name :: Present(next, n) == if n == name then 0 else Present(files, n);
  }

  /** detachJournalSidecars, on a restore whose config is committed. */
  method DetachSidecars(disk: Disk, ghost start: nat, ghost plan: Plan) returns (ok: bool)
    requires disk.Valid() && 0 < start <= |disk.states|
    requires Converges(disk.states, start, plan, NewLive(plan.offer))
    requires CrashSafe(disk.files, plan) && Resolve(disk.files) == NewLive(plan.offer)
    requires JournalFile in disk.files && !disk.files[JournalFile].journal.phase.Prepared?
    modifies disk
    ensures disk.Valid() && old(disk.states) <= disk.states
    ensures Converges(disk.states, start, plan, NewLive(plan.offer))
    ensures CrashSafe(disk.files, plan) && Resolve(disk.files) == NewLive(plan.offer)
    ensures JournalFile in disk.files && disk.files[JournalFile] == old(disk.files)[JournalFile]
    ensures ok ==> SidecarsGone(disk.files)
    ensures Confined(old(disk.files), disk.files, plan)
    ensures disk.reliable ==> ok
  {
    var sidecars := [Wal, Shm];
    for i := 0 to 2
      invariant disk.Valid() && old(disk.states) <= disk.states
      invariant Converges(disk.states, start, plan, NewLive(plan.offer))
      invariant CrashSafe(disk.files, plan) && Resolve(disk.files) == NewLive(plan.offer)
      invariant JournalFile in disk.files && disk.files[JournalFile] == old(disk.files)[JournalFile]
      invariant forall k | 0 <= k < i :: Target(sidecars[k]) !in disk.files
      invariant Confined(old(disk.files), disk.files, plan)
    {
      var lease := disk.Works();
      if !lease {
        return false;
      }
      ok := DetachSidecar(disk, sidecars[i], start, plan);
      if !ok {
        return;
      }
    }
    assert Target(sidecars[0]) !in disk.files && Target(sidecars[1]) !in disk.files;
    ok := disk.Works();
  }

  method DetachSidecar(disk: Disk, which: Which, ghost start: nat, ghost plan: Plan) returns (ok: bool)
    requires disk.Valid() && 0 < start <= |disk.states| && which in {Wal, Shm}
    requires Converges(disk.states, start, plan, NewLive(plan.offer))
    requires CrashSafe(disk.files, plan) && Resolve(disk.files) == NewLive(plan.offer)
    requires JournalFile in disk.files && !disk.files[JournalFile].journal.phase.Prepared?
    modifies disk
    ensures disk.Valid() && old(disk.states) <= disk.states
    ensures Converges(disk.states, start, plan, NewLive(plan.offer))
    ensures CrashSafe(disk.files, plan) && Resolve(disk.files) == NewLive(plan.offer)
    ensures disk.files in {old(disk.files), old(disk.files) - {Target(which)}} && (ok ==> Target(which) !in disk.files)
    ensures disk.reliable ==> ok
  {
    DropSidecar(disk.files, plan, which);
    Extend(disk.states, start, plan, NewLive(plan.offer), disk.files - {Target(which)});
    ok := disk.Remove(Target(which));
  }

  /** Records a phase of a committed restore; false when the write or its sync failed. */
  method Advance(disk: Disk, phase: Phase, journal: Journal, ghost start: nat, ghost plan: Plan) returns (ok: bool)
    requires disk.Valid() && 0 < start <= |disk.states|
    requires Converges(disk.states, start, plan, NewLive(plan.offer))
    requires CrashSafe(disk.files, plan) && Resolve(disk.files) == NewLive(plan.offer)
    requires JournalFile in disk.files && Rank(phase) <= Rank(disk.files[JournalFile].journal.phase)
    requires ConfigInstalled(disk.files, plan) && PhaseState(disk.files, plan, phase)
    requires journal == JournalFor(plan, phase)
    modifies disk
    ensures disk.Valid() && old(disk.states) <= disk.states
    ensures Converges(disk.states, start, plan, NewLive(plan.offer))
    ensures CrashSafe(disk.files, plan) && Resolve(disk.files) == NewLive(plan.offer)
    ensures disk.files - {JournalFile} == old(disk.files) - {JournalFile} && JournalFile in disk.files
    ensures ok ==> disk.files == old(disk.files)[JournalFile := Encoded(journal)]
    ensures Confined(old(disk.files), disk.files, plan)
    ensures disk.reliable ==> ok
  {
    WritePhase(disk.files, plan, phase);
    Extend(disk.states, start, plan, NewLive(plan.offer), disk.files[JournalFile := Encoded(journal)]);
    var written := disk.WriteJournal(journal);
    ok := written.Published?;
  }

  /** finishRestoreJournal: drop what is left of the candidates, then the journal. */
  method Finish(disk: Disk, ghost start: nat, transaction: string, ghost plan: Plan) returns (ok: bool)
    requires disk.Valid() && 0 < start <= |disk.states| && transaction == plan.transaction
    requires Converges(disk.states, start, plan, NewLive(plan.offer))
    requires CrashSafe(disk.files, plan) && JournalFile in disk.files
    requires disk.files[JournalFile].journal.phase.DatabaseCommitted?
    modifies disk
    ensures disk.Valid() && old(disk.states) <= disk.states
    ensures Converges(disk.states, start, plan, NewLive(plan.offer))
    ensures CrashSafe(disk.files, plan) && Resolve(disk.files) == NewLive(plan.offer)
    ensures ok ==> JournalFile !in disk.files && LiveOf(disk.files) == NewLive(plan.offer) && Saved(disk.files, plan)
    ensures ok ==> NothingWaits(disk.files, transaction)
    ensures Confined(old(disk.files), disk.files, plan)
    ensures disk.reliable ==> ok
  {
    var candidates := [Candidate(Config, transaction), Candidate(Database, transaction)];
    for i := 0 to 2
      invariant disk.Valid() && old(disk.states) <= disk.states
      invariant Converges(disk.states, start, plan, NewLive(plan.offer)) && CrashSafe(disk.files, plan)
      invariant JournalFile in disk.files && disk.files[JournalFile] == old(disk.files)[JournalFile]
      invariant forall k | 0 <= k < i :: candidates[k] !in disk.files
      invariant Confined(old(disk.files), disk.files, plan)
    {
      ok := DropLast(disk, candidates[i], start, plan);
      if !ok {
        return;
      }
    }
    assert candidates[0] !in disk.files && candidates[1] !in disk.files;
    ok := DropLast(disk, JournalFile, start, plan);
    if ok {
      ok := disk.Works();
    }
  }

  /** Removes one of the last three files of a finished restore. */
  method DropLast(disk: Disk, name: Name, ghost start: nat, ghost plan: Plan) returns (ok: bool)
    requires disk.Valid() && 0 < start <= |disk.states| && Converges(disk.states, start, plan, NewLive(plan.offer))
    requires CrashSafe(disk.files, plan) && JournalFile in disk.files
    requires disk.files[JournalFile].journal.phase.DatabaseCommitted?
    requires name in {Candidate(Config, plan.transaction), Candidate(Database, plan.transaction), JournalFile}
    requires name == JournalFile ==> NothingWaits(disk.files, plan.transaction)
    modifies disk
    ensures disk.Valid() && old(disk.states) <= disk.states
    ensures Converges(disk.states, start, plan, NewLive(plan.offer))
    ensures CrashSafe(disk.files, plan) && Resolve(disk.files) == NewLive(plan.offer) && Saved(disk.files, plan)
    ensures disk.files == if ok then old(disk.files) - {name} else old(disk.files)
    ensures disk.reliable ==> ok
  {
    DropFinished(disk.files, plan, name);
    Extend(disk.states, start, plan, NewLive(plan.offer), disk.files - {name});
    ok := disk.Remove(name);
  }

  /** An undisturbed recovery would give this restore up. */
  predicate Abandons(files: Files) {
    JournalFile in files && files[JournalFile].Encoded? && files[JournalFile].journal.phase.Prepared? &&
    Candidate(Config, files[JournalFile].journal.transaction) in files
  }

  /** recoverPendingRestoreWith.  From any state a restore may be stopped in, every file operation
      keeps the outcome that was already decided and brings the end nearer; when recovery gets
      through, the live files are that outcome, the journal is gone, and so are the files it listed but
      for the saved copies of a completed restore.  It never refuses, and on a reliable disk it gets
      through. */
  method Recover(disk: Disk, ghost plan: Plan) returns (result: Recovery)
    requires disk.Valid() && CrashSafe(disk.files, plan)
    modifies disk
    ensures disk.Valid() && old(disk.states) <= disk.states
    ensures Converges(disk.states, |old(disk.states)|, plan, Resolve(old(disk.files)))
    ensures result in {NothingPending, Recovered, Failed}
    ensures result.NothingPending? <==> JournalFile !in old(disk.files)
    ensures result.NothingPending? ==> disk.files == old(disk.files)
    ensures !result.Failed? ==> JournalFile !in disk.files && LiveOf(disk.files) == Resolve(old(disk.files))
    ensures result.Recovered? ==>
              if Abandons(old(disk.files)) then disk.files == old(disk.files) - Leftovers(plan)
              else NothingWaits(disk.files, plan.transaction) && Saved(disk.files, plan)
    ensures forall name: Name | name in disk.files && !name.Target? :: name in old(disk.files)
    ensures disk.reliable ==> !result.Failed?
  {
    ghost var start := |disk.states|;
    if JournalFile !in disk.files {
      return NothingPending;
    }
    if !disk.files[JournalFile].Encoded? {
      return InvalidJournal;
    }
    var journal := disk.files[JournalFile].journal;
    ReachableJournalIsValid(disk.files, plan);
    NoRefusal(disk.files, plan);
    if !ValidJournal(journal, disk.files) {
      return InvalidJournal;
    }
    var ready := disk.Works();
    if !ready {
      return Failed;
    }
    if journal.phase.Prepared? && Candidate(Config, journal.transaction) in disk.files {
      var aborted := AbortPrepared(disk, journal, plan);
      return if aborted then Recovered else Failed;
    }
    if !Matches(disk.files, Target(Config), journal.config) {
      return Unrecoverable;
    }
    result := RecoverCommitted(disk, journal, start, plan);
  }

  /** Recovery past the commit point: the sidecars go, and then the database is completed. */
  method RecoverCommitted(disk: Disk, found: Journal, ghost start: nat, ghost plan: Plan) returns (result: Recovery)
    requires disk.Valid() && start == |disk.states|
    requires CrashSafe(disk.files, plan) && Resolve(disk.files) == NewLive(plan.offer)
    requires JournalFile in disk.files && disk.files[JournalFile] == Encoded(found)
    requires found.phase.Prepared? ==> Candidate(Config, plan.transaction) !in disk.files
    modifies disk
    ensures disk.Valid() && old(disk.states) <= disk.states
    ensures Converges(disk.states, start, plan, NewLive(plan.offer))
    ensures result in {Recovered, Failed}
    ensures result.Recovered? ==> JournalFile !in disk.files && LiveOf(disk.files) == NewLive(plan.offer)
    ensures result.Recovered? ==> NothingWaits(disk.files, plan.transaction) && Saved(disk.files, plan)
    ensures Confined(old(disk.files), disk.files, plan)
    ensures disk.reliable ==> result.Recovered?
  {
    var journal := found;
    if journal.phase.Prepared? {
      journal := journal.(phase := ConfigCommitted);
      var ok := Advance(disk, ConfigCommitted, journal, start, plan);
      if !ok {
        return Failed;
      }
    }
    var detached := DetachSidecars(disk, start, plan);
    if !detached {
      return Failed;
    }
    if journal.phase.ConfigCommitted? {
      journal := journal.(phase := SidecarsDetached);
      var ok := Advance(disk, SidecarsDetached, journal, start, plan);
      if !ok {
        return Failed;
      }
    }
    result := CompleteDatabase(disk, journal, start, plan);
  }

  /** The database candidate takes the place of the live database. */
  method RenameDatabase(disk: Disk, journal: Journal, ghost start: nat, ghost plan: Plan) returns (ok: bool)
    requires disk.Valid() && 0 < start <= |disk.states|
    requires Converges(disk.states, start, plan, NewLive(plan.offer))
    requires CrashSafe(disk.files, plan) && Resolve(disk.files) == NewLive(plan.offer)
    requires JournalFile in disk.files && disk.files[JournalFile] == Encoded(journal)
    requires journal.phase in {SidecarsDetached, DatabaseCommitted} && SidecarsGone(disk.files)
    requires Look(disk.files, Candidate(Database, plan.transaction)) == Some(Data(plan.offer.database))
    modifies disk
    ensures disk.Valid() && old(disk.states) <= disk.states
    ensures Converges(disk.states, start, plan, NewLive(plan.offer))
    ensures CrashSafe(disk.files, plan) && Resolve(disk.files) == NewLive(plan.offer)
    ensures JournalFile in disk.files && disk.files[JournalFile] == Encoded(journal) && SidecarsGone(disk.files)
    ensures ok ==> DatabaseInstalled(disk.files, plan) && ConfigInstalled(disk.files, plan)
    ensures Confined(old(disk.files), disk.files, plan)
    ensures disk.reliable ==> ok
  {
    MoveDatabase(disk.files, plan);
    MoveIsConfined(disk.files, plan);
    ghost var before, candidate := disk.files, Candidate(Database, plan.transaction);
    ghost var next := (before - {candidate})[Target(Database) := before[candidate]];
    Extend(disk.states, start, plan, NewLive(plan.offer), next);
    ok := disk.PublishEntry(journal.database);
    assert (disk.files == before && disk.states == old(disk.states) && !ok) ||
           (disk.files == next && disk.states == old(disk.states) + [next]);
  }

  /** The second half of recovery: the sidecars are gone, the database is not yet known to be live. */
  method CompleteDatabase(disk: Disk, found: Journal, ghost start: nat, ghost plan: Plan) returns (result: Recovery)
    requires disk.Valid() && 0 < start <= |disk.states|
    requires Converges(disk.states, start, plan, NewLive(plan.offer))
    requires CrashSafe(disk.files, plan) && Resolve(disk.files) == NewLive(plan.offer)
    requires JournalFile in disk.files && disk.files[JournalFile] == Encoded(found)
    requires found.phase in {SidecarsDetached, DatabaseCommitted} && SidecarsGone(disk.files)
    modifies disk
    ensures disk.Valid() && old(disk.states) <= disk.states
    ensures Converges(disk.states, start, plan, NewLive(plan.offer))
    ensures result in {Recovered, Failed}
    ensures result.Recovered? ==> JournalFile !in disk.files && LiveOf(disk.files) == NewLive(plan.offer)
    ensures result.Recovered? ==> NothingWaits(disk.files, plan.transaction) && Saved(disk.files, plan)
    ensures Confined(old(disk.files), disk.files, plan)
    ensures disk.reliable ==> result.Recovered?
  {
    var journal := found;
    if !Matches(disk.files, Target(Database), journal.database) {
      if Candidate(Database, journal.transaction) !in disk.files {
        return Unrecoverable;
      }
      var ok := RenameDatabase(disk, journal, start, plan);
      if !ok {
        return Failed;
      }
    }
    journal := journal.(phase := DatabaseCommitted);
    var ok := Advance(disk, DatabaseCommitted, journal, start, plan);
    if !ok {
      return Failed;
    }
    var sound := disk.Works();  // the database check and the lease
    if !sound {
      return Failed;
    }
    ok := Finish(disk, start, journal.transaction, plan);
    return if ok then Recovered else Failed;
  }

  // ---------------------------------------------------------------- install

  lemma IdleIsCrashSafe(files: Files, plan: Plan)
    requires Idle(files, plan)
    ensures CrashSafe(files, plan) && Resolve(files) == plan.before
  {
  }

  lemma StageStaysIdle(files: Files, next: Files, name: Name, plan: Plan)
    requires Idle(files, plan) && WorkFile(name, plan) && OnlyChanges(files, next, name)
    ensures Idle(next, plan)
    ensures forall other: Name | other != name :: Look(next, other) == Look(files, other)
  {
    forall other: Name | other != name
      ensures Look(next, other) == Look(files, other)
    {
      assert other in files <==> other in files - {name};
      assert other in next <==> other in next - {name};
    }
    assert Look(next, JournalFile) == Look(files, JournalFile);
  }

  /** All states from index start on are idle states of the plan. */
  ghost predicate StayedIdle(states: seq<Files>, start: nat, plan: Plan) {
    forall k | start <= k < |states| :: Idle(states[k], plan)
  }

  /** No saved copy of this transaction is on disk. */
  ghost predicate NothingSaved(files: Files, transaction: string) {
    forall which: Which :: Previous(which, transaction) !in files
  }

  /** Nothing on disk bears a name of this transaction. */
  ghost predicate Unused(files: Files, transaction: string) {
    NothingWaits(files, transaction) && NothingSaved(files, transaction)
  }

  /** The live files that exist hold bytes. */
  ghost predicate Plain(live: Live) {
    forall which: Which :: live.Of(which).Some? ==> live.Of(which).value.Data?
  }

  /** Stages one file of the offer beside its target. */
  method Stage(disk: Disk, which: Which, bytes: Bytes, entry: Entry, ghost start: nat, ghost plan: Plan)
    returns (ok: bool)
    requires disk.Valid() && StayedIdle(disk.states, start, plan) && Idle(disk.files, plan) && start <= |disk.states|
    requires which in {Config, Database} && entry.candidate == Some(Candidate(which, plan.transaction))
    modifies disk
    ensures disk.Valid() && StayedIdle(disk.states, start, plan) && Idle(disk.files, plan)
    ensures old(disk.states) <= disk.states
    ensures ok ==> Look(disk.files, entry.candidate.value) == Some(Data(bytes))
    ensures forall other: Name | other != entry.candidate.value :: Look(disk.files, other) == Look(old(disk.files), other)
    ensures disk.reliable && entry.candidate.value !in old(disk.files) ==> ok
  {
    ghost var before := disk.files;
    ok := disk.CopyExclusive(bytes, entry.candidate.value);
    StageStaysIdle(before, disk.files, entry.candidate.value, plan);
    forall k | |old(disk.states)| <= k < |disk.states|
      ensures Idle(disk.states[k], plan)
    {
      StageStaysIdle(before, disk.states[k], entry.candidate.value, plan);
    }
  }

  /** The saved copies of the first files in ROLES are in place. */
  ghost predicate SavedFirst(files: Files, plan: Plan, count: nat)
    requires count <= 4
  {
    forall k | 0 <= k < count ::
      plan.before.Of(ROLES[k]).Some? ==>
        Look(files, Previous(ROLES[k], plan.transaction)) == plan.before.Of(ROLES[k])
  }

  /** Saves one live file. */
  method PreserveOne(disk: Disk, which: Which, transaction: string, ghost start: nat, ghost plan: Plan)
    returns (ok: bool, previous: Option<Name>)
    requires disk.Valid() && StayedIdle(disk.states, start, plan) && Idle(disk.files, plan) && start <= |disk.states|
    requires transaction == plan.transaction
    modifies disk
    ensures disk.Valid() && StayedIdle(disk.states, start, plan) && Idle(disk.files, plan)
    ensures old(disk.states) <= disk.states
    ensures forall name | name != Previous(which, transaction) :: Look(disk.files, name) == Look(old(disk.files), name)
    ensures ok ==> previous == SavedAs(which, plan)
    ensures ok && previous.Some? ==> Look(disk.files, Previous(which, transaction)) == plan.before.Of(which)
    ensures ok && previous.None? ==> disk.files == old(disk.files)
    ensures disk.reliable && !ok && Previous(which, transaction) !in old(disk.files) ==>
              Previous(which, transaction) !in disk.files
    ensures disk.reliable && Previous(which, transaction) !in old(disk.files) && Plain(plan.before) ==> ok
  {
    ghost var before, known := disk.files, |disk.states|;
    assert LiveOf(before).Of(which) == Look(before, Target(which));
    ok, previous := disk.Preserve(which, transaction);
    StageStaysIdle(before, disk.files, Previous(which, transaction), plan);
    forall k | known <= k < |disk.states|
      ensures Idle(disk.states[k], plan)
    {
      StageStaysIdle(before, disk.states[k], Previous(which, transaction), plan);
    }
  }

  /** Of the last files in ROLES there is no saved copy but what was there before, and of the first
      there is at most the one that is listed. */
  ghost predicate SavedOrOld(before: Files, files: Files, transaction: string, saved: seq<Option<Name>>) {
    |saved| <= 4 &&
    forall k | 0 <= k < 4 && Previous(ROLES[k], transaction) in files && Previous(ROLES[k], transaction) !in before ::
      k < |saved| && saved[k].Some?
  }

  /** Saves every live file that exists; the result lists the saved name of each role. */
  method PreserveAll(disk: Disk, transaction: string, ghost start: nat, ghost plan: Plan)
    returns (ok: bool, saved: seq<Option<Name>>)
    requires disk.Valid() && StayedIdle(disk.states, start, plan) && Idle(disk.files, plan) && start <= |disk.states|
    requires transaction == plan.transaction
    modifies disk
    ensures disk.Valid() && StayedIdle(disk.states, start, plan) && Idle(disk.files, plan)
    ensures old(disk.states) <= disk.states
    ensures |saved| <= 4 && forall k | 0 <= k < |saved| :: saved[k] == SavedAs(ROLES[k], plan)
    ensures ok ==> |saved| == 4 && SavedFirst(disk.files, plan, 4)
    ensures forall which: Which, t: string ::
              Look(disk.files, Candidate(which, t)) == Look(old(disk.files), Candidate(which, t))
    ensures disk.reliable && NothingSaved(old(disk.files), transaction) && Plain(plan.before) ==> ok
    ensures disk.reliable ==> SavedOrOld(old(disk.files), disk.files, transaction, saved)
  {
    saved := [];
    for i := 0 to 4
      invariant disk.Valid() && StayedIdle(disk.states, start, plan) && Idle(disk.files, plan)
      invariant old(disk.states) <= disk.states
      invariant |saved| == i && forall k | 0 <= k < i :: saved[k] == SavedAs(ROLES[k], plan)
      invariant SavedFirst(disk.files, plan, i)
      invariant forall which: Which, t: string ::
                  Look(disk.files, Candidate(which, t)) == Look(old(disk.files), Candidate(which, t))
      invariant forall k | i <= k < 4 ::
                  Look(disk.files, Previous(ROLES[k], transaction)) == Look(old(disk.files), Previous(ROLES[k], transaction))
      invariant SavedOrOld(old(disk.files), disk.files, transaction, saved)
    {
      ghost var before := disk.files;
      var previous;
      ok, previous := PreserveOne(disk, ROLES[i], transaction, start, plan);
      KeepsApart(before, disk.files, transaction, i);
      if !ok {
        return;
      }
      saved := saved + [previous];
    }
    ok := true;
  }

  /** Saving one file leaves the saved copies of the others alone. */
  lemma KeepsApart(before: Files, after: Files, transaction: string, i: nat)
    requires i < 4
    requires forall name | name != Previous(ROLES[i], transaction) :: Look(after, name) == Look(before, name)
    ensures forall k | 0 <= k < 4 && k != i ::
              Look(after, Previous(ROLES[k], transaction)) == Look(before, Previous(ROLES[k], transaction)) &&
              (Previous(ROLES[k], transaction) in after <==> Previous(ROLES[k], transaction) in before)
  {
    assert forall k | 0 <= k < 4 && k != i :: ROLES[k] != ROLES[i];
    assert forall name: Name :: (name in after <==> Look(after, name).Some?) && (name in before <==> Look(before, name).Some?);
  }

  /** The cleanup deferred until the journal is durable. */
  method DropStaged(disk: Disk, names: seq<Name>, ghost start: nat, ghost plan: Plan)
    requires disk.Valid() && StayedIdle(disk.states, start, plan) && Idle(disk.files, plan) && start <= |disk.states|
    requires forall name | name in names :: WorkFile(name, plan)
    modifies disk
    ensures disk.Valid() && StayedIdle(disk.states, start, plan) && Idle(disk.files, plan)
    ensures old(disk.states) <= disk.states && disk.files.Keys <= old(disk.files).Keys
    ensures disk.reliable ==> forall name | name in names :: name !in disk.files
  {
    for i := 0 to |names|
      invariant disk.Valid() && StayedIdle(disk.states, start, plan) && Idle(disk.files, plan)
      invariant old(disk.states) <= disk.states && disk.files.Keys <= old(disk.files).Keys
      invariant disk.reliable ==> forall k | 0 <= k < i :: names[k] !in disk.files
    {
      assert names[i] in names;
      DropWorkFile(disk.files, names[i], plan);
      var removed := disk.Remove(names[i]);
    }
  }

  lemma FirstJournal(files: Files, plan: Plan)
    requires Idle(files, plan) && SavedFirst(files, plan, 4)
    requires Look(files, Candidate(Config, plan.transaction)) == Some(Data(plan.offer.config))
    requires Look(files, Candidate(Database, plan.transaction)) == Some(Data(plan.offer.database))
    ensures CrashSafe(files[JournalFile := Encoded(JournalFor(plan, Prepared))], plan)
    ensures Resolve(files[JournalFile := Encoded(JournalFor(plan, Prepared))]) == plan.before
  {
    var next := files[JournalFile := Encoded(JournalFor(plan, Prepared))];
    assert forall n: Name | n != JournalFile :: Look(next, n) == Look(files, n);
    forall which: Which | plan.before.Of(which).Some?
      ensures Look(next, Previous(which, plan.transaction)) == plan.before.Of(which)
    {
      assert which in {ROLES[0], ROLES[1], ROLES[2], ROLES[3]} by {
        match which case Config => case Database => case Wal => case Shm =>
      }
    }
  }

  /** The rename of the config candidate is the commit point of a restore. */
  lemma CommitConfig(files: Files, plan: Plan)
    requires CrashSafe(files, plan) && JournalFile in files && files[JournalFile] == Encoded(JournalFor(plan, Prepared))
    requires Candidate(Config, plan.transaction) in files
    ensures var candidate := Candidate(Config, plan.transaction);
            var next := (files - {candidate})[Target(Config) := files[candidate]];
            CrashSafe(next, plan) && Resolve(next) == NewLive(plan.offer) && ConfigInstalled(next, plan) &&
            PhaseState(next, plan, ConfigCommitted) && next[JournalFile] == files[JournalFile] &&
            Matches(files, candidate, JournalFor(plan, Prepared).config)
  {
    var candidate := Candidate(Config, plan.transaction);
    var next := (files - {candidate})[Target(Config) := files[candidate]];
    assert forall n: Name | n != candidate && n != Target(Config) :: Look(next, n) == Look(files, n);
  }

  function SomeNames(names: seq<Option<Name>>): (found: seq<Name>)
    ensures forall name :: name in found <==> Some(name) in names
  {
    if names == [] then []
    else (if names[0].Some? then [names[0].value] else []) + SomeNames(names[1..])
  }

  /** Stages both files of the offer and reads them back. */
  method StagePair(disk: Disk, journal: Journal, offer: Offer, ghost start: nat, ghost plan: Plan) returns (ok: bool)
    requires disk.Valid() && StayedIdle(disk.states, start, plan) && Idle(disk.files, plan) && start <= |disk.states|
    requires journal == BareJournal(offer, plan.transaction)
    modifies disk
    ensures disk.Valid() && StayedIdle(disk.states, start, plan) && Idle(disk.files, plan)
    ensures old(disk.states) <= disk.states
    ensures ok ==> Look(disk.files, Candidate(Config, plan.transaction)) == Some(Data(offer.config))
    ensures ok ==> Look(disk.files, Candidate(Database, plan.transaction)) == Some(Data(offer.database))
    ensures forall name: Name | !name.Candidate? || name.transaction != plan.transaction || name.which !in {Config, Database} ::
              Look(disk.files, name) == Look(old(disk.files), name)
    ensures disk.reliable && NothingWaits(old(disk.files), plan.transaction) ==> ok
  {
    ok := Stage(disk, Config, offer.config, journal.config, start, plan);
    if ok {
      assert Look(disk.files, Candidate(Database, plan.transaction)) ==
             Look(old(disk.files), Candidate(Database, plan.transaction));
      ok := Stage(disk, Database, offer.database, journal.database, start, plan);
    }
    assert ok ==> Look(disk.files, Candidate(Config, plan.transaction)) == Some(Data(offer.config));
    assert ok ==> Matches(disk.files, journal.config.candidate.value, journal.config) &&
                  Matches(disk.files, journal.database.candidate.value, journal.database);
    if ok {
      ok := disk.Verify(journal.config.candidate.value, journal.config);
    }
    if ok {
      ok := disk.Verify(journal.database.candidate.value, journal.database);
    }
  }

  /** The journal before anything is saved. */
  function BareJournal(offer: Offer, transaction: string): Journal {
    Journal(1, transaction, Prepared,
      Entry(Config, Some(Candidate(Config, transaction)), None, false, |offer.config|, Some(Sha256(offer.config))),
      Entry(Database, Some(Candidate(Database, transaction)), None, false, |offer.database|, Some(Sha256(offer.database))),
      [Entry(Wal, None, None, false, 0, None), Entry(Shm, None, None, false, 0, None)])
  }

  function WithSaved(journal: Journal, kept: seq<Option<Name>>): Journal
    requires |kept| == 4 && |journal.sidecars| == 2
  {
    journal.(
      config := journal.config.(previous := kept[0], hadPrevious := kept[0].Some?),
      database := journal.database.(previous := kept[1], hadPrevious := kept[1].Some?),
      sidecars := [journal.sidecars[0].(previous := kept[2], hadPrevious := kept[2].Some?),
                   journal.sidecars[1].(previous := kept[3], hadPrevious := kept[3].Some?)])
  }

  lemma RecordsWhatWasSaved(plan: Plan, kept: seq<Option<Name>>)
    requires |kept| == 4 && forall k | 0 <= k < 4 :: kept[k] == SavedAs(ROLES[k], plan)
    ensures WithSaved(BareJournal(plan.offer, plan.transaction), kept) == JournalFor(plan, Prepared)
  {
  }

  /** What a restore has put on disk, should it be given up before the first journal, is listed for removal. */
  ghost predicate Removable(before: Files, files: Files, plan: Plan, saved: seq<Name>) {
    forall name | WorkFile(name, plan) && name in files && name !in before && name.Previous? :: name in saved
  }

  lemma SavedAreRemovable(before: Files, files: Files, plan: Plan, kept: seq<Option<Name>>)
    requires SavedOrOld(before, files, plan.transaction, kept)
    requires forall k | 0 <= k < |kept| :: kept[k] == SavedAs(ROLES[k], plan)
    ensures Removable(before, files, plan, SomeNames(kept))
    ensures forall name | name in SomeNames(kept) :: WorkFile(name, plan)
  {
    forall name | WorkFile(name, plan) && name in files && name !in before && name.Previous?
      ensures name in SomeNames(kept)
    {
      var k := match name.which case Config => 0 case Database => 1 case Wal => 2 case Shm => 3;
      assert Previous(ROLES[k], plan.transaction) == name && kept[k] == Some(name);
    }
  }

  /** Everything before the first journal: both candidates and every saved copy. */
  method PrepareFiles(disk: Disk, offer: Offer, transaction: string, ghost start: nat, ghost plan: Plan)
    returns (ok: bool, journal: Journal, saved: seq<Name>)
    requires disk.Valid() && start == |disk.states| && Idle(disk.files, plan)
    requires offer == plan.offer && transaction == plan.transaction
    modifies disk
    ensures disk.Valid() && old(disk.states) <= disk.states
    ensures StayedIdle(disk.states, start, plan) && Idle(disk.files, plan)
    ensures forall name | name in saved :: WorkFile(name, plan)
    ensures ok ==>
              journal == JournalFor(plan, Prepared) && SavedFirst(disk.files, plan, 4) &&
              Look(disk.files, Candidate(Config, transaction)) == Some(Data(offer.config)) &&
              Look(disk.files, Candidate(Database, transaction)) == Some(Data(offer.database)) &&
              (forall name :: name in saved <==> exists which: Which :: SavedAs(which, plan) == Some(name))
    ensures disk.reliable ==> Removable(old(disk.files), disk.files, plan, saved)
    ensures disk.reliable && Unused(old(disk.files), transaction) && Plain(plan.before) ==> ok
  {
    journal := BareJournal(offer, transaction);
    var kept: seq<Option<Name>> := [];
    ok := StagePair(disk, journal, offer, start, plan);
    ghost var staged := disk.files;
    assert forall which: Which :: Look(staged, Previous(which, transaction)) == Look(old(disk.files), Previous(which, transaction));
    assert forall name: Name | name.Previous? :: name in staged <==> name in old(disk.files);
    if ok {
      ok, kept := PreserveAll(disk, transaction, start, plan);
    }
    assert disk.reliable ==> SavedOrOld(old(disk.files), disk.files, transaction, kept);
    if disk.reliable {
      SavedAreRemovable(old(disk.files), disk.files, plan, kept);
    }
    saved := SomeNames(kept);
    if ok {
      journal := WithSaved(journal, kept);
      RecordsWhatWasSaved(plan, kept);
      forall name
        ensures name in saved <==> exists which: Which :: SavedAs(which, plan) == Some(name)
      {
        EveryRole(kept, plan, name);
      }
      ok := disk.Works();
    }
  }

  /** Staging and the first journal.  Refused leaves every live file as it was, with no journal, and on a
      reliable disk none of the files it made. */
  method Prepare(disk: Disk, offer: Offer, transaction: string, ghost start: nat, ghost plan: Plan)
    returns (result: Publication, journal: Journal, saved: seq<Name>)
    requires disk.Valid() && start == |disk.states| && Idle(disk.files, plan)
    requires offer == plan.offer && transaction == plan.transaction
    modifies disk
    ensures disk.Valid() && old(disk.states) <= disk.states && Kept(disk.states, start, plan)
    ensures result.NotPublished? ==> Idle(disk.files, plan)
    ensures disk.reliable && result.NotPublished? ==>
              forall name | WorkFile(name, plan) && name in disk.files :: name in old(disk.files)
    ensures disk.reliable && Unused(old(disk.files), transaction) && Plain(plan.before) ==> result.Published?
    ensures !result.NotPublished? ==>
              CrashSafe(disk.files, plan) && journal == JournalFor(plan, Prepared) && JournalFile in disk.files &&
              disk.files[JournalFile] == Encoded(journal) && Candidate(Config, transaction) in disk.files &&
              (forall name :: name in saved <==> exists which: Which :: SavedAs(which, plan) == Some(name))
  {
    var ok;
    ok, journal, saved := PrepareFiles(disk, offer, transaction, start, plan);
    assert forall k | start <= k < |disk.states| :: Idle(disk.states[k], plan) && CrashSafe(disk.states[k], plan);
    if ok {
      FirstJournal(disk.files, plan);
      result := disk.WriteJournal(journal);
      if !result.NotPublished? {
        return;
      }
    }
    var created := [Candidate(Config, transaction), Candidate(Database, transaction)] + saved;
    DropStaged(disk, created, start, plan);
    assert created[0] in created && created[1] in created && forall name | name in saved :: name in created;
    assert forall k | start <= k < |disk.states| :: Idle(disk.states[k], plan) && CrashSafe(disk.states[k], plan);
    result := NotPublished;
  }

  lemma EveryRole(kept: seq<Option<Name>>, plan: Plan, name: Name)
    requires |kept| == 4 && forall k | 0 <= k < 4 :: kept[k] == SavedAs(ROLES[k], plan)
    ensures Some(name) in kept <==> exists which: Which :: SavedAs(which, plan) == Some(name)
  {
    if which: Which :| SavedAs(which, plan) == Some(name) {
      var k := match which case Config => 0 case Database => 1 case Wal => 2 case Shm => 3;
      assert kept[k] == SavedAs(ROLES[k], plan) && ROLES[k] == which;
    }
  }

  /** The config is committed: the sidecars go, and the phase after that is recorded. */
  method Detach(disk: Disk, committed: Journal, ghost start: nat, ghost plan: Plan)
    returns (ok: bool, journal: Journal)
    requires disk.Valid() && 0 < start <= |disk.states| && Converges(disk.states, start, plan, NewLive(plan.offer))
    requires CrashSafe(disk.files, plan) && Resolve(disk.files) == NewLive(plan.offer) && JournalFile in disk.files
    requires committed == JournalFor(plan, ConfigCommitted) && disk.files[JournalFile] == Encoded(committed)
    modifies disk
    ensures disk.Valid() && old(disk.states) <= disk.states && Converges(disk.states, start, plan, NewLive(plan.offer))
    ensures CrashSafe(disk.files, plan) && Resolve(disk.files) == NewLive(plan.offer)
    ensures ok ==> journal == JournalFor(plan, SidecarsDetached) && JournalFile in disk.files &&
                   disk.files[JournalFile] == Encoded(journal) && DatabasePending(disk.files, plan)
    ensures disk.reliable ==> ok
  {
    journal := committed;
    ok := DetachSidecars(disk, start, plan);
    if ok {
      journal := journal.(phase := SidecarsDetached);
      ok := Advance(disk, SidecarsDetached, journal, start, plan);
    }
  }

  /** The sidecars are gone: the new database is published, checked, and the journal dropped. */
  method PublishDatabase(disk: Disk, detached: Journal, ghost start: nat, ghost plan: Plan) returns (ok: bool)
    requires disk.Valid() && 0 < start <= |disk.states| && Converges(disk.states, start, plan, NewLive(plan.offer))
    requires CrashSafe(disk.files, plan) && JournalFile in disk.files && DatabasePending(disk.files, plan)
    requires detached == JournalFor(plan, SidecarsDetached) && disk.files[JournalFile] == Encoded(detached)
    modifies disk
    ensures disk.Valid() && old(disk.states) <= disk.states && Converges(disk.states, start, plan, NewLive(plan.offer))
    ensures CrashSafe(disk.files, plan)
    ensures ok ==> JournalFile !in disk.files && LiveOf(disk.files) == NewLive(plan.offer) && Saved(disk.files, plan)
    ensures ok ==> NothingWaits(disk.files, plan.transaction)
    ensures disk.reliable ==> ok
  {
    ok := RenameDatabase(disk, detached, start, plan);
    if ok {
      ok := Advance(disk, DatabaseCommitted, detached.(phase := DatabaseCommitted), start, plan);
    }
    if ok {
      ok := disk.Works();  // the database check and the lease
    }
    if ok {
      ok := Finish(disk, start, detached.transaction, plan);
    }
  }

  /** The commit point: the config candidate becomes the live config. */
  method PublishConfig(disk: Disk, prepared: Journal, ghost start: nat, ghost plan: Plan) returns (ok: bool)
    requires disk.Valid() && 0 < start <= |disk.states| && Kept(disk.states, start, plan)
    requires CrashSafe(disk.files, plan) && JournalFile in disk.files && disk.files[JournalFile] == Encoded(prepared)
    requires prepared == JournalFor(plan, Prepared) && Candidate(Config, plan.transaction) in disk.files
    modifies disk
    ensures disk.Valid() && old(disk.states) <= disk.states && Kept(disk.states, start, plan)
    ensures CrashSafe(disk.files, plan)
    ensures ok ==> Resolve(disk.files) == NewLive(plan.offer) && ConfigInstalled(disk.files, plan) &&
                   PhaseState(disk.files, plan, ConfigCommitted) && JournalFile in disk.files &&
                   disk.files[JournalFile] == Encoded(prepared)
    ensures disk.reliable ==> ok
  {
    CommitConfig(disk.files, plan);
    ok := disk.PublishEntry(prepared.config);
  }

  /** From the first journal to the end: the config rename commits, the rest completes.  True only
      when the new files are live and the journal is gone. */
  method Publish(disk: Disk, prepared: Journal, ghost start: nat, ghost plan: Plan) returns (ok: bool)
    requires disk.Valid() && 0 < start <= |disk.states| && Kept(disk.states, start, plan)
    requires CrashSafe(disk.files, plan) && JournalFile in disk.files && disk.files[JournalFile] == Encoded(prepared)
    requires prepared == JournalFor(plan, Prepared) && Candidate(Config, plan.transaction) in disk.files
    modifies disk
    ensures disk.Valid() && old(disk.states) <= disk.states && Kept(disk.states, start, plan)
    ensures CrashSafe(disk.files, plan)
    ensures ok ==> JournalFile !in disk.files && LiveOf(disk.files) == NewLive(plan.offer) && Saved(disk.files, plan)
    ensures ok ==> NothingWaits(disk.files, plan.transaction)
    ensures disk.reliable ==> ok
  {
    ok := PublishConfig(disk, prepared, start, plan);
    if !ok {
      return;
    }
    ghost var committed := |disk.states|;
    var journal := prepared.(phase := ConfigCommitted);
    ok := Advance(disk, ConfigCommitted, journal, committed, plan);
    if ok {
      ok, journal := Detach(disk, journal, committed, plan);
    }
    if ok {
      ok := PublishDatabase(disk, journal, committed, plan);
    }
    assert forall k | committed <= k < |disk.states| :: CrashSafe(disk.states[k], plan);
  }

  /** installJournaled: complete whatever an earlier restore left pending, then restore the offer.
      In every state on the way the disk recovers either to what it already stood for or to the
      complete offer.  On a reliable disk an offer whose transaction id is new is installed. */
  method InstallJournaled(disk: Disk, offer: Offer, transaction: string, ghost pending: Plan) returns (result: Install)
    requires disk.Valid() && CrashSafe(disk.files, pending) && ValidTransaction(transaction)
    modifies disk
    ensures disk.Valid() && old(disk.states) <= disk.states
    ensures var plan := Plan(Resolve(old(disk.files)), offer, transaction);
            (forall k | |old(disk.states)| <= k < |disk.states| ::
               (CrashSafe(disk.states[k], pending) && Resolve(disk.states[k]) == plan.before) ||
               CrashSafe(disk.states[k], plan)) &&
            (result.Installed? ==>
               JournalFile !in disk.files && LiveOf(disk.files) == NewLive(offer) && Saved(disk.files, plan) &&
               NothingWaits(disk.files, transaction) &&
               (forall name :: name in result.saved <==> exists which: Which :: SavedAs(which, plan) == Some(name))) &&
            (result.Refused? ==> Resolve(disk.files) == plan.before) &&
            (disk.reliable && result.Refused? ==>
               forall name | WorkFile(name, plan) && name in disk.files :: name in old(disk.files)) &&
            (result.Interrupted? ==> CrashSafe(disk.files, plan)) &&
            (disk.reliable && Unused(old(disk.files), transaction) && Plain(plan.before) ==> result.Installed?)
  {
    ghost var plan := Plan(Resolve(disk.files), offer, transaction);
    var recovery := Recover(disk, pending);
    if recovery.Failed? {
      assert disk.states == old(disk.states) || Resolve(disk.states[|disk.states| - 1]) == plan.before;
      return Refused;
    }
    ghost var start := |disk.states|;
    var publication, journal, saved := Prepare(disk, offer, transaction, start, plan);
    if publication.NotPublished? {
      IdleIsCrashSafe(disk.files, plan);
      return Refused;
    }
    if publication.Unconfirmed? {
      return Interrupted;
    }
    var live := disk.Works();  // the context may be done
    if !live {
      return Interrupted;
    }
    var ok := Publish(disk, journal, start, plan);
    if !ok {
      return Interrupted;
    }
    return Installed(saved);
  }

  // ---------------------------------------------------------------- whole runs

  /** Recovery, stopped in the middle any number of times, and then once more.  Whatever it had done when
      it was stopped, the outcome is the one already decided at the start, which is also the one of a
      single undisturbed recovery. */
  method RecoverUntilDone(disk: Disk, ghost plan: Plan) returns (result: Recovery)
    requires disk.Valid() && CrashSafe(disk.files, plan)
    modifies disk
    ensures disk.Valid() && CrashSafe(disk.files, plan) && Resolve(disk.files) == Resolve(old(disk.files))
    ensures result in {NothingPending, Recovered, Failed}
    ensures !result.Failed? ==> JournalFile !in disk.files && LiveOf(disk.files) == Resolve(old(disk.files))
    ensures disk.reliable ==> !result.Failed?
  {
    var interruptions: nat := *;
    while interruptions > 0
      invariant disk.Valid() && CrashSafe(disk.files, plan) && Resolve(disk.files) == Resolve(old(disk.files))
    {
      ghost var settled := Resolve(disk.files);
      var from := |disk.states| - 1;
      result := Recover(disk, plan);
      assert forall k | from <= k < |disk.states| :: CrashSafe(disk.states[k], plan) && Resolve(disk.states[k]) == settled;
      disk.Stop(from);
      interruptions := interruptions - 1;
    }
    ghost var settled, from := Resolve(disk.files), |disk.states| - 1;
    result := Recover(disk, plan);
    assert forall k | from <= k < |disk.states| :: CrashSafe(disk.states[k], plan) && Resolve(disk.states[k]) == settled;
    assert disk.files == disk.states[|disk.states| - 1];
  }

  /** The live states a run may ever show: the first one, or one of the offers in full. */
  predicate Offered(live: Live, initial: Live, offers: seq<Offer>) {
    live == initial || exists i | 0 <= i < |offers| :: live == NewLive(offers[i])
  }

  /** Any number of restores and recoveries, each stopped anywhere.  Whenever the disk holds no
      journal it shows the complete first state or one complete offer. */
  method Campaign(disk: Disk, offers: seq<Offer>, transactions: seq<string>)
    requires disk.Valid() && JournalFile !in disk.files
    requires |transactions| == |offers| && forall t | t in transactions :: ValidTransaction(t)
    modifies disk
    ensures disk.Valid()
    ensures JournalFile !in disk.files ==> Offered(LiveOf(disk.files), LiveOf(old(disk.files)), offers)
    ensures disk.reliable ==> JournalFile !in disk.files
  {
    ghost var initial := LiveOf(disk.files);
    ghost var plan := Plan(initial, Offer([], []), seq(32, _ => '0'));
    for i := 0 to |offers|
      invariant disk.Valid() && CrashSafe(disk.files, plan)
      invariant Offered(Resolve(disk.files), initial, offers)
    {
      ghost var start := |disk.states| - 1;
      ghost var settled := Resolve(disk.files);
      var from := |disk.states| - 1;
      var recoverOnly: bool := *;
      if recoverOnly {
        var recovery := Recover(disk, plan);
        assert forall k | start <= k < |disk.states| :: CrashSafe(disk.states[k], plan) && Resolve(disk.states[k]) == settled;
        disk.Stop(from);
      } else {
        assert transactions[i] in transactions;
        ghost var next := Plan(settled, offers[i], transactions[i]);
        var result := InstallJournaled(disk, offers[i], transactions[i], plan);
        assert forall k | start <= k < |disk.states| ::
          (CrashSafe(disk.states[k], plan) && Resolve(disk.states[k]) == settled) || CrashSafe(disk.states[k], next);
        disk.Stop(from);
        if !(CrashSafe(disk.files, plan) && Resolve(disk.files) == settled) {
          plan := next;
          AllOrNothing(disk.files, plan);
        }
      }
    }
    var recovery := Recover(disk, plan);
  }
}

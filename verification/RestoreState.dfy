/** What a journaled restore leaves on disk at each of its steps, as predicates on the files alone. */
module RestoreState {
  import opened Wrappers
  import opened RestorePaths

  type Bytes = seq<int>

  /** A SHA-256 digest: no two contents share one, so the digest names its content. */
  datatype Digest = Sha256(preimage: Bytes)

  datatype Phase = Prepared | ConfigCommitted | SidecarsDetached | DatabaseCommitted

  datatype Entry = Entry(
    which: Which,
    candidate: Option<Name>,
    previous: Option<Name>,
    hadPrevious: bool,
    newSize: nat,
    newDigest: Option<Digest>)

  datatype Journal = Journal(
    version: nat,
    transaction: string,
    phase: Phase,
    config: Entry,
    database: Entry,
    sidecars: seq<Entry>)

  /** A file holds bytes, or the encoding of a journal. */
  datatype Content = Data(bytes: Bytes) | Encoded(journal: Journal)

  type Files = map<Name, Content>

  /** The pair of files a backup offers to install. */
  datatype Offer = Offer(config: Bytes, database: Bytes)

  /** The four live files, each present or absent. */
  datatype Live = Live(
    config: Option<Content>,
    database: Option<Content>,
    wal: Option<Content>,
    shm: Option<Content>)
  {
    function Of(which: Which): Option<Content> {
      match which
      case Config => config
      case Database => database
      case Wal => wal
      case Shm => shm
    }
  }

  /** One restore: the live files it starts from, what it installs, and its transaction id. */
  datatype Plan = Plan(before: Live, offer: Offer, transaction: string)

  const ROLES: seq<Which> := [Config, Database, Wal, Shm]

  function Look(files: Files, name: Name): Option<Content> {
    if name in files then Some(files[name]) else None
  }

  function LiveOf(files: Files): Live {
    Live(Look(files, Target(Config)), Look(files, Target(Database)), Look(files, Target(Wal)), Look(files, Target(Shm)))
  }

  /** The complete new state: both files of the offer, and no sidecar. */
  function NewLive(offer: Offer): Live {
    Live(Some(Data(offer.config)), Some(Data(offer.database)), None, None)
  }

  // ---------------------------------------------------------------- journals

  function SavedAs(which: Which, plan: Plan): Option<Name> {
    if plan.before.Of(which).Some? then Some(Previous(which, plan.transaction)) else None
  }

  function ReplacedEntry(which: Which, bytes: Bytes, plan: Plan): Entry {
    Entry(which, Some(Candidate(which, plan.transaction)), SavedAs(which, plan), plan.before.Of(which).Some?,
          |bytes|, Some(Sha256(bytes)))
  }

  function RemovedEntry(which: Which, plan: Plan): Entry {
    Entry(which, None, SavedAs(which, plan), plan.before.Of(which).Some?, 0, None)
  }

  /** The journal a restore writes in a given phase. */
  function JournalFor(plan: Plan, phase: Phase): Journal {
    Journal(1, plan.transaction, phase,
            ReplacedEntry(Config, plan.offer.config, plan),
            ReplacedEntry(Database, plan.offer.database, plan),
            [RemovedEntry(Wal, plan), RemovedEntry(Shm, plan)])
  }

  predicate AnyHexDigit(c: char) {
    HexDigit(c) || 'A' <= c <= 'F'
  }

  predicate ValidSaved(entry: Entry, transaction: string, files: Files) {
    if entry.hadPrevious then
      entry.previous == Some(Previous(entry.which, transaction)) && Previous(entry.which, transaction) in files
    else
      entry.previous.None?
  }

  predicate ValidReplaced(entry: Entry, which: Which, transaction: string, files: Files) {
    entry.which == which && entry.candidate == Some(Candidate(which, transaction)) && entry.newDigest.Some? &&
    ValidSaved(entry, transaction, files)
  }

  predicate ValidRemoved(entry: Entry, which: Which, transaction: string, files: Files) {
    entry.which == which && entry.candidate.None? && entry.newSize == 0 && entry.newDigest.None? &&
    ValidSaved(entry, transaction, files)
  }

  /** The checks recovery makes on a decoded journal before it acts on it. */
  predicate ValidJournal(journal: Journal, files: Files) {
    && journal.version == 1
    && |journal.transaction| == 32
    && (forall i | 0 <= i < 32 :: AnyHexDigit(journal.transaction[i]))
    && |journal.sidecars| == 2
    && ValidReplaced(journal.config, Config, journal.transaction, files)
    && ValidReplaced(journal.database, Database, journal.transaction, files)
    && ValidRemoved(journal.sidecars[0], Wal, journal.transaction, files)
    && ValidRemoved(journal.sidecars[1], Shm, journal.transaction, files)
  }

  /** A file has exactly the size and digest an entry announces. */
  predicate Matches(files: Files, name: Name, entry: Entry) {
    name in files && files[name].Data? && |files[name].bytes| == entry.newSize &&
    entry.newDigest == Some(Sha256(files[name].bytes))
  }

  // ---------------------------------------------------------------- crash states

  /** Every live file that existed has its saved copy. */
  ghost predicate Saved(files: Files, plan: Plan) {
    forall which: Which :: plan.before.Of(which).Some? ==> Look(files, Previous(which, plan.transaction)) == plan.before.Of(which)
  }

  /** The new database waits in its candidate, or is already live. */
  predicate DatabasePending(files: Files, plan: Plan) {
    Look(files, Candidate(Database, plan.transaction)) == Some(Data(plan.offer.database)) &&
    Look(files, Target(Database)) == plan.before.database
  }

  predicate DatabaseInstalled(files: Files, plan: Plan) {
    Look(files, Target(Database)) == Some(Data(plan.offer.database))
  }

  predicate ConfigInstalled(files: Files, plan: Plan) {
    Candidate(Config, plan.transaction) !in files &&
    Look(files, Target(Config)) == Some(Data(plan.offer.config))
  }

  predicate SidecarsGone(files: Files) {
    Target(Wal) !in files && Target(Shm) !in files
  }

  /** A sidecar is only ever removed, never changed. */
  predicate SidecarsRemain(files: Files, plan: Plan) {
    Look(files, Target(Wal)) in {plan.before.wal, None} && Look(files, Target(Shm)) in {plan.before.shm, None}
  }

  predicate PhaseState(files: Files, plan: Plan, phase: Phase) {
    match phase
    case Prepared =>
      DatabasePending(files, plan) &&
      Look(files, Target(Wal)) == plan.before.wal && Look(files, Target(Shm)) == plan.before.shm &&
      (ConfigInstalled(files, plan) ||
       (Look(files, Candidate(Config, plan.transaction)) == Some(Data(plan.offer.config)) &&
        Look(files, Target(Config)) == plan.before.config))
    case ConfigCommitted =>
      DatabasePending(files, plan) && ConfigInstalled(files, plan) && SidecarsRemain(files, plan)
    case SidecarsDetached =>
      (DatabasePending(files, plan) || DatabaseInstalled(files, plan)) &&
      ConfigInstalled(files, plan) && SidecarsGone(files)
    case DatabaseCommitted =>
      DatabaseInstalled(files, plan) && ConfigInstalled(files, plan) && SidecarsGone(files)
  }

  /** No candidate of the restore waits to be published. */
  predicate NothingWaits(files: Files, transaction: string) {
    Candidate(Config, transaction) !in files && Candidate(Database, transaction) !in files
  }

  /** The states a restore may be stopped in. */
  ghost predicate CrashSafe(files: Files, plan: Plan) {
    ValidTransaction(plan.transaction) &&
    if JournalFile in files then
      files[JournalFile].Encoded? &&
      var journal := files[JournalFile].journal;
      journal == JournalFor(plan, journal.phase) && Saved(files, plan) && PhaseState(files, plan, journal.phase)
    else
      LiveOf(files) == plan.before ||
      (LiveOf(files) == NewLive(plan.offer) && Saved(files, plan) && NothingWaits(files, plan.transaction))
  }

  /** The live files an undisturbed recovery leaves, read off the disk without knowing the plan. */
  function Resolve(files: Files): Live {
    match Look(files, JournalFile)
    case None => LiveOf(files)
    case Some(Data(_)) => LiveOf(files)
    case Some(Encoded(journal)) =>
      if journal.phase.Prepared? && Candidate(Config, journal.transaction) in files then
        LiveOf(files)
      else if journal.config.newDigest.Some? && journal.database.newDigest.Some? then
        NewLive(Offer(journal.config.newDigest.value.preimage, journal.database.newDigest.value.preimage))
      else
        LiveOf(files)
  }

  function Rank(phase: Phase): nat {
    match phase
    case Prepared => 3
    case ConfigCommitted => 2
    case SidecarsDetached => 1
    case DatabaseCommitted => 0
  }

  function Present(files: Files, name: Name): nat {
    if name in files then 1 else 0
  }

  /** How much recovery work a disk holds: every file operation of a recovery that changes
      anything lowers it. */
  function Work(files: Files, transaction: string): nat {
    (match Look(files, JournalFile)
     case None => 0
     case Some(Data(_)) => 1
     case Some(Encoded(journal)) => 1 + Rank(journal.phase)) +
    Present(files, Candidate(Config, transaction)) + Present(files, Candidate(Database, transaction)) +
    Present(files, Target(Wal)) + Present(files, Target(Shm)) +
    Present(files, Previous(Config, transaction)) + Present(files, Previous(Database, transaction)) +
    Present(files, Previous(Wal, transaction)) + Present(files, Previous(Shm, transaction))
  }

  // ---------------------------------------------------------------- what the crash states promise

  /** With no journal on disk the live files are the complete old ones or the complete new ones. */
  lemma AllOrNothing(files: Files, plan: Plan)
    requires CrashSafe(files, plan)
    ensures JournalFile !in files ==> LiveOf(files) == plan.before || LiveOf(files) == NewLive(plan.offer)
    ensures Resolve(files) == plan.before || Resolve(files) == NewLive(plan.offer)
  {
  }

  /** A database other than the old one never stands beside a sidecar. */
  lemma NewDatabaseHasNoOldSidecar(files: Files, plan: Plan)
    requires CrashSafe(files, plan)
    ensures Look(files, Target(Database)) != plan.before.database ==> SidecarsGone(files)
  {
  }

  /** The old bytes of a file are at its target or in its saved copy. */
  lemma OldBytesAreKept(files: Files, plan: Plan, which: Which)
    requires CrashSafe(files, plan)
    requires plan.before.Of(which).Some?
    ensures plan.before.Of(which) in {Look(files, Target(which)), Look(files, Previous(which, plan.transaction))}
  {
    if JournalFile !in files && LiveOf(files) == plan.before {
      assert LiveOf(files).Of(which) == Look(files, Target(which));
    }
  }

  /** Recovery accepts the journal of every state a restore may be stopped in. */
  lemma ReachableJournalIsValid(files: Files, plan: Plan)
    requires CrashSafe(files, plan) && JournalFile in files
    ensures files[JournalFile].Encoded? && ValidJournal(files[JournalFile].journal, files)
  {
    forall which: Which | plan.before.Of(which).Some?
      ensures Previous(which, plan.transaction) in files
    {
      assert Look(files, Previous(which, plan.transaction)) == plan.before.Of(which);
    }
  }

  /** Neither refusal of recovery can be reached: past the commit point the live config is the
      announced one, and the announced database is live or waiting. */
  lemma NoRefusal(files: Files, plan: Plan)
    requires CrashSafe(files, plan) && JournalFile in files
    ensures var journal := files[JournalFile].journal;
            !(journal.phase.Prepared? && Candidate(Config, plan.transaction) in files) ==>
              Matches(files, Target(Config), journal.config) &&
              (Matches(files, Target(Database), journal.database) ||
               Matches(files, Candidate(Database, plan.transaction), journal.database))
  {
  }
}

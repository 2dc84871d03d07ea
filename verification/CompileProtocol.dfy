/** Storing, removing and deleting compiler-cache artifacts as a state machine
    (internal/compilecache/service.go: Put, Delete, invalidateEntry, invalidateStreamedEntry, the
    eviction transaction, the deletion queue and its worker, Reconcile).

    Any number of requests and workers interleave, the process may stop between any two steps and
    start again, database transactions happen or do not, object deletions may fail with or without
    effect, and objects may be damaged from outside.  Generated paths are fresh, and what an upload
    writes, however late, is written before its deferred deletion marker becomes due. */
module CompileProtocol {
  import opened Wrappers
  import opened CompileLedger
  import opened CompileEviction

  /** The path of one generation of an artifact, or its temporary name while it is written. */
  datatype Path = Path(artifact: Artifact, generation: nat, temporary: bool)

  datatype Entry = Entry(generation: nat, size: nat)

  datatype Config = Config(uploadTimeout: nat, limits: Limits)

  /** stagingCleanupGrace: five minutes, in seconds */
  const STAGING_GRACE := 300

  datatype UploadAt = Locking | Looked | Registered | Uploaded | Reserved | Cleaning(owing: bool) | Committed

  datatype Proc =
    | Upload(artifact: Artifact, size: nat, deadline: nat, at: UploadAt, previous: Option<Entry>, generation: nat)
    | Removal(artifact: Artifact, expected: Option<nat>, locked: bool)
    | Removed(artifact: Artifact, entry: Entry)
    | Sweep(doomed: set<Path>, deleted: set<Path>)

  /** rows, outbox and objects survive a stop; unused and landed record which paths have been generated
      and written, maker who generated a path, and damaged what was changed from outside. */
  datatype State = State(
    config: Config,
    rows: map<Artifact, Entry>,
    outbox: map<Path, nat>,
    objects: map<Path, nat>,
    gates: map<Artifact, nat>,
    procs: map<nat, Proc>,
    ledger: Ledger,
    owed: map<nat, Charge>,
    ready: bool,
    now: nat,
    unused: nat,
    landed: set<Path>,
    maker: map<nat, nat>,
    damaged: set<Path>)

  datatype Event =
    | BeginUpload(artifact: Artifact, size: nat)
    | BeginRemoval(artifact: Artifact, expected: Option<nat>)
    | BeginSweep(paths: set<Path>)
    | Lock | GiveUp
    | Register | PutReturns | Reserve | Commit | Fail | Clean(path: Path) | Settle
    | Remove
    | Delete(path: Path, ok: bool, effect: bool) | Acknowledge(path: Path)
    | Land(path: Path, size: nat) | Damage(path: Path, left: Option<nat>) | Tick
    | Stop | DropRow(artifact: Artifact, queued: bool) | DropOrphan(path: Path) | Recount | Start

  // ---------------------------------------------------------------- helpers

  function PathOf(artifact: Artifact, generation: nat): Path {
    Path(artifact, generation, false)
  }

  function TempOf(artifact: Artifact, generation: nat): Path {
    Path(artifact, generation, true)
  }

  predicate Referenced(s: State, path: Path) {
    !path.temporary && path.artifact in s.rows && s.rows[path.artifact].generation == path.generation
  }

  /** enqueueDeletion: a marker that is already there stays as it is. */
  function Enqueue(outbox: map<Path, nat>, path: Path, notBefore: nat): map<Path, nat> {
    if path in outbox then outbox else outbox[path := notBefore]
  }

  function Lookup(rows: map<Artifact, Entry>, artifact: Artifact): Option<Entry> {
    if artifact in rows then Some(rows[artifact]) else None
  }

  function SizeOf(entry: Option<Entry>): nat {
    if entry.Some? then entry.value.size else 0
  }

  /** What an upload has to reserve, and what is left over once it has replaced the previous entry. */
  function Need(u: Proc): Usage
    requires u.Upload?
  {
    Usage(if u.size > SizeOf(u.previous) then u.size - SizeOf(u.previous) else 0, if u.previous.None? then 1 else 0)
  }

  function Leftover(u: Proc): Usage
    requires u.Upload?
  {
    Usage(if SizeOf(u.previous) > u.size then SizeOf(u.previous) - u.size else 0, 0)
  }

  function Put(s: State, p: nat, proc: Proc): State {
    s.(procs := s.procs[p := proc])
  }

  function Release(s: State, p: nat): State {
    s.(ledger := if p in s.owed then AddTo(s.ledger, s.owed[p].namespace, s.owed[p].amount.Negated()) else s.ledger,
       owed := if p in s.owed then s.owed - {p} else s.owed)
  }

  function Charged(s: State, p: nat, namespace: string, amount: Usage): State {
    s.(ledger := AddTo(s.ledger, namespace, amount), owed := s.owed[p := Charge(namespace, amount)])
  }

  predicate Fits(s: State, namespace: string, amount: Usage) {
    Reading(s.ledger, Only(namespace)).Plus(amount).Within(s.config.limits.ForNamespace()) &&
    Reading(s.ledger, Everything).Plus(amount).Within(s.config.limits.max)
  }

  // ---------------------------------------------------------------- steps of an upload

  function RegisterStep(s: State, p: nat, u: Proc): State
    requires u.Upload?
  {
    var g, due := s.unused, s.now + s.config.uploadTimeout + STAGING_GRACE;
    var t := s.(outbox := s.outbox[PathOf(u.artifact, g) := due][TempOf(u.artifact, g) := due],
                unused := g + 1, maker := s.maker[g := p]);
    Put(t, p, u.(generation := g, at := Registered))
  }

  /** storage.Put returns without an error and every byte was there; a local Put has by then renamed
      the temporary file. */
  function PutReturnsStep(s: State, p: nat, u: Proc): State
    requires u.Upload?
  {
    var path, temp := PathOf(u.artifact, u.generation), TempOf(u.artifact, u.generation);
    if path in s.objects && s.objects[path] == u.size then
      Put(s.(objects := s.objects - {temp}, landed := s.landed + {temp}), p, u.(at := Uploaded))
    else Put(s, p, u.(at := Cleaning(false)))
  }

  function ReserveStep(s: State, p: nat, u: Proc): State
    requires u.Upload?
  {
    var namespace := u.artifact.namespace;
    if Need(u) == ZERO || Fits(s, namespace, Need(u)) then Put(Charged(s, p, namespace, Need(u)), p, u.(at := Reserved))
    else Put(s, p, u.(at := Cleaning(false)))
  }

  /** The transaction that makes an upload visible.  It carries the upload's deadline. */
  function CommitStep(s: State, p: nat, u: Proc): State
    requires u.Upload?
  {
    if s.now >= u.deadline then Put(s, p, u.(at := Cleaning(true)))
    else
      var cleared := s.outbox - {PathOf(u.artifact, u.generation), TempOf(u.artifact, u.generation)};
      var queued := if u.previous.Some? then Enqueue(cleared, PathOf(u.artifact, u.previous.value.generation), s.now) else cleared;
      Put(s.(rows := s.rows[u.artifact := Entry(u.generation, u.size)], outbox := queued,
             owed := s.owed[p := Charge(u.artifact.namespace, Leftover(u))]), p, u.(at := Committed))
  }

  /** The end of an upload: what it still owes is released and its gate let go.  After a commit the
      replaced object is deleted, after a failure the markers stay. */
  function SettleUpload(s: State, p: nat, u: Proc): State
    requires u.Upload?
  {
    Release(s, p).(
      gates := s.gates - {u.artifact},
      procs := if u.at.Committed? && u.previous.Some? then
                 s.procs[p := Sweep({PathOf(u.artifact, u.previous.value.generation)}, {})]
               else s.procs - {p})
  }

  function UploadStep(s: State, p: nat, u: Proc, e: Event): State
    requires u.Upload?
  {
    if e.Lock? && u.at.Locking? && u.artifact !in s.gates then
      Put(s.(gates := s.gates[u.artifact := p]), p, u.(at := Looked, previous := Lookup(s.rows, u.artifact)))
    else if e.GiveUp? && u.at.Locking? then s.(procs := s.procs - {p})
    else if e.GiveUp? && u.at.Looked? then s.(procs := s.procs - {p}, gates := s.gates - {u.artifact})
    else if e.Register? && u.at.Looked? then RegisterStep(s, p, u)
    else if e.PutReturns? && u.at.Registered? then PutReturnsStep(s, p, u)
    else if e.Reserve? && u.at.Uploaded? then ReserveStep(s, p, u)
    else if e.Commit? && u.at.Reserved? then CommitStep(s, p, u)
    else if e.Fail? && Live(u) then Put(s, p, u.(at := Cleaning(u.at.Reserved?)))
    else if e.Clean? && u.at.Cleaning? && e.path.artifact == u.artifact && e.path.generation == u.generation then
      s.(objects := s.objects - {e.path})
    else if e.Settle? && (u.at.Cleaning? || u.at.Committed?) then SettleUpload(s, p, u)
    else s
  }

  predicate Live(proc: Proc) {
    proc.Upload? && (proc.at.Registered? || proc.at.Uploaded? || proc.at.Reserved?)
  }

  // ---------------------------------------------------------------- removals and deletions

  /** Delete, an invalidation or an eviction: the row goes and its object is queued, in one
      transaction.  An invalidation after streaming expects the generation it has read. */
  function RemovalStep(s: State, p: nat, r: Proc, e: Event): State
    requires r.Removal?
  {
    if e.Lock? && !r.locked && r.artifact !in s.gates then Put(s.(gates := s.gates[r.artifact := p]), p, r.(locked := true))
    else if e.GiveUp? then s.(procs := s.procs - {p}, gates := if r.locked then s.gates - {r.artifact} else s.gates)
    else if e.Remove? && r.locked then
      if r.artifact in s.rows && (r.expected.None? || r.expected.value == s.rows[r.artifact].generation) then
        var entry := s.rows[r.artifact];
        Put(s.(rows := s.rows - {r.artifact}, outbox := Enqueue(s.outbox, PathOf(r.artifact, entry.generation), s.now),
               owed := s.owed[p := Charge(r.artifact.namespace, Usage(entry.size, 1))]), p, Removed(r.artifact, entry))
      else s.(procs := s.procs - {p}, gates := s.gates - {r.artifact})
    else s
  }

  function RemovedStep(s: State, p: nat, r: Proc, e: Event): State
    requires r.Removed?
  {
    if e.Settle? then
      Put(Release(s, p).(gates := s.gates - {r.artifact}), p, Sweep({PathOf(r.artifact, r.entry.generation)}, {}))
    else s
  }

  /** processDeletionPath, one path at a time; only a deletion that succeeded removes the record. */
  function SweepStep(s: State, p: nat, w: Proc, e: Event): State
    requires w.Sweep?
  {
    if e.Delete? && e.path in w.doomed then
      Put(s.(objects := if e.ok || e.effect then s.objects - {e.path} else s.objects), p,
          if e.ok then w.(deleted := w.deleted + {e.path}) else Sweep(w.doomed - {e.path}, w.deleted - {e.path}))
    else if e.Acknowledge? && e.path in w.deleted then
      Put(s.(outbox := s.outbox - {e.path}), p, Sweep(w.doomed - {e.path}, w.deleted - {e.path}))
    else if e.GiveUp? then s.(procs := s.procs - {p})
    else s
  }

  // ---------------------------------------------------------------- everything else

  /** What happens without a process of the service: an upload's bytes arrive, damage, time, a stop. */
  function Outside(s: State, e: Event): State {
    if e.Land? && e.path in s.outbox && s.now < s.outbox[e.path] && e.path !in s.landed then
      s.(objects := s.objects[e.path := e.size], landed := s.landed + {e.path})
    else if e.Damage? && e.path in s.objects then
      s.(objects := if e.left.Some? then s.objects[e.path := e.left.value] else s.objects - {e.path},
         damaged := s.damaged + {e.path})
    else if e.Tick? then s.(now := s.now + 1)
    else if e.Stop? then s.(procs := map[], gates := map[], owed := map[], ledger := EMPTY, ready := false)
    else s
  }

  function RowCharges(rows: map<Artifact, Entry>): map<Artifact, Charge> {
    map a | a in rows :: Charge(a.namespace, Usage(rows[a].size, 1))
  }

  /** The steps of Reconcile: a row goes, and its object is queued unless there is none; an object nobody
      refers to is queued; the ledger is set to that of the rows that are left; and the service starts,
      with such a ledger. */
  ghost function ReconcileStep(s: State, p: nat, e: Event): State {
    if s.ready || p in s.procs then s
    else if e.DropRow? && e.artifact in s.rows &&
            (PathOf(e.artifact, s.rows[e.artifact].generation) in s.objects ==> e.queued) then
      var path := PathOf(e.artifact, s.rows[e.artifact].generation);
      s.(rows := s.rows - {e.artifact},
         outbox := if e.queued then Enqueue(s.outbox, path, s.now) else s.outbox,
         procs := if e.queued then s.procs[p := Sweep({path}, {})] else s.procs)
    else if e.DropOrphan? && e.path in s.landed && !Referenced(s, e.path) then
      Put(s.(outbox := Enqueue(s.outbox, e.path, s.now)), p, Sweep({e.path}, {}))
    else if e.Recount? then s.(ledger := Rebuilt(s.rows))
    else if e.Start? then s.(ready := true, ledger := Rebuilt(s.rows))
    else s
  }

  ghost function Rebuilt(rows: map<Artifact, Entry>): Ledger
    decreases |rows|
  {
    if rows == map[] then EMPTY
    else
      var a :| a in rows;
      FewerRows(rows, a);
      AddTo(Rebuilt(rows - {a}), a.namespace, Usage(rows[a].size, 1))
  }

  lemma FewerRows(rows: map<Artifact, Entry>, a: Artifact)
    requires a in rows
    ensures |rows - {a}| == |rows| - 1
  {
    assert (rows - {a}).Keys == rows.Keys - {a};
  }

  function BeginStep(s: State, p: nat, e: Event): State {
    if !s.ready || p in s.procs then s
    else match e
      case BeginUpload(artifact, size) =>
        if size == 0 then s
        else Put(s, p, Upload(artifact, size, s.now + s.config.uploadTimeout, Locking, None, 0))
      case BeginRemoval(artifact, expected) => Put(s, p, Removal(artifact, expected, false))
      case BeginSweep(paths) =>  // the worker's list: records that are due
        Put(s, p, Sweep(set path | path in paths && path in s.outbox && s.outbox[path] <= s.now, {}))
      case _ => s
  }

  predicate IsOutside(e: Event) {
    e.Land? || e.Damage? || e.Tick? || e.Stop?
  }

  ghost function Next(s: State, p: nat, e: Event): State {
    if IsOutside(e) then Outside(s, e)
    else if e.DropRow? || e.DropOrphan? || e.Recount? || e.Start? then ReconcileStep(s, p, e)
    else if e.BeginUpload? || e.BeginRemoval? || e.BeginSweep? then BeginStep(s, p, e)
    else if p !in s.procs then s
    else match s.procs[p]
      case Upload(_, _, _, _, _, _) => UploadStep(s, p, s.procs[p], e)
      case Removal(_, _, _) => RemovalStep(s, p, s.procs[p], e)
      case Removed(_, _) => RemovedStep(s, p, s.procs[p], e)
      case Sweep(_, _) => SweepStep(s, p, s.procs[p], e)
  }

  ghost function Run(s: State, events: seq<(nat, Event)>): State
    decreases |events|
  {
    if events == [] then s else Run(Next(s, events[0].0, events[0].1), events[1..])
  }
}

/** Publication and revocation of one cache key (internal/cache/manager.go, package_invalidation.go
    and the guarded removal of retention.go) as a state machine.

    Any number of writers (first stores and overwriting refreshes), invalidations, snapshot readers
    and removals act on one database row and one stored object, in any interleaving.  There is no
    transaction across the two: a delete or a row write may fail, with or without having taken
    effect; a failed Put leaves the object as it was.  The registry transitions are the ones of
    InvalidationRegistry. */
module KeyProtocol {
  import opened Wrappers
  import opened InvalidationRegistry

  /** A written representation: who wrote it, and how many invalidations had begun when that write
      called beginWrite. */
  datatype Tag = Tag(writer: nat, epoch: nat)

  datatype WriterAt =
    | Fetching | WLocked | Checked | Loaded | Stored | Validated | Publishing | Written
    | Undoing | Removing(removal: nat) | RemovingObject(removal: nat, rowOk: bool) | Removed(removal: nat, safe: bool)
    | Discarding | DiscardingObject(rowOk: bool) | Discarded(safe: bool)
    | Committed | Failed | Aborting

  datatype InvalidatorAt =
    | Begun | ILocked | Deleting | DeletingObject(rowOk: bool) | Cleaned(safe: bool) | Finishing(safe: bool)

  datatype ReaderAt =
    | Waiting | RLocked | Admitted | Found(row: Tag) | Cleared(row: Tag, epoch: nat)

  datatype RemoverAt = Queued | MLocked | ObjectGone

  datatype Proc =
    | Writer(refresh: bool, generation: nat, tag: Tag, at: WriterAt)
    | Invalidator(revoked: nat, step: InvalidatorAt)
    | Reader(stage: ReaderAt)
    | Remover(part: RemoverAt)

  /** A snapshot read that returned: the row and the object it paired, and the number of
      invalidations that had begun at its last readable check. */
  datatype Read = Read(row: Tag, body: Tag, epoch: nat)

  /** The token of a write that has begun and not ended. */
  datatype WriteToken = WriteToken(generation: nat, epoch: nat)

  /** writes and revocations hold the tokens that are out, by process; epoch counts the invalidations
      that have ever begun. */
  datatype State = State(
    reg: Option<KeyState>,
    failClosed: bool,
    row: Option<Tag>,
    body: Option<Tag>,
    gate: Option<nat>,
    procs: map<nat, Proc>,
    writes: map<nat, WriteToken>,
    revocations: map<nat, nat>,
    epoch: nat,
    served: seq<Read>)

  datatype Event =
    | BeginWrite(refresh: bool)
    | BeginInvalidation
    | BeginRead
    | BeginRemoval
    | Lock
    | LockFails
    | Step(ok: bool, effect: bool)
    | Overflow

  // ---------------------------------------------------------------- the registry, seen from the key

  function BeginWriteReg(s: State, p: nat): State {
    s.(reg := Some(BeginWriteOn(s.reg)), writes := s.writes[p := WriteToken(StateOf(s.reg).generation, s.epoch)])
  }

  function BeginInvalidationReg(s: State, p: nat): State {
    s.(reg := Some(BeginInvalidationOn(s.reg)), epoch := s.epoch + 1,
       revocations := s.revocations[p := StateOf(s.reg).generation + 1])
  }

  function AbortReg(s: State, p: nat): State {
    if s.reg.None? then s
    else s.(reg := Settle(AbortOn(s.reg.value), s.failClosed), writes := s.writes - {p})
  }

  function CommitReg(s: State, p: nat): State {
    if s.reg.None? then s
    else s.(reg := Settle(CommitOn(s.reg.value), s.failClosed), writes := s.writes - {p})
  }

  function CleanupSafeReg(s: State): State {
    if s.reg.None? then s else s.(reg := Settle(CleanupSafeOn(s.reg.value), s.failClosed))
  }

  function FinishReg(s: State, p: nat, generation: nat, safe: bool): State {
    if s.reg.None? then s
    else s.(reg := Settle(FinishOn(s.reg.value, generation, safe), s.failClosed), revocations := s.revocations - {p})
  }

  predicate Readable(s: State) {
    !s.failClosed && (s.reg.Some? ==> !s.reg.value.tombstoned)
  }

  predicate Current(s: State, generation: nat) {
    s.reg.Some? && s.reg.value.generation == generation
  }

  // ---------------------------------------------------------------- steps

  function Put(s: State, p: nat, proc: Proc): State {
    s.(procs := s.procs[p := proc])
  }

  function Leave(s: State, p: nat): State {
    s.(procs := s.procs - {p})
  }

  function Unlock(s: State): State {
    s.(gate := None)
  }

  function WriterStep(s: State, p: nat, w: Proc, ok: bool, effect: bool): State
    requires w.Writer?
  {
    match w.at
    case Fetching => s
    case WLocked =>
      if !Current(s, w.generation) then Put(s, p, w.(at := Discarding))
      else Put(s, p, w.(at := if w.refresh then Checked else Loaded))
    case Checked =>  // a refresh reloads its row
      Put(s, p, w.(at := if ok && s.row.Some? then Loaded else Failed))
    case Loaded =>
      if ok then Put(s.(body := Some(w.tag)), p, w.(at := Stored)) else Put(s, p, w.(at := Failed))
    case Stored =>  // was the whole body consumed?
      Put(s, p, w.(at := if ok then Validated else Undoing))
    case Validated =>
      if !w.refresh && !Current(s, w.generation) then Put(s, p, w.(at := Discarding))
      else Put(s, p, w.(at := Publishing))
    case Publishing =>
      var wrote := (ok || effect) && (w.refresh ==> s.row.Some?);
      Put(if wrote then s.(row := Some(w.tag)) else s, p, w.(at := if ok && wrote then Written else Undoing))
    case Written =>  // commitWrite, unless the identity of the new row cannot be read back
      if !ok && !w.refresh then Put(s, p, w.(at := Failed))
      else if Current(s, w.generation) then Put(CommitReg(s, p), p, w.(at := Committed))
      else Put(s, p, w.(at := Discarding))
    case Undoing =>
      var t := BeginInvalidationReg(s, p);
      Put(t, p, w.(at := Removing(t.reg.value.generation)))
    case Removing(g) =>
      Put(if ok || effect then s.(row := None) else s, p, w.(at := RemovingObject(g, ok)))
    case RemovingObject(g, rowOk) =>
      Put(if ok || effect then s.(body := None) else s, p, w.(at := Removed(g, rowOk || ok)))
    case Removed(g, safe) =>
      Put(FinishReg(s, p, g, safe), p, w.(at := Failed))
    case Discarding =>
      Put(if ok || effect then s.(row := None) else s, p, w.(at := DiscardingObject(ok)))
    case DiscardingObject(rowOk) =>
      Put(if ok || effect then s.(body := None) else s, p, w.(at := Discarded(rowOk || ok)))
    case Discarded(safe) =>
      Put(if safe then CleanupSafeReg(s) else s, p, w.(at := Failed))
    case Committed => Leave(Unlock(s), p)
    case Failed => Put(Unlock(s), p, w.(at := Aborting))
    case Aborting => Leave(AbortReg(s, p), p)
  }

  function InvalidatorStep(s: State, p: nat, i: Proc, ok: bool, effect: bool): State
    requires i.Invalidator?
  {
    match i.step
    case Begun => s
    case ILocked =>
      if Current(s, i.revoked) && s.reg.value.tombstoned then Put(s, p, i.(step := Deleting))
      else Put(Unlock(s), p, i.(step := Finishing(false)))
    case Deleting =>
      Put(if ok || effect then s.(row := None) else s, p, i.(step := DeletingObject(ok)))
    case DeletingObject(rowOk) =>
      Put(if ok || effect then s.(body := None) else s, p, i.(step := Cleaned(rowOk || ok)))
    case Cleaned(safe) => Put(Unlock(s), p, i.(step := Finishing(safe)))
    case Finishing(safe) => Leave(FinishReg(s, p, i.revoked, safe), p)
  }

  function ReaderStep(s: State, p: nat, r: Proc, ok: bool): State
    requires r.Reader?
  {
    match r.stage
    case Waiting => s
    case RLocked => if Readable(s) then Put(s, p, Reader(Admitted)) else Leave(Unlock(s), p)
    case Admitted => if ok && s.row.Some? then Put(s, p, Reader(Found(s.row.value))) else Leave(Unlock(s), p)
    case Found(row) => if Readable(s) then Put(s, p, Reader(Cleared(row, s.epoch))) else Leave(Unlock(s), p)
    case Cleared(row, epoch) =>
      var t := Leave(Unlock(s), p);
      if ok && s.body.Some? then t.(served := s.served + [Read(row, s.body.value, epoch)]) else t
  }

  function RemoverStep(s: State, p: nat, m: Proc, ok: bool, effect: bool): State
    requires m.Remover?
  {
    match m.part
    case Queued => s
    case MLocked =>
      var t := if ok || effect then s.(body := None) else s;
      if ok then Put(t, p, Remover(ObjectGone)) else Leave(Unlock(t), p)
    case ObjectGone => Leave(Unlock(if ok || effect then s.(row := None) else s), p)
  }

  predicate AwaitsLock(proc: Proc) {
    match proc
    case Writer(_, _, _, at) => at.Fetching?
    case Invalidator(_, step) => step.Begun?
    case Reader(stage) => stage.Waiting?
    case Remover(part) => part.Queued?
  }

  function Locked(proc: Proc): Proc {
    match proc
    case Writer(_, _, _, _) => proc.(at := WLocked)
    case Invalidator(_, _) => proc.(step := ILocked)
    case Reader(_) => Reader(RLocked)
    case Remover(_) => Remover(MLocked)
  }

  /** What a process does that never gets the gate: a writer aborts, an invalidation finishes
      without a cleanup. */
  function NotLocked(s: State, p: nat, proc: Proc): State {
    match proc
    case Writer(_, _, _, _) => Put(s, p, proc.(at := Aborting))
    case Invalidator(_, _) => Put(s, p, proc.(step := Finishing(false)))
    case Reader(_) => Leave(s, p)
    case Remover(_) => Leave(s, p)
  }

  /** One event of process p; an event that is not possible changes nothing. */
  function Next(s: State, p: nat, e: Event): State {
    match e
    case BeginWrite(refresh) =>
      if p in s.procs then s
      else Put(BeginWriteReg(s, p), p, Writer(refresh, StateOf(s.reg).generation, Tag(p, s.epoch), Fetching))
    case BeginInvalidation =>
      if p in s.procs then s
      else Put(BeginInvalidationReg(s, p), p, Invalidator(StateOf(s.reg).generation + 1, Begun))
    case BeginRead => if p in s.procs then s else Put(s, p, Reader(Waiting))
    case BeginRemoval => if p in s.procs then s else Put(s, p, Remover(Queued))
    case Lock =>
      if p in s.procs && AwaitsLock(s.procs[p]) && s.gate.None? then
        Put(s.(gate := Some(p)), p, Locked(s.procs[p]))
      else s
    case LockFails =>
      if p in s.procs && AwaitsLock(s.procs[p]) then NotLocked(s, p, s.procs[p]) else s
    case Step(ok, effect) =>
      if p !in s.procs then s else
      (match s.procs[p]
       case Writer(_, _, _, _) => WriterStep(s, p, s.procs[p], ok, effect)
       case Invalidator(_, _) => InvalidatorStep(s, p, s.procs[p], ok, effect)
       case Reader(_) => ReaderStep(s, p, s.procs[p], ok)
       case Remover(_) => RemoverStep(s, p, s.procs[p], ok, effect))
    case Overflow => s.(failClosed := true, reg := Dropped(s.reg))
  }

  function Run(s: State, events: seq<(nat, Event)>): State
    decreases |events|
  {
    if events == [] then s else Run(Next(s, events[0].0, events[0].1), events[1..])
  }

  /** A manager that has just started over a store whose row and object belong together. */
  predicate Initial(s: State) {
    s.reg.None? && !s.failClosed && s.gate.None? && s.procs == map[] &&
    s.writes == map[] && s.revocations == map[] && s.epoch == 0 && s.served == [] &&
    (s.row.Some? && s.body.Some? ==> s.row == s.body && s.row.value.epoch == 0)
  }

  // ---------------------------------------------------------------- the invariant

  predicate HoldsWrite(proc: Proc) {
    proc.Writer? && !proc.at.Committed?
  }

  predicate HoldsInvalidation(proc: Proc) {
    proc.Invalidator? || (proc.Writer? && (proc.at.Removing? || proc.at.RemovingObject? || proc.at.Removed?))
  }

  function RevokedBy(proc: Proc): nat
    requires HoldsInvalidation(proc)
  {
    match proc
    case Invalidator(g, _) => g
    case Writer(_, _, _, at) => at.removal
  }

  predicate HoldsGate(proc: Proc) {
    match proc
    case Writer(_, _, _, at) => !at.Fetching? && !at.Aborting?
    case Invalidator(_, step) => !step.Begun? && !step.Finishing?
    case Reader(stage) => !stage.Waiting?
    case Remover(part) => !part.Queued?
  }

  /** A process holds exactly the tokens and the gate its place in the program says. */
  ghost predicate ProcInv(s: State, p: nat) {
    if p !in s.procs then p !in s.writes && p !in s.revocations && s.gate != Some(p)
    else
      var proc := s.procs[p];
      (HoldsWrite(proc) <==> p in s.writes) &&
      (HoldsWrite(proc) ==> s.writes[p] == WriteToken(proc.generation, proc.tag.epoch)) &&
      (HoldsInvalidation(proc) <==> p in s.revocations) &&
      (HoldsInvalidation(proc) ==> s.revocations[p] == RevokedBy(proc)) &&
      (HoldsGate(proc) <==> s.gate == Some(p))
  }

  /** A write is as many generations behind as invalidations have begun since. */
  ghost predicate TokenInv(s: State, p: nat) {
    (p in s.writes ==>
       s.reg.Some? && s.reg.value.generation - s.writes[p].generation == s.epoch - s.writes[p].epoch >= 0) &&
    (p in s.revocations ==> s.reg.Some? && s.revocations[p] <= s.reg.value.generation)
  }

  /** The registry counts the tokens that are out. */
  ghost predicate CountInv(s: State) {
    if s.reg.None? then s.writes == map[] && s.revocations == map[]
    else
      s.reg.value.writers == |s.writes| && s.reg.value.invalidations == |s.revocations| &&
      (s.reg.value.Idle() ==> s.reg.value.tombstoned && !s.reg.value.cleanupSafe)
  }

  /** A row and an object that are both present come from one write that no invalidation revoked. */
  predicate Paired(s: State) {
    s.row.Some? && s.body.Some? ==> s.row == s.body && s.row.value.epoch == s.epoch
  }

  /** An invalidation that has cleaned up safely and still has to say so, for the current generation. */
  predicate SafeFinishDue(s: State, p: nat) {
    p in s.procs &&
    match s.procs[p]
    case Invalidator(g, step) =>
      Current(s, g) && ((step.Cleaned? && step.safe) || (step.Finishing? && step.safe))
    case Writer(_, _, _, at) => at.Removed? && at.safe && Current(s, at.removal)
    case Reader(_) => false
    case Remover(_) => false
  }

  /** The key stays unreadable whatever finishes next. */
  ghost predicate Sealed(s: State) {
    s.failClosed ||
    (s.reg.Some? && s.reg.value.tombstoned && !s.reg.value.cleanupSafe && forall p :: !SafeFinishDue(s, p))
  }

  ghost predicate Quiet(s: State) {
    Paired(s) || Sealed(s)
  }

  /** What the gate holder has done so far to the row and the object. */
  ghost predicate HolderInv(s: State, proc: Proc) {
    match proc
    case Writer(_, g, tag, at) =>
      (match at
       case Fetching => true
       case Aborting => true
       case WLocked => Quiet(s)
       case Checked => Quiet(s) && (Current(s, g) || Sealed(s))
       case Loaded => Quiet(s) && (Current(s, g) || Sealed(s))
       case Stored => s.body == Some(tag) && (Current(s, g) || Sealed(s))
       case Validated => s.body == Some(tag) && (Current(s, g) || Sealed(s))
       case Publishing => s.body == Some(tag) && (Current(s, g) || Sealed(s))
       case Written => s.body == Some(tag) && s.row == Some(tag) && (Current(s, g) || Sealed(s))
       case Undoing => true
       case Removing(_) => Sealed(s)
       case RemovingObject(_, rowOk) => Sealed(s) && (rowOk ==> s.row.None?)
       case Removed(_, safe) => if safe then s.row.None? || s.body.None? else Sealed(s)
       case Discarding => Quiet(s)
       case DiscardingObject(rowOk) => Quiet(s) && (rowOk ==> s.row.None?)
       case Discarded(safe) => Quiet(s) && (safe ==> s.row.None? || s.body.None?)
       case Committed => Quiet(s)
       case Failed => Quiet(s))
    case Invalidator(_, step) =>
      Quiet(s) &&
      (step.DeletingObject? && step.rowOk ==> s.row.None?) &&
      (step.Cleaned? && step.safe ==> s.row.None? || s.body.None?)
    case Reader(stage) =>
      Quiet(s) &&
      (stage.Found? ==> s.row == Some(stage.row)) &&
      (stage.Cleared? ==> s.body.Some? ==> s.body == Some(stage.row) && stage.row.epoch == stage.epoch)
    case Remover(_) => Quiet(s)
  }

  predicate ReadsInv(s: State) {
    forall r | r in s.served :: r.row == r.body && r.body.epoch == r.epoch
  }

  ghost predicate TokensInv(s: State) {
    CountInv(s) && (forall p :: ProcInv(s, p)) && (forall p :: TokenInv(s, p))
  }

  ghost predicate WorkInv(s: State) {
    match s.gate
    case None => Quiet(s)
    case Some(p) => p in s.procs && HolderInv(s, s.procs[p])
  }

  ghost predicate Inv(s: State) {
    TokensInv(s) && ReadsInv(s) && WorkInv(s)
  }
}

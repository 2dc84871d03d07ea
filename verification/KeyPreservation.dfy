/** Every step of every process on a cache key keeps the invariant of the protocol. */
module KeyPreservation {
  import opened Wrappers
  import opened InvalidationRegistry
  import opened KeyProtocol

  // ---------------------------------------------------------------- preservation

  lemma SizeOfChange<T>(m: map<nat, T>, p: nat, v: T)
    ensures |m[p := v]| == |m| + (if p in m then 0 else 1)
    ensures |m - {p}| == |m| - (if p in m then 1 else 0)
  {
    assert m.Keys + {p} == m[p := v].Keys;
    assert (m - {p}).Keys == m.Keys - {p};
    if p in m {
      assert m.Keys + {p} == m.Keys;
    } else {
      assert m.Keys - {p} == m.Keys;
    }
  }

  /** A step that moves process p, keeps its tokens and leaves the registry alone. */
  function Moved(s: State, p: nat, proc: Proc, row: Option<Tag>, body: Option<Tag>, gate: Option<nat>): State {
    s.(procs := s.procs[p := proc], row := row, body := body, gate := gate)
  }

  lemma MovedKeepsTokens(s: State, p: nat, proc: Proc, row: Option<Tag>, body: Option<Tag>, gate: Option<nat>)
    requires TokensInv(s) && p in s.procs
    requires HoldsWrite(proc) == HoldsWrite(s.procs[p]) && HoldsInvalidation(proc) == HoldsInvalidation(s.procs[p])
    requires HoldsWrite(proc) ==>
               s.procs[p].Writer? && proc.generation == s.procs[p].generation && proc.tag == s.procs[p].tag
    requires HoldsInvalidation(proc) ==> RevokedBy(proc) == RevokedBy(s.procs[p])
    requires HoldsGate(proc) <==> gate == Some(p)
    requires gate == s.gate || {gate, s.gate} == {None, Some(p)}
    ensures var t := Moved(s, p, proc, row, body, gate);
            TokensInv(t) && (Sealed(s) && !SafeFinishDue(t, p) ==> Sealed(t))
  {
    var t := Moved(s, p, proc, row, body, gate);
    assert ProcInv(s, p);
    forall q
      ensures ProcInv(t, q) && TokenInv(t, q)
      ensures q != p ==> SafeFinishDue(t, q) == SafeFinishDue(s, q)
    {
      assert ProcInv(s, q) && TokenInv(s, q);
    }
  }

  /** The writer steps up to the commit that leave the registry alone: until the object is stored... */
  lemma WriterStores(s: State, p: nat, ok: bool, effect: bool)
    requires Inv(s) && p in s.procs && s.procs[p].Writer? && s.procs[p].at in {WLocked, Checked, Loaded}
    ensures Inv(WriterStep(s, p, s.procs[p], ok, effect))
  {
    var t := WriterStep(s, p, s.procs[p], ok, effect);
    assert ProcInv(s, p) && TokenInv(s, p);
    MovedKeepsTokens(s, p, t.procs[p], t.row, t.body, t.gate);
    assert t == Moved(s, p, t.procs[p], t.row, t.body, t.gate);
  }

  /** ...from there to the row... */
  lemma WriterPublishes(s: State, p: nat, ok: bool, effect: bool)
    requires Inv(s) && p in s.procs && s.procs[p].Writer? && s.procs[p].at in {Stored, Validated, Publishing}
    ensures Inv(WriterStep(s, p, s.procs[p], ok, effect))
  {
    var t := WriterStep(s, p, s.procs[p], ok, effect);
    assert ProcInv(s, p) && TokenInv(s, p);
    MovedKeepsTokens(s, p, t.procs[p], t.row, t.body, t.gate);
    assert t == Moved(s, p, t.procs[p], t.row, t.body, t.gate);
  }

  /** ...and when the commit is refused. */
  lemma WriterIsRefused(s: State, p: nat, ok: bool, effect: bool)
    requires Inv(s) && p in s.procs && s.procs[p].Writer? && s.procs[p].at.Written?
    requires !(Current(s, s.procs[p].generation) && (ok || s.procs[p].refresh))
    ensures Inv(WriterStep(s, p, s.procs[p], ok, effect))
  {
    var t := WriterStep(s, p, s.procs[p], ok, effect);
    assert ProcInv(s, p) && TokenInv(s, p);
    MovedKeepsTokens(s, p, t.procs[p], t.row, t.body, t.gate);
    assert t == Moved(s, p, t.procs[p], t.row, t.body, t.gate);
  }

  /** The writer steps that take its own representation down again and leave the registry alone. */
  lemma WriterRemoves(s: State, p: nat, ok: bool, effect: bool)
    requires Inv(s) && p in s.procs && s.procs[p].Writer?
    requires s.procs[p].at.Removing? || s.procs[p].at.RemovingObject? || s.procs[p].at.Failed?
    ensures Inv(WriterStep(s, p, s.procs[p], ok, effect))
  {
    var t := WriterStep(s, p, s.procs[p], ok, effect);
    assert ProcInv(s, p) && TokenInv(s, p);
    MovedKeepsTokens(s, p, t.procs[p], t.row, t.body, t.gate);
    assert t == Moved(s, p, t.procs[p], t.row, t.body, t.gate);
  }

  /** The same for a representation that an invalidation has superseded. */
  lemma WriterDiscards(s: State, p: nat, ok: bool, effect: bool)
    requires Inv(s) && p in s.procs && s.procs[p].Writer?
    requires var at := s.procs[p].at; at.Discarding? || at.DiscardingObject? || (at.Discarded? && !at.safe)
    ensures Inv(WriterStep(s, p, s.procs[p], ok, effect))
  {
    var t := WriterStep(s, p, s.procs[p], ok, effect);
    assert ProcInv(s, p) && TokenInv(s, p);
    MovedKeepsTokens(s, p, t.procs[p], t.row, t.body, t.gate);
    assert t == Moved(s, p, t.procs[p], t.row, t.body, t.gate);
  }

  function Updated<T>(m: map<nat, T>, p: nat, v: Option<T>): map<nat, T> {
    if v.Some? then m[p := v.value] else m - {p}
  }

  ghost predicate SameAt<T>(m: map<nat, T>, n: map<nat, T>, q: nat) {
    (q in m <==> q in n) && (q in m ==> m[q] == n[q])
  }

  /** A process the step does not touch. */
  lemma Bystander(s: State, t: State, p: nat, q: nat)
    requires p != q && ProcInv(s, q) && TokenInv(s, q)
    requires SameAt(s.procs, t.procs, q) && SameAt(s.writes, t.writes, q) && SameAt(s.revocations, t.revocations, q)
    requires t.gate == s.gate || {t.gate, s.gate} == {None, Some(p)}
    requires s.reg.Some? && t.reg.Some? ==>
               t.reg.value.generation - s.reg.value.generation == t.epoch - s.epoch >= 0
    requires t.reg.None? ==> t.writes == map[] && t.revocations == map[]
    ensures ProcInv(t, q) && TokenInv(t, q)
    ensures SafeFinishDue(t, q) ==> SafeFinishDue(s, q) && t.epoch == s.epoch
  {
    assert t.gate == Some(q) <==> s.gate == Some(q);
  }

  lemma ReplacedKeepsTokens(s: State, t: State, p: nat, proc: Option<Proc>, token: Option<WriteToken>, revoked: Option<nat>)
    requires TokensInv(s)
    requires t.procs == Updated(s.procs, p, proc) && t.writes == Updated(s.writes, p, token)
    requires t.revocations == Updated(s.revocations, p, revoked)
    requires CountInv(t) && ProcInv(t, p) && TokenInv(t, p)
    requires t.gate == s.gate || {t.gate, s.gate} == {None, Some(p)}
    requires s.reg.Some? && t.reg.Some? ==>
               t.reg.value.generation - s.reg.value.generation == t.epoch - s.epoch >= 0
    ensures TokensInv(t)
    ensures forall q | q != p && SafeFinishDue(t, q) :: SafeFinishDue(s, q) && t.epoch == s.epoch
  {
    forall q
      ensures ProcInv(t, q) && TokenInv(t, q)
      ensures q != p && SafeFinishDue(t, q) ==> SafeFinishDue(s, q) && t.epoch == s.epoch
    {
      if q != p {
        Bystander(s, t, p, q);
      }
    }
  }

  /** Right after an invalidation has begun no earlier cleanup can be called safe any more. */
  lemma NothingDueAfter(s: State, t: State, p: nat)
    requires t.epoch != s.epoch && !SafeFinishDue(t, p)
    requires forall q | q != p && SafeFinishDue(t, q) :: SafeFinishDue(s, q) && t.epoch == s.epoch
    ensures forall q :: !SafeFinishDue(t, q)
  {
  }

  lemma NothingToDrop<T>(m: map<nat, T>, p: nat)
    requires p !in m
    ensures m - {p} == m
  {
  }

  lemma NothingToSet<T>(m: map<nat, T>, p: nat)
    requires p in m
    ensures m[p := m[p]] == m
  {
  }

  /** A step of another process does not change what the gate holder has achieved. */
  lemma HolderStable(s: State, t: State, proc: Proc)
    requires HolderInv(s, proc) && t.row == s.row && t.body == s.body
    requires Quiet(s) ==> Quiet(t)
    requires Sealed(s) ==> Sealed(t)
    requires proc.Writer? && HoldsWrite(proc) && Current(s, proc.generation) ==> Current(t, proc.generation) || Sealed(t)
    ensures HolderInv(t, proc)
  {
  }

  lemma CommitKeepsTokens(s: State, p: nat, w: Proc)
    requires TokensInv(s) && p in s.procs && s.procs[p] == w && w.Writer? && w.at.Written? && Current(s, w.generation)
    ensures TokensInv(Put(CommitReg(s, p), p, w.(at := Committed)))
  {
    var t := Put(CommitReg(s, p), p, w.(at := Committed));
    CommitCounts(s, p, w);
    NothingToDrop(s.revocations, p);
    ReplacedKeepsTokens(s, t, p, Some(w.(at := Committed)), None, None);
  }

  lemma CommitCounts(s: State, p: nat, w: Proc)
    requires TokensInv(s) && p in s.procs && s.procs[p] == w && w.Writer? && w.at.Written? && Current(s, w.generation)
    ensures var t := Put(CommitReg(s, p), p, w.(at := Committed));
            CountInv(t) && ProcInv(t, p) && TokenInv(t, p) && p !in s.revocations
  {
    assert ProcInv(s, p) && TokenInv(s, p);
    SizeOfChange(s.writes, p, s.writes[p]);
  }

  /** commitWrite */
  lemma WriterCommits(s: State, p: nat, w: Proc)
    requires Inv(s) && p in s.procs && s.procs[p] == w && w.Writer? && w.at.Written? && Current(s, w.generation)
    ensures Inv(Put(CommitReg(s, p), p, w.(at := Committed)))
  {
    CommitKeepsTokens(s, p, w);
    assert ProcInv(s, p) && TokenInv(s, p);
  }

  function RevokedByWriter(s: State, p: nat, w: Proc): State
    requires w.Writer?
  {
    Put(BeginInvalidationReg(s, p), p, w.(at := Removing(StateOf(s.reg).generation + 1)))
  }

  lemma RevokingKeepsTokens(s: State, p: nat, w: Proc)
    requires TokensInv(s) && p in s.procs && s.procs[p] == w && w.Writer? && w.at.Undoing?
    ensures var t := RevokedByWriter(s, p, w);
            TokensInv(t) && forall q :: !SafeFinishDue(t, q)
  {
    var g := StateOf(s.reg).generation + 1;
    var t := RevokedByWriter(s, p, w);
    assert ProcInv(s, p) && TokenInv(s, p);
    SizeOfChange(s.revocations, p, g);
    NothingToSet(s.writes, p);
    ReplacedKeepsTokens(s, t, p, Some(t.procs[p]), Some(s.writes[p]), Some(g));
    NothingDueAfter(s, t, p);
  }

  /** the invalidation with which a writer starts to take its own object down */
  lemma WriterRevokes(s: State, p: nat, w: Proc)
    requires Inv(s) && p in s.procs && s.procs[p] == w && w.Writer? && w.at.Undoing?
    ensures var t := BeginInvalidationReg(s, p);
            Inv(Put(t, p, w.(at := Removing(t.reg.value.generation))))
  {
    var t := RevokedByWriter(s, p, w);
    assert ProcInv(s, p) && TokenInv(s, p);
    RevokingKeepsTokens(s, p, w);
    assert Sealed(t);
  }

  /** the end of that invalidation, still under the gate */
  lemma WriterFinishesRevocation(s: State, p: nat, w: Proc)
    requires Inv(s) && p in s.procs && s.procs[p] == w && w.Writer? && w.at.Removed?
    ensures Inv(Put(FinishReg(s, p, w.at.removal, w.at.safe), p, w.(at := Failed)))
  {
    var t := Put(FinishReg(s, p, w.at.removal, w.at.safe), p, w.(at := Failed));
    FinishCounts(s, p, w);
    NothingToSet(s.writes, p);
    ReplacedKeepsTokens(s, t, p, Some(w.(at := Failed)), Some(s.writes[p]), None);
  }

  lemma FinishCounts(s: State, p: nat, w: Proc)
    requires TokensInv(s) && p in s.procs && s.procs[p] == w && w.Writer? && w.at.Removed?
    ensures var t := Put(FinishReg(s, p, w.at.removal, w.at.safe), p, w.(at := Failed));
            CountInv(t) && ProcInv(t, p) && TokenInv(t, p) && p in s.writes
  {
    assert ProcInv(s, p) && TokenInv(s, p);
    SizeOfChange(s.revocations, p, 0);
    SizeOfChange(s.writes, p, s.writes[p]);
  }

  lemma MarkingKeepsTokens(s: State, p: nat, w: Proc)
    requires TokensInv(s) && p in s.procs && s.procs[p] == w && w.Writer? && w.at.Discarded?
    ensures TokensInv(Put(CleanupSafeReg(s), p, w.(at := Failed)))
  {
    var t := Put(CleanupSafeReg(s), p, w.(at := Failed));
    MarkingCounts(s, p, w);
    NothingToSet(s.writes, p);
    NothingToDrop(s.revocations, p);
    ReplacedKeepsTokens(s, t, p, Some(w.(at := Failed)), Some(s.writes[p]), None);
  }

  lemma MarkingCounts(s: State, p: nat, w: Proc)
    requires TokensInv(s) && p in s.procs && s.procs[p] == w && w.Writer? && w.at.Discarded?
    ensures var t := Put(CleanupSafeReg(s), p, w.(at := Failed));
            CountInv(t) && ProcInv(t, p) && TokenInv(t, p) && p in s.writes && p !in s.revocations
  {
    assert ProcInv(s, p) && TokenInv(s, p);
    SizeOfChange(s.writes, p, s.writes[p]);
  }

  /** markCleanupSafe */
  lemma WriterMarksCleanup(s: State, p: nat, w: Proc)
    requires Inv(s) && p in s.procs && s.procs[p] == w && w.Writer? && w.at.Discarded? && w.at.safe
    ensures Inv(Put(CleanupSafeReg(s), p, w.(at := Failed)))
  {
    MarkingKeepsTokens(s, p, w);
    assert ProcInv(s, p);
  }

  lemma AbortingKeepsTokens(s: State, p: nat)
    requires TokensInv(s) && p in s.procs && s.procs[p].Writer? && s.procs[p].at.Aborting?
    ensures var t := Leave(AbortReg(s, p), p);
            s.reg.Some? && TokensInv(t) && forall q | SafeFinishDue(t, q) :: SafeFinishDue(s, q)
  {
    var t := Leave(AbortReg(s, p), p);
    assert ProcInv(s, p) && TokenInv(s, p);
    SizeOfChange(s.writes, p, s.writes[p]);
    NothingToDrop(s.revocations, p);
    ReplacedKeepsTokens(s, t, p, None, None, None);
  }

  /** abortWrite, after the gate has been let go */
  lemma WriterAborts(s: State, p: nat, w: Proc)
    requires Inv(s) && p in s.procs && s.procs[p] == w && w.Writer? && w.at.Aborting?
    ensures Inv(Leave(AbortReg(s, p), p))
  {
    AbortingKeepsTokens(s, p);
    assert ProcInv(s, p);
    OthersHold(s, Leave(AbortReg(s, p), p), p);
  }

  lemma FinishingKeepsTokens(s: State, p: nat)
    requires TokensInv(s) && p in s.procs && s.procs[p].Invalidator? && s.procs[p].step.Finishing?
    ensures var i := s.procs[p];
            var t := Leave(FinishReg(s, p, i.revoked, i.step.safe), p);
            s.reg.Some? && TokensInv(t) && (forall q | SafeFinishDue(t, q) :: SafeFinishDue(s, q)) &&
            (i.step.safe && Current(s, i.revoked) ==> SafeFinishDue(s, p))
  {
    var i := s.procs[p];
    var t := Leave(FinishReg(s, p, i.revoked, i.step.safe), p);
    assert ProcInv(s, p) && TokenInv(s, p);
    SizeOfChange(s.revocations, p, 0);
    NothingToDrop(s.writes, p);
    ReplacedKeepsTokens(s, t, p, None, None, None);
  }

  /** finishInvalidation, after the gate has been let go */
  lemma InvalidatorFinishes(s: State, p: nat, i: Proc)
    requires Inv(s) && p in s.procs && s.procs[p] == i && i.Invalidator? && i.step.Finishing?
    ensures Inv(Leave(FinishReg(s, p, i.revoked, i.step.safe), p))
  {
    FinishingKeepsTokens(s, p);
    assert ProcInv(s, p);
    OthersHold(s, Leave(FinishReg(s, p, i.revoked, i.step.safe), p), p);
  }

  /** The work invariant after a step of a process without the gate that only settles the registry. */
  lemma OthersHold(s: State, t: State, p: nat)
    requires TokensInv(s) && TokensInv(t) && WorkInv(s) && s.gate != Some(p)
    requires t.gate == s.gate && t.row == s.row && t.body == s.body && t.epoch == s.epoch && t.failClosed == s.failClosed
    requires t.procs == s.procs - {p}
    requires s.reg.Some? && t.reg.Some? ==> t.reg.value.generation == s.reg.value.generation
    requires Sealed(s) ==> Sealed(t)
    ensures WorkInv(t)
  {
    if s.gate.Some? {
      var q := s.gate.value;
      assert ProcInv(s, q) && TokenInv(s, q) && TokenInv(t, q) && ProcInv(t, q);
      HolderStable(s, t, s.procs[q]);
    }
  }

  /** A process without tokens that ends and lets the gate go. */
  lemma Leaving(s: State, t: State, p: nat)
    requires TokensInv(s) && ReadsInv(s) && Quiet(s)
    requires p in s.procs && s.gate == Some(p) && !HoldsWrite(s.procs[p]) && !HoldsInvalidation(s.procs[p])
    requires t == Leave(Unlock(s), p).(row := t.row, body := t.body, served := t.served)
    requires (t.row == s.row && t.body == s.body) || t.row.None? || t.body.None?
    requires ReadsInv(t)
    ensures Inv(t)
  {
    assert ProcInv(s, p);
    NothingToDrop(s.writes, p);
    NothingToDrop(s.revocations, p);
    ReplacedKeepsTokens(s, t, p, None, None, None);
  }

  lemma WriterKeepsInv(s: State, p: nat, w: Proc, ok: bool, effect: bool)
    requires Inv(s) && p in s.procs && s.procs[p] == w && w.Writer?
    ensures Inv(WriterStep(s, p, w, ok, effect))
  {
    assert ProcInv(s, p);
    match w.at
    case Undoing => WriterRevokes(s, p, w);
    case Removed(_, _) => WriterFinishesRevocation(s, p, w);
    case Committed => Leaving(s, Leave(Unlock(s), p), p);
    case Aborting => WriterAborts(s, p, w);
    case Discarded(safe) =>
      if safe { WriterMarksCleanup(s, p, w); } else { WriterDiscards(s, p, ok, effect); }
    case Written =>
      if Current(s, w.generation) && (ok || w.refresh) { WriterCommits(s, p, w); } else { WriterIsRefused(s, p, ok, effect); }
    case Fetching =>
    case WLocked => WriterStores(s, p, ok, effect);
    case Checked => WriterStores(s, p, ok, effect);
    case Loaded => WriterStores(s, p, ok, effect);
    case Stored => WriterPublishes(s, p, ok, effect);
    case Validated => WriterPublishes(s, p, ok, effect);
    case Publishing => WriterPublishes(s, p, ok, effect);
    case Removing(_) => WriterRemoves(s, p, ok, effect);
    case RemovingObject(_, _) => WriterRemoves(s, p, ok, effect);
    case Discarding => WriterDiscards(s, p, ok, effect);
    case DiscardingObject(_) => WriterDiscards(s, p, ok, effect);
    case Failed => WriterRemoves(s, p, ok, effect);
  }

  lemma InvalidatorKeepsInv(s: State, p: nat, i: Proc, ok: bool, effect: bool)
    requires Inv(s) && p in s.procs && s.procs[p] == i && i.Invalidator?
    ensures Inv(InvalidatorStep(s, p, i, ok, effect))
  {
    assert ProcInv(s, p);
    match i.step
    case Begun =>
    case ILocked =>
      if Current(s, i.revoked) && s.reg.value.tombstoned {
        InvalidatorHolds(s, p, i, Deleting, s.row, s.body);
      } else {
        InvalidatorReleases(s, p, i, false);
      }
    case Deleting =>
      InvalidatorHolds(s, p, i, DeletingObject(ok), if ok || effect then None else s.row, s.body);
    case DeletingObject(rowOk) =>
      InvalidatorHolds(s, p, i, Cleaned(rowOk || ok), s.row, if ok || effect then None else s.body);
    case Cleaned(safe) => InvalidatorReleases(s, p, i, safe);
    case Finishing(_) => InvalidatorFinishes(s, p, i);
  }

  /** An invalidation under the gate that deletes one of the two, or neither, and keeps the gate. */
  lemma InvalidatorHolds(s: State, p: nat, i: Proc, next: InvalidatorAt, row: Option<Tag>, body: Option<Tag>)
    requires Inv(s) && p in s.procs && s.procs[p] == i && i.Invalidator? && s.gate == Some(p)
    requires !next.Begun? && !next.Finishing?
    requires (row == s.row || row.None?) && (body == s.body || body.None?)
    requires next.DeletingObject? && next.rowOk ==> row.None?
    requires next.Cleaned? && next.safe ==> row.None? || body.None?
    ensures Inv(s.(procs := s.procs[p := i.(step := next)], row := row, body := body))
  {
    assert ProcInv(s, p);
    MovedKeepsTokens(s, p, i.(step := next), row, body, s.gate);
    var t := Moved(s, p, i.(step := next), row, body, s.gate);
    assert Quiet(t) by {
      assert Sealed(s) && !SafeFinishDue(t, p) ==> Sealed(t);
    }
  }

  lemma InvalidatorReleases(s: State, p: nat, i: Proc, safe: bool)
    requires Inv(s) && p in s.procs && s.procs[p] == i && i.Invalidator? && s.gate == Some(p)
    requires safe ==> i.step.Cleaned? && i.step.safe
    ensures Inv(Put(Unlock(s), p, i.(step := Finishing(safe))))
  {
    assert ProcInv(s, p);
    MovedKeepsTokens(s, p, i.(step := Finishing(safe)), s.row, s.body, None);
    var t := Moved(s, p, i.(step := Finishing(safe)), s.row, s.body, None);
    assert Quiet(t) by {
      assert Sealed(s) && !SafeFinishDue(t, p) ==> Sealed(t);
    }
  }

  lemma ReaderMoves(s: State, p: nat, r: Proc, next: ReaderAt)
    requires Inv(s) && p in s.procs && s.procs[p] == r && r.Reader? && !r.stage.Waiting?
    requires match next
             case Admitted => true
             case Found(row) => s.row == Some(row)
             case Cleared(row, epoch) => s.row == Some(row) && Readable(s) && epoch == s.epoch
             case _ => false
    ensures Inv(Put(s, p, Reader(next)))
  {
    assert ProcInv(s, p);
    MovedKeepsTokens(s, p, Reader(next), s.row, s.body, s.gate);
    assert Put(s, p, Reader(next)) == Moved(s, p, Reader(next), s.row, s.body, s.gate);
  }

  lemma ReaderKeepsInv(s: State, p: nat, r: Proc, ok: bool)
    requires Inv(s) && p in s.procs && s.procs[p] == r && r.Reader?
    ensures Inv(ReaderStep(s, p, r, ok))
  {
    assert ProcInv(s, p);
    match r.stage
    case Waiting =>
    case RLocked =>
      if Readable(s) { ReaderMoves(s, p, r, Admitted); } else { Leaving(s, Leave(Unlock(s), p), p); }
    case Admitted =>
      if ok && s.row.Some? { ReaderMoves(s, p, r, Found(s.row.value)); } else { Leaving(s, Leave(Unlock(s), p), p); }
    case Found(row) =>
      if Readable(s) { ReaderMoves(s, p, r, Cleared(row, s.epoch)); } else { Leaving(s, Leave(Unlock(s), p), p); }
    case Cleared(row, epoch) => Leaving(s, ReaderStep(s, p, r, ok), p);
  }

  lemma RemoverKeepsInv(s: State, p: nat, m: Proc, ok: bool, effect: bool)
    requires Inv(s) && p in s.procs && s.procs[p] == m && m.Remover?
    ensures Inv(RemoverStep(s, p, m, ok, effect))
  {
    var t := RemoverStep(s, p, m, ok, effect);
    assert ProcInv(s, p);
    if p !in t.procs {
      Leaving(s, t, p);
    } else if !m.part.Queued? {
      MovedKeepsTokens(s, p, t.procs[p], t.row, t.body, t.gate);
      assert t == Moved(s, p, t.procs[p], t.row, t.body, t.gate);
    }
  }

  // ---------------------------------------------------------------- the other events

  lemma BeginWriteKeepsTokens(s: State, p: nat, refresh: bool)
    requires TokensInv(s) && p !in s.procs
    ensures TokensInv(Put(BeginWriteReg(s, p), p, Writer(refresh, StateOf(s.reg).generation, Tag(p, s.epoch), Fetching)))
  {
    var w := Writer(refresh, StateOf(s.reg).generation, Tag(p, s.epoch), Fetching);
    var token := WriteToken(StateOf(s.reg).generation, s.epoch);
    var t := Put(BeginWriteReg(s, p), p, w);
    BeginWriteCounts(s, p, refresh);
    NothingToDrop(s.revocations, p);
    ReplacedKeepsTokens(s, t, p, Some(w), Some(token), None);
  }

  lemma BeginWriteCounts(s: State, p: nat, refresh: bool)
    requires TokensInv(s) && p !in s.procs
    ensures var w := Writer(refresh, StateOf(s.reg).generation, Tag(p, s.epoch), Fetching);
            var t := Put(BeginWriteReg(s, p), p, w);
            CountInv(t) && ProcInv(t, p) && TokenInv(t, p) && p !in s.revocations
  {
    assert ProcInv(s, p);
    SizeOfChange(s.writes, p, WriteToken(StateOf(s.reg).generation, s.epoch));
  }

  lemma WriteBegins(s: State, p: nat, refresh: bool)
    requires Inv(s) && p !in s.procs
    ensures Inv(Put(BeginWriteReg(s, p), p, Writer(refresh, StateOf(s.reg).generation, Tag(p, s.epoch), Fetching)))
  {
    var t := Put(BeginWriteReg(s, p), p, Writer(refresh, StateOf(s.reg).generation, Tag(p, s.epoch), Fetching));
    BeginWriteKeepsTokens(s, p, refresh);
    Undisturbed(s, t, p);
  }

  lemma BeginInvalidationKeepsTokens(s: State, p: nat)
    requires TokensInv(s) && p !in s.procs
    ensures var t := Put(BeginInvalidationReg(s, p), p, Invalidator(StateOf(s.reg).generation + 1, Begun));
            TokensInv(t) && Sealed(t)
  {
    BeginInvalidationCounts(s, p);
    var g := StateOf(s.reg).generation + 1;
    var t := Put(BeginInvalidationReg(s, p), p, Invalidator(g, Begun));
    NothingToDrop(s.writes, p);
    ReplacedKeepsTokens(s, t, p, Some(Invalidator(g, Begun)), None, Some(g));
    NothingDueAfter(s, t, p);
  }

  lemma BeginInvalidationCounts(s: State, p: nat)
    requires TokensInv(s) && p !in s.procs
    ensures var t := Put(BeginInvalidationReg(s, p), p, Invalidator(StateOf(s.reg).generation + 1, Begun));
            CountInv(t) && ProcInv(t, p) && TokenInv(t, p) && p !in s.writes
  {
    assert ProcInv(s, p);
    SizeOfChange(s.revocations, p, StateOf(s.reg).generation + 1);
  }

  lemma InvalidationBegins(s: State, p: nat)
    requires Inv(s) && p !in s.procs
    ensures Inv(Put(BeginInvalidationReg(s, p), p, Invalidator(StateOf(s.reg).generation + 1, Begun)))
  {
    var t := Put(BeginInvalidationReg(s, p), p, Invalidator(StateOf(s.reg).generation + 1, Begun));
    assert ProcInv(s, p);
    BeginInvalidationKeepsTokens(s, p);
    if s.gate.Some? {
      assert ProcInv(s, s.gate.value);
      HolderStable(s, t, s.procs[s.gate.value]);
    }
  }

  /** The work invariant after a step of a process without the gate that only adds to the registry. */
  lemma Undisturbed(s: State, t: State, p: nat)
    requires TokensInv(s) && WorkInv(s) && p !in s.procs
    requires t.procs - {p} == s.procs && t.row == s.row && t.body == s.body && t.gate == s.gate
    requires t.epoch == s.epoch && t.failClosed == s.failClosed
    requires s.reg.Some? ==> t.reg.Some? && t.reg.value.generation == s.reg.value.generation
    requires s.reg.Some? ==> t.reg.value.tombstoned == s.reg.value.tombstoned
    requires s.reg.Some? ==> t.reg.value.cleanupSafe == s.reg.value.cleanupSafe
    requires !SafeFinishDue(t, p)
    ensures WorkInv(t)
  {
    forall q | SafeFinishDue(t, q)
      ensures SafeFinishDue(s, q)
    {
      assert q in t.procs - {p} && ProcInv(s, q) && TokenInv(s, q);
      assert t.procs[q] == (t.procs - {p})[q];
    }
    assert Sealed(s) ==> Sealed(t);
    if s.gate.Some? {
      var q := s.gate.value;
      assert ProcInv(s, q) && ProcInv(s, p) && q in t.procs - {p};
      assert t.procs[q] == (t.procs - {p})[q];
      HolderStable(s, t, s.procs[q]);
    }
  }

  lemma BystanderKeepsTokens(s: State, p: nat, proc: Proc)
    requires TokensInv(s) && p !in s.procs && proc in {Reader(Waiting), Remover(Queued)}
    ensures TokensInv(Put(s, p, proc))
  {
    assert ProcInv(s, p) && TokenInv(s, p);
    NothingToDrop(s.writes, p);
    NothingToDrop(s.revocations, p);
    ReplacedKeepsTokens(s, Put(s, p, proc), p, Some(proc), None, None);
  }

  lemma BystanderBegins(s: State, p: nat, proc: Proc)
    requires Inv(s) && p !in s.procs && proc in {Reader(Waiting), Remover(Queued)}
    ensures Inv(Put(s, p, proc))
  {
    BystanderKeepsTokens(s, p, proc);
    Undisturbed(s, Put(s, p, proc), p);
  }

  lemma GateIsTaken(s: State, p: nat)
    requires Inv(s) && p in s.procs && AwaitsLock(s.procs[p]) && s.gate.None?
    ensures Inv(Next(s, p, Lock))
  {
    var t := Next(s, p, Lock);
    assert ProcInv(s, p);
    MovedKeepsTokens(s, p, t.procs[p], t.row, t.body, t.gate);
    assert t == Moved(s, p, t.procs[p], t.row, t.body, t.gate);
  }

  lemma GateIsNotTaken(s: State, p: nat)
    requires Inv(s) && p in s.procs && AwaitsLock(s.procs[p])
    ensures Inv(NotLocked(s, p, s.procs[p]))
  {
    assert ProcInv(s, p);
    match s.procs[p]
    case Writer(_, _, _, _) => Demoted(s, p, s.procs[p].(at := Aborting));
    case Invalidator(_, _) => Demoted(s, p, s.procs[p].(step := Finishing(false)));
    case Reader(_) => Dismissed(s, p);
    case Remover(_) => Dismissed(s, p);
  }

  lemma Demoted(s: State, p: nat, proc: Proc)
    requires Inv(s) && p in s.procs && AwaitsLock(s.procs[p])
    requires match s.procs[p]
             case Writer(_, _, _, _) => proc == s.procs[p].(at := Aborting)
             case Invalidator(_, _) => proc == s.procs[p].(step := Finishing(false))
             case _ => false
    ensures Inv(Put(s, p, proc))
  {
    var t := Put(s, p, proc);
    assert ProcInv(s, p);
    MovedKeepsTokens(s, p, proc, s.row, s.body, s.gate);
    assert t == Moved(s, p, proc, s.row, s.body, s.gate);
    if s.gate.Some? {
      assert ProcInv(s, s.gate.value);
      HolderStable(s, t, s.procs[s.gate.value]);
    }
  }

  lemma DismissedKeepsTokens(s: State, p: nat)
    requires TokensInv(s) && p in s.procs && AwaitsLock(s.procs[p]) && (s.procs[p].Reader? || s.procs[p].Remover?)
    ensures TokensInv(Leave(s, p)) && forall q :: SafeFinishDue(Leave(s, p), q) ==> SafeFinishDue(s, q)
  {
    assert ProcInv(s, p) && TokenInv(s, p);
    NothingToDrop(s.writes, p);
    NothingToDrop(s.revocations, p);
    ReplacedKeepsTokens(s, Leave(s, p), p, None, None, None);
  }

  lemma Dismissed(s: State, p: nat)
    requires Inv(s) && p in s.procs && AwaitsLock(s.procs[p]) && (s.procs[p].Reader? || s.procs[p].Remover?)
    ensures Inv(Leave(s, p))
  {
    assert ProcInv(s, p);
    DismissedKeepsTokens(s, p);
    OthersHold(s, Leave(s, p), p);
  }

  lemma OverflowKeepsInv(s: State, p: nat)
    requires Inv(s)
    ensures Inv(Next(s, p, Overflow))
  {
    var t := Next(s, p, Overflow);
    forall q
      ensures ProcInv(t, q) && TokenInv(t, q)
    {
      assert ProcInv(s, q) && TokenInv(s, q);
      assert q in s.writes ==> |s.writes| > 0;
      assert q in s.revocations ==> |s.revocations| > 0;
    }
    if s.gate.Some? {
      HolderStable(s, t, s.procs[s.gate.value]);
    }
  }

  /** Every event keeps the invariant. */
  lemma NextKeepsInv(s: State, p: nat, e: Event)
    requires Inv(s)
    ensures Inv(Next(s, p, e))
  {
    match e
    case BeginWrite(refresh) => if p !in s.procs { WriteBegins(s, p, refresh); }
    case BeginInvalidation => if p !in s.procs { InvalidationBegins(s, p); }
    case BeginRead => if p !in s.procs { BystanderBegins(s, p, Reader(Waiting)); }
    case BeginRemoval => if p !in s.procs { BystanderBegins(s, p, Remover(Queued)); }
    case Lock => if p in s.procs && AwaitsLock(s.procs[p]) && s.gate.None? { GateIsTaken(s, p); }
    case LockFails => if p in s.procs && AwaitsLock(s.procs[p]) { GateIsNotTaken(s, p); }
    case Overflow => OverflowKeepsInv(s, p);
    case Step(ok, effect) =>
      if p in s.procs {
        match s.procs[p]
        case Writer(_, _, _, _) => WriterKeepsInv(s, p, s.procs[p], ok, effect);
        case Invalidator(_, _) => InvalidatorKeepsInv(s, p, s.procs[p], ok, effect);
        case Reader(_) => ReaderKeepsInv(s, p, s.procs[p], ok);
        case Remover(_) => RemoverKeepsInv(s, p, s.procs[p], ok, effect);
      }
  }
}

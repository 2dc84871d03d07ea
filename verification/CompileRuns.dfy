/** What the compiler cache guarantees over whole runs, with any number of stops in them. */
module CompileRuns {
  import opened Wrappers
  import opened CompileLedger
  import opened CompileEviction
  import opened CompileProtocol
  import opened CompileObjects
  import opened CompileBooks

  // ---------------------------------------------------------------- rows keep their objects

  lemma LateUploadIsHarmless(s: State, p: nat, u: Proc, e: Event)
    requires u.Upload? && !(u.at.Locking? || u.at.Looked? || u.at.Registered?) && (u.at.Cleaning? ==> Own(s, p, u))
    ensures Harmless(s, UploadStep(s, p, u, e))
  {
    if e.Clean? && u.at.Cleaning? && e.path.artifact == u.artifact && e.path.generation == u.generation {
      assert UploadStep(s, p, u, e) == s.(objects := s.objects - {e.path});
    } else {
      LateUploadLeavesObjects(s, p, u, e);
    }
  }

  predicate SameObjects(s: State, t: State) {
    t.objects == s.objects && t.config == s.config
  }

  lemma ReserveLeavesObjects(s: State, p: nat, u: Proc)
    requires u.Upload?
    ensures SameObjects(s, ReserveStep(s, p, u))
  {
  }

  lemma CommitLeavesObjects(s: State, p: nat, u: Proc)
    requires u.Upload?
    ensures SameObjects(s, CommitStep(s, p, u))
  {
  }

  lemma SettleLeavesObjects(s: State, p: nat, u: Proc)
    requires u.Upload?
    ensures SameObjects(s, SettleUpload(s, p, u))
  {
  }

  lemma LateUploadLeavesObjects(s: State, p: nat, u: Proc, e: Event)
    requires u.Upload? && !(u.at.Locking? || u.at.Looked? || u.at.Registered?)
    requires !(e.Clean? && u.at.Cleaning? && e.path.artifact == u.artifact && e.path.generation == u.generation)
    ensures SameObjects(s, UploadStep(s, p, u, e))
  {
    if MovesBooks(u, e) {
      match e
      case Reserve => ReserveLeavesObjects(s, p, u);
      case Commit => CommitLeavesObjects(s, p, u);
      case Settle => SettleLeavesObjects(s, p, u);
    } else {
      LateUploadWaits(s, p, u, e);
    }
  }

  lemma LateUploadWaits(s: State, p: nat, u: Proc, e: Event)
    requires u.Upload? && !(u.at.Locking? || u.at.Looked? || u.at.Registered?) && !MovesBooks(u, e)
    requires !(e.Clean? && u.at.Cleaning? && e.path.artifact == u.artifact && e.path.generation == u.generation)
    ensures SameObjects(s, UploadStep(s, p, u, e))
  {
    if e.Fail? && Live(u) {
      assert UploadStep(s, p, u, e) == Put(s, p, u.(at := Cleaning(u.at.Reserved?)));
    } else {
      assert UploadStep(s, p, u, e) == s;
    }
  }

  lemma RemovalIsHarmless(s: State, p: nat, r: Proc, e: Event)
    ensures r.Removal? ==> Harmless(s, RemovalStep(s, p, r, e))
    ensures r.Removed? ==> Harmless(s, RemovedStep(s, p, r, e))
  {
  }

  lemma SweepIsHarmless(s: State, p: nat, w: Proc, e: Event)
    requires w.Sweep? && SweepInv(s, w)
    ensures Harmless(s, SweepStep(s, p, w, e))
  {
    if e.Delete? && e.path in w.doomed {
      assert SweptInv(s, w, e.path);
      DeletionTakesOne(s, p, w, e.path, e.ok, e.effect);
    } else {
      SweepLeavesObjects(s, p, w, e);
    }
  }

  lemma DeletionTakesOne(s: State, p: nat, w: Proc, gone: Path, ok: bool, effect: bool)
    requires w.Sweep? && gone in w.doomed
    ensures var t := SweepStep(s, p, w, Delete(gone, ok, effect));
            t.config == s.config && t.objects in {s.objects, s.objects - {gone}}
  {
  }

  lemma SweepLeavesObjects(s: State, p: nat, w: Proc, e: Event)
    requires w.Sweep? && !(e.Delete? && e.path in w.doomed)
    ensures SameObjects(s, SweepStep(s, p, w, e))
  {
  }

  lemma ReconcileIsHarmless(s: State, p: nat, e: Event)
    ensures Harmless(s, ReconcileStep(s, p, e))
  {
    if s.ready || p in s.procs {
      assert ReconcileStep(s, p, e) == s;
    } else if e.DropRow? {
      DropRowLeavesObjects(s, p, e.artifact, e.queued);
    } else if e.DropOrphan? {
      DropOrphanLeavesObjects(s, p, e.path);
    } else if e.Recount? || e.Start? {
      assert SameObjects(s, s.(ready := e.Start?, ledger := Rebuilt(s.rows)));
    } else {
      assert ReconcileStep(s, p, e) == s;
    }
  }

  lemma DropRowLeavesObjects(s: State, p: nat, a: Artifact, queued: bool)
    ensures SameObjects(s, ReconcileStep(s, p, DropRow(a, queued)))
  {
  }

  lemma DropOrphanLeavesObjects(s: State, p: nat, orphan: Path)
    ensures SameObjects(s, ReconcileStep(s, p, DropOrphan(orphan)))
  {
  }

  lemma BeginIsHarmless(s: State, p: nat, e: Event)
    ensures Harmless(s, BeginStep(s, p, e))
  {
  }

  lemma OutsideIsHarmless(s: State, e: Event)
    ensures !e.Damage? ==> Harmless(s, Outside(s, e))
  {
    if e.Land? {
      assert Harmless(s, Outside(s, e));
    } else if e.Stop? {
      assert Harmless(s, Outside(s, e));
    }
  }

  lemma NextIsHarmless(s: State, p: nat, e: Event)
    requires StoreInv(s)
    ensures Next(s, p, e).config == s.config
    ensures !e.Damage? ==> Harmless(s, Next(s, p, e))
  {
    if IsOutside(e) {
      OutsideIsHarmless(s, e);
      OutsideLeavesConfig(s, e);
    } else if e.DropRow? || e.DropOrphan? || e.Recount? || e.Start? {
      ReconcileIsHarmless(s, p, e);
    } else if e.BeginUpload? || e.BeginRemoval? || e.BeginSweep? {
      BeginIsHarmless(s, p, e);
    } else if p in s.procs {
      var proc := s.procs[p];
      assert ProcInv(s, p);
      match proc
      case Upload(_, _, _, at, _, _) =>
        if at.Locking? || at.Looked? || at.Registered? {
          EarlyUploadLeavesBooks(s, p, proc, e);
        } else {
          LateUploadIsHarmless(s, p, proc, e);
        }
      case Removal(_, _, _) => RemovalIsHarmless(s, p, proc, e);
      case Removed(_, _) => RemovalIsHarmless(s, p, proc, e);
      case Sweep(_, _) => SweepIsHarmless(s, p, proc, e);
    }
  }

  // ---------------------------------------------------------------- whole runs

  /** An empty cache whose service has started. */
  predicate Initial(s: State) {
    s.rows == map[] && s.outbox == map[] && s.objects == map[] && s.gates == map[] && s.procs == map[] &&
    s.ledger == EMPTY && s.owed == map[] && s.landed == {} && s.maker == map[]
  }

  ghost predicate Inv(s: State) {
    StoreInv(s) && Books(s)
  }

  lemma InitialInv(s: State)
    requires Initial(s)
    ensures Inv(s)
  {
    assert RowCharges(s.rows) == map[];
  }

  lemma {:induction false} RunKeepsInv(s: State, events: seq<(nat, Event)>)
    requires Inv(s)
    ensures Inv(Run(s, events))
    decreases |events|
  {
    if events != [] {
      NextKeepsStore(s, events[0].0, events[0].1);
      NextKeepsBooks(s, events[0].0, events[0].1);
      RunKeepsInv(Next(s, events[0].0, events[0].1), events[1..]);
    }
  }

  /** Conservation: after any run, with any number of stops in it, the object of every row is stored
      with the row's size unless it was damaged from outside, and every stored object either belongs
      to exactly one row or has a record in the deletion queue, never both. */
  lemma ObjectsAreConserved(start: State, events: seq<(nat, Event)>)
    requires Initial(start)
    ensures var s := Run(start, events);
            (forall a | a in s.rows :: Intact(s, PathOf(a, s.rows[a].generation), s.rows[a].size)) &&
            (forall path | path in s.objects :: Referenced(s, path) != (path in s.outbox)) &&
            (forall a, b | a in s.rows && b in s.rows && a != b ::
               PathOf(a, s.rows[a].generation) != PathOf(b, s.rows[b].generation))
  {
    var s := Run(start, events);
    InitialInv(start);
    RunKeepsInv(start, events);
    forall a | a in s.rows
      ensures Intact(s, PathOf(a, s.rows[a].generation), s.rows[a].size)
    {
      assert PathInv(s, PathOf(a, s.rows[a].generation));
    }
    forall path | path in s.objects
      ensures Referenced(s, path) != (path in s.outbox)
    {
      assert PathInv(s, path);
    }
  }

  /** No deletion ever takes the object of a row away: whatever removes an object, short of damage from
      outside, removes one that no row refers to. */
  lemma LiveObjectsAreNeverDeleted(start: State, events: seq<(nat, Event)>, p: nat, e: Event, path: Path)
    requires Initial(start) && !e.Damage?
    ensures var s := Run(start, events);
            path in s.objects && Referenced(s, path) ==> path in Next(s, p, e).objects
  {
    InitialInv(start);
    RunKeepsInv(start, events);
    NextIsHarmless(Run(start, events), p, e);
  }

  /** The books: whenever the service is up the ledger is exact, and when nothing is under way it reads
      exactly what the rows take up; its counter of namespaces is right. */
  lemma LedgerIsExact(start: State, events: seq<(nat, Event)>, scope: Scope)
    requires Initial(start)
    ensures var s := Run(start, events);
            s.ready ==> Exact(s, scope) && s.ledger.namespaces == |s.ledger.perNamespace| &&
                        (s.owed == map[] ==> Reading(s.ledger, scope) == Held(s, scope))
  {
    InitialInv(start);
    RunKeepsInv(start, events);
  }

  /** What the rows take up is within what the ledger reads. */
  lemma RowsAreWithinTheLedger(s: State, scope: Scope)
    requires Inv(s) && s.ready
    ensures Held(s, scope).Within(Reading(s.ledger, scope))
  {
    assert Exact(s, scope);
    forall p | p in s.owed
      ensures s.owed[p].amount.bytes >= 0 && s.owed[p].amount.entries >= 0
    {
      assert ProcInv(s, p);
    }
    TotalBounds(s.owed, 0, scope);
  }

  // ---------------------------------------------------------------- the limits

  ghost predicate RowsFitIn(s: State, scope: Scope) {
    Held(s, scope).Within(if scope.Everything? then s.config.limits.max else s.config.limits.ForNamespace())
  }

  /** The rows are within the limits, and so is the ledger while the service is up. */
  ghost predicate WithinLimits(s: State) {
    (forall scope :: RowsFitIn(s, scope)) && (s.ready ==> Bounded(s))
  }

  lemma BoundedRowsFit(s: State)
    requires Inv(s) && s.ready && Bounded(s)
    ensures WithinLimits(s)
  {
    forall scope
      ensures RowsFitIn(s, scope)
    {
      RowsAreWithinTheLedger(s, scope);
      match scope
      case Everything =>
      case Only(n) => assert BoundedIn(s, Only(n));
    }
  }

  lemma FittingRowsAreBounded(s: State)
    requires Inv(s) && s.ready && s.owed == map[] && forall scope :: RowsFitIn(s, scope)
    ensures Bounded(s)
  {
    assert RowsFitIn(s, Everything) && Exact(s, Everything);
    forall n
      ensures BoundedIn(s, Only(n))
    {
      assert RowsFitIn(s, Only(n)) && Exact(s, Only(n));
    }
  }

  lemma SameRowsFit(s: State, t: State)
    requires t.config == s.config && t.rows == s.rows && forall scope :: RowsFitIn(s, scope)
    ensures forall scope :: RowsFitIn(t, scope)
  {
    forall scope
      ensures RowsFitIn(t, scope)
    {
      assert RowsFitIn(s, scope);
    }
  }

  lemma FewerRowsFit(s: State, t: State, a: Artifact)
    requires t.config == s.config && a in s.rows && t.rows == s.rows - {a} && forall scope :: RowsFitIn(s, scope)
    ensures forall scope :: RowsFitIn(t, scope)
  {
    forall scope
      ensures RowsFitIn(t, scope)
    {
      assert RowsFitIn(s, scope);
      HeldAfterDrop(s.rows, a, scope);
    }
  }

  /** What a step does to the rows while the service is down. */
  lemma RowsWhileDown(s: State, p: nat, e: Event)
    requires StoreInv(s) && !s.ready
    ensures var rows := Next(s, p, e).rows;
            rows == s.rows || (e.DropRow? && e.artifact in s.rows && rows == s.rows - {e.artifact})
  {
    assert ProcInv(s, p);
    if IsOutside(e) {
      OutsideLeavesConfig(s, e);
    } else if !(e.DropRow? || e.DropOrphan? || e.Recount? || e.Start? || e.BeginUpload? || e.BeginRemoval? || e.BeginSweep?) && p in s.procs {
      assert s.procs[p].Sweep?;
    }
  }

  lemma NextStaysWithinLimits(s: State, p: nat, e: Event)
    requires Inv(s) && WithinLimits(s) && ZERO.Within(s.config.limits.ForNamespace())
    ensures Inv(Next(s, p, e)) && WithinLimits(Next(s, p, e))
  {
    var t := Next(s, p, e);
    NextKeepsStore(s, p, e);
    NextKeepsBooks(s, p, e);
    NextIsHarmless(s, p, e);
    if s.ready {
      NextStaysBounded(s, p, e);
      if t.ready {
        BoundedRowsFit(t);
      } else {
        StopsLeaveRows(s, p, e);
        SameRowsFit(s, t);
      }
    } else {
      RowsWhileDown(s, p, e);
      if t.rows == s.rows { SameRowsFit(s, t); } else { FewerRowsFit(s, t, e.artifact); }
      if t.ready {
        NobodyOwes(s);
        StartsFromDown(s, p, e);
        FittingRowsAreBounded(t);
      }
    }
  }

  lemma StopsLeaveRows(s: State, p: nat, e: Event)
    requires s.ready && !Next(s, p, e).ready
    ensures Next(s, p, e).rows == s.rows
  {
    if IsOutside(e) {
      OutsideLeavesConfig(s, e);
    } else {
      StepsLeaveItUp(s, p, e);
    }
  }

  lemma StepsLeaveItUp(s: State, p: nat, e: Event)
    requires s.ready && !IsOutside(e)
    ensures Next(s, p, e).ready
  {
    if !(e.DropRow? || e.DropOrphan? || e.Recount? || e.Start? || e.BeginUpload? || e.BeginRemoval? || e.BeginSweep?) && p in s.procs {
      match s.procs[p]
      case Upload(_, _, _, _, _, _) => UploadLeavesItUp(s, p, s.procs[p], e);
      case Removal(_, _, _) => RemovalLeavesItUp(s, p, s.procs[p], e);
      case Removed(_, _) =>
      case Sweep(_, _) => SweepLeavesItUp(s, p, s.procs[p], e);
    }
  }

  lemma UploadLeavesItUp(s: State, p: nat, u: Proc, e: Event)
    requires s.ready && u.Upload?
    ensures UploadStep(s, p, u, e).ready
  {
    if MovesBooks(u, e) {
      match e
      case Reserve => ReserveLeavesItUp(s, p, u);
      case Commit => CommitLeavesItUp(s, p, u);
      case Settle => SettleLeavesItUp(s, p, u);
    } else if u.at.Locking? || u.at.Looked? || u.at.Registered? {
      EarlyUploadLeavesBooks(s, p, u, e);
    } else {
      LateUploadLeavesItUp(s, p, u, e);
    }
  }

  lemma LateUploadLeavesItUp(s: State, p: nat, u: Proc, e: Event)
    requires s.ready && u.Upload? && !(u.at.Locking? || u.at.Looked? || u.at.Registered?) && !MovesBooks(u, e)
    ensures UploadStep(s, p, u, e).ready
  {
    LateUploadLeavesBooks(s, p, u, e);
  }

  lemma ReserveLeavesItUp(s: State, p: nat, u: Proc)
    requires s.ready && u.Upload?
    ensures ReserveStep(s, p, u).ready
  {
  }

  lemma CommitLeavesItUp(s: State, p: nat, u: Proc)
    requires s.ready && u.Upload?
    ensures CommitStep(s, p, u).ready
  {
    if s.now >= u.deadline {
      assert CommitStep(s, p, u) == Put(s, p, u.(at := Cleaning(true)));
    }
  }

  lemma SettleLeavesItUp(s: State, p: nat, u: Proc)
    requires s.ready && u.Upload?
    ensures SettleUpload(s, p, u).ready
  {
  }

  lemma RemovalLeavesItUp(s: State, p: nat, r: Proc, e: Event)
    requires s.ready && r.Removal?
    ensures RemovalStep(s, p, r, e).ready
  {
  }

  lemma SweepLeavesItUp(s: State, p: nat, w: Proc, e: Event)
    requires s.ready && w.Sweep?
    ensures SweepStep(s, p, w, e).ready
  {
  }

  lemma OutsideStaysDown(s: State, e: Event)
    requires !s.ready
    ensures !Outside(s, e).ready
  {
  }

  lemma SweepStaysDown(s: State, p: nat, w: Proc, e: Event)
    requires !s.ready && w.Sweep?
    ensures !SweepStep(s, p, w, e).ready
  {
  }

  lemma StartsFromDown(s: State, p: nat, e: Event)
    requires StoreInv(s) && !s.ready && Next(s, p, e).ready
    ensures Next(s, p, e).owed == s.owed
  {
    assert ProcInv(s, p);
    if IsOutside(e) {
      OutsideStaysDown(s, e);
    } else if !(e.DropRow? || e.DropOrphan? || e.Recount? || e.Start? || e.BeginUpload? || e.BeginRemoval? || e.BeginSweep?) && p in s.procs {
      SweepStaysDown(s, p, s.procs[p], e);
    }
  }

  /** The limits, figure by figure. */
  predicate InFigures(u: Usage, scope: Scope, limits: Limits) {
    u.bytes <= limits.max.bytes && u.entries <= limits.max.entries &&
    (scope.Only? ==> u.bytes <= limits.namespaceMax.bytes && u.entries <= limits.namespaceMax.entries)
  }

  ghost predicate LimitsMet(s: State) {
    forall scope ::
      InFigures(Held(s, scope), scope, s.config.limits) &&
      (s.ready ==> InFigures(Reading(s.ledger, scope), scope, s.config.limits))
  }

  lemma WithinLimitsInFigures(s: State)
    ensures WithinLimits(s) <==> LimitsMet(s)
  {
    if WithinLimits(s) {
      forall scope
        ensures InFigures(Held(s, scope), scope, s.config.limits)
        ensures s.ready ==> InFigures(Reading(s.ledger, scope), scope, s.config.limits)
      {
        assert RowsFitIn(s, scope);
        match scope
        case Everything =>
        case Only(n) => assert s.ready ==> BoundedIn(s, Only(n));
      }
    }
    if LimitsMet(s) {
      forall scope
        ensures RowsFitIn(s, scope) && (s.ready ==> BoundedIn(s, scope))
      {
        assert InFigures(Held(s, scope), scope, s.config.limits);
      }
    }
  }

  lemma {:induction false} RunStaysWithinLimits(s: State, events: seq<(nat, Event)>)
    requires Inv(s) && WithinLimits(s) && ZERO.Within(s.config.limits.ForNamespace())
    ensures Inv(Run(s, events)) && WithinLimits(Run(s, events)) && Run(s, events).config == s.config
    decreases |events|
  {
    if events != [] {
      NextStaysWithinLimits(s, events[0].0, events[0].1);
      NextIsHarmless(s, events[0].0, events[0].1);
      RunStaysWithinLimits(Next(s, events[0].0, events[0].1), events[1..]);
    }
  }

  /** The limits hold over whole runs, with any number of stops and starts in them: for the rows always,
      and for the ledger while the service is up, in all and in every namespace, in bytes and in entries. */
  lemma LimitsHold(s: State, events: seq<(nat, Event)>)
    requires Inv(s) && LimitsMet(s)
    requires var limits := s.config.limits;
             limits.max.bytes >= 0 && limits.max.entries >= 0 && limits.namespaceMax.bytes >= 0 && limits.namespaceMax.entries >= 0
    ensures Inv(Run(s, events)) && LimitsMet(Run(s, events)) && Run(s, events).config == s.config
  {
    WithinLimitsInFigures(s);
    RunStaysWithinLimits(s, events);
    WithinLimitsInFigures(Run(s, events));
  }
}

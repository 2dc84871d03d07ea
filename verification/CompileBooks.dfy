/** The ledger of the compiler cache stays exact and within its limits under every step. */
module CompileBooks {
  import opened Wrappers
  import opened CompileLedger
  import opened CompileEviction
  import opened CompileProtocol
  import opened CompileObjects

  // ---------------------------------------------------------------- the ledger is exact

  ghost function Held(s: State, scope: Scope): Usage {
    Total(RowCharges(s.rows), scope)
  }

  ghost function OwedIn(s: State, scope: Scope): Usage {
    Total(s.owed, scope)
  }

  /** The ledger reads what the rows take up and what operations under way have reserved or have yet
      to give back. */
  ghost predicate Exact(s: State, scope: Scope) {
    Reading(s.ledger, scope).bytes == Held(s, scope).bytes + OwedIn(s, scope).bytes &&
    Reading(s.ledger, scope).entries == Held(s, scope).entries + OwedIn(s, scope).entries
  }

  ghost predicate Books(s: State) {
    s.ready ==> Tidy(s.ledger) && forall scope :: Exact(s, scope)
  }

  /** What a step moves between the rows, the debts and the ledger, in one scope. */
  ghost predicate Balances(s: State, t: State, scope: Scope) {
    var l, m := Reading(s.ledger, scope), Reading(t.ledger, scope);
    m.bytes - l.bytes == Held(t, scope).bytes - Held(s, scope).bytes + OwedIn(t, scope).bytes - OwedIn(s, scope).bytes &&
    m.entries - l.entries == Held(t, scope).entries - Held(s, scope).entries + OwedIn(t, scope).entries - OwedIn(s, scope).entries
  }

  lemma BalancedStep(s: State, t: State)
    requires Books(s) && s.ready == t.ready && (Tidy(s.ledger) ==> Tidy(t.ledger))
    requires forall scope :: Balances(s, t, scope)
    ensures Books(t)
  {
    if t.ready {
      forall scope
        ensures Exact(t, scope)
      {
        assert Exact(s, scope) && Balances(s, t, scope);
      }
    }
  }

  lemma SetRowCharge(rows: map<Artifact, Entry>, a: Artifact, e: Entry)
    ensures RowCharges(rows[a := e]) == RowCharges(rows)[a := Charge(a.namespace, Usage(e.size, 1))]
  {
  }

  lemma DropRowCharge(rows: map<Artifact, Entry>, a: Artifact)
    ensures RowCharges(rows - {a}) == RowCharges(rows) - {a}
  {
  }

  /** How much a debt changes the sum of the debts. */
  lemma OwedAfterSet(owed: map<nat, Charge>, p: nat, c: Charge, scope: Scope)
    ensures var x, y := Total(owed[p := c], scope), Total(owed, scope);
            var earlier, later := Already(owed, p, scope), AmountIn(c, scope);
            x.bytes - y.bytes == later.bytes - earlier.bytes && x.entries - y.entries == later.entries - earlier.entries
  {
    TotalAfterSet(owed, p, c, scope);
    Components(Total(owed[p := c], scope), Already(owed, p, scope), Total(owed, scope), AmountIn(c, scope));
  }

  lemma OwedAfterDrop(owed: map<nat, Charge>, p: nat, scope: Scope)
    ensures var x, y := Total(owed - {p}, scope), Total(owed, scope);
            x.bytes - y.bytes == -Already(owed, p, scope).bytes && x.entries - y.entries == -Already(owed, p, scope).entries
  {
    TotalAfterDrop(owed, p, scope);
    Components(Total(owed - {p}, scope), Already(owed, p, scope), Total(owed, scope), ZERO);
    PlusZero(Total(owed, scope));
  }

  lemma Components(x: Usage, a: Usage, y: Usage, b: Usage)
    ensures x.Plus(a) == y.Plus(b) ==> x.bytes + a.bytes == y.bytes + b.bytes && x.entries + a.entries == y.entries + b.entries
    ensures x.Plus(a) == y && b == ZERO ==> x.bytes + a.bytes == y.bytes && x.entries + a.entries == y.entries
  {
  }

  /** How much a row changes the sum of the rows. */
  lemma HeldAfterSet(rows: map<Artifact, Entry>, a: Artifact, e: Entry, scope: Scope)
    ensures var x, y := Total(RowCharges(rows[a := e]), scope), Total(RowCharges(rows), scope);
            var size, count := SizeOf(Lookup(rows, a)), if a in rows then 1 else 0;
            x.bytes - y.bytes == (if InScope(a.namespace, scope) then e.size - size else 0) &&
            x.entries - y.entries == (if InScope(a.namespace, scope) then 1 - count else 0)
  {
    var charges, c := RowCharges(rows), Charge(a.namespace, Usage(e.size, 1));
    SetRowCharge(rows, a, e);
    TotalAfterSet(charges, a, c, scope);
    AmountOfRow(a, e, scope);
    AmountOfEarlierRow(rows, a, scope);
    ChangeOfRow(Total(RowCharges(rows[a := e]), scope), Total(charges, scope), Already(charges, a, scope), AmountIn(c, scope),
                InScope(a.namespace, scope), SizeOf(Lookup(rows, a)), if a in rows then 1 else 0, e.size);
  }

  lemma ChangeOfRow(x: Usage, y: Usage, earlier: Usage, later: Usage, inScope: bool, size: int, count: int, newSize: int)
    requires x.Plus(earlier) == y.Plus(later) && later == (if inScope then Usage(newSize, 1) else ZERO)
    requires earlier == (if inScope then Usage(size, count) else ZERO)
    ensures x.bytes - y.bytes == (if inScope then newSize - size else 0)
    ensures x.entries - y.entries == (if inScope then 1 - count else 0)
  {
  }

  lemma AmountOfRow(a: Artifact, e: Entry, scope: Scope)
    ensures AmountIn(Charge(a.namespace, Usage(e.size, 1)), scope) ==
              if InScope(a.namespace, scope) then Usage(e.size, 1) else ZERO
  {
  }

  lemma AmountOfEarlierRow(rows: map<Artifact, Entry>, a: Artifact, scope: Scope)
    ensures Already(RowCharges(rows), a, scope) ==
              if InScope(a.namespace, scope) then Usage(SizeOf(Lookup(rows, a)), if a in rows then 1 else 0) else ZERO
  {
    if a in rows {
      AmountOfRow(a, rows[a], scope);
    }
  }

  /** How much less the rows add up to without one of them. */
  lemma HeldAfterDrop(rows: map<Artifact, Entry>, a: Artifact, scope: Scope)
    requires a in rows
    ensures var x, y := Total(RowCharges(rows - {a}), scope), Total(RowCharges(rows), scope);
            y.bytes - x.bytes == (if InScope(a.namespace, scope) then rows[a].size else 0) &&
            y.entries - x.entries == (if InScope(a.namespace, scope) then 1 else 0)
  {
    var charges := RowCharges(rows);
    DropRowCharge(rows, a);
    TotalAfterDrop(charges, a, scope);
    Components(Total(charges - {a}, scope), Already(charges, a, scope), Total(charges, scope), ZERO);
    PlusZero(Total(charges, scope));
  }

  lemma ReadingChange(l: Ledger, namespace: string, amount: Usage, scope: Scope)
    ensures var x, y := Reading(AddTo(l, namespace, amount), scope), Reading(l, scope);
            x.bytes - y.bytes == (if InScope(namespace, scope) then amount.bytes else 0) &&
            x.entries - y.entries == (if InScope(namespace, scope) then amount.entries else 0)
  {
    ReadingAfterAdd(l, namespace, amount, scope);
  }

  lemma ChargingBalances(s: State, t: State, p: nat, namespace: string, amount: Usage)
    requires p !in s.owed && t.rows == s.rows
    requires t.ledger == AddTo(s.ledger, namespace, amount) && t.owed == s.owed[p := Charge(namespace, amount)]
    ensures forall scope :: Balances(s, t, scope)
  {
    forall scope
      ensures Balances(s, t, scope)
    {
      ReadingChange(s.ledger, namespace, amount, scope);
      OwedAfterSet(s.owed, p, Charge(namespace, amount), scope);
    }
  }

  lemma ReleaseBalances(s: State, t: State, p: nat)
    requires p in s.owed && t.rows == s.rows && t.owed == s.owed - {p}
    requires t.ledger == AddTo(s.ledger, s.owed[p].namespace, s.owed[p].amount.Negated())
    ensures forall scope :: Balances(s, t, scope)
  {
    forall scope
      ensures Balances(s, t, scope)
    {
      ReadingChange(s.ledger, s.owed[p].namespace, s.owed[p].amount.Negated(), scope);
      OwedAfterDrop(s.owed, p, scope);
    }
  }

  /** A commit turns what was reserved into a row and a left-over. */
  lemma CommitBalances(s: State, t: State, p: nat, u: Proc)
    requires u.Upload? && u.previous == Lookup(s.rows, u.artifact) && t.ledger == s.ledger
    requires p in s.owed && s.owed[p] == Charge(u.artifact.namespace, Need(u))
    requires t.rows == s.rows[u.artifact := Entry(u.generation, u.size)]
    requires t.owed == s.owed[p := Charge(u.artifact.namespace, Leftover(u))]
    ensures forall scope :: Balances(s, t, scope)
  {
    forall scope
      ensures Balances(s, t, scope)
    {
      HeldAfterSet(s.rows, u.artifact, Entry(u.generation, u.size), scope);
      OwedAfterSet(s.owed, p, Charge(u.artifact.namespace, Leftover(u)), scope);
    }
  }

  /** A removal turns a row into a debt. */
  lemma RemovalBalances(s: State, t: State, p: nat, a: Artifact)
    requires p !in s.owed && a in s.rows && t.ledger == s.ledger && t.rows == s.rows - {a}
    requires t.owed == s.owed[p := Charge(a.namespace, Usage(s.rows[a].size, 1))]
    ensures forall scope :: Balances(s, t, scope)
  {
    forall scope
      ensures Balances(s, t, scope)
    {
      HeldAfterDrop(s.rows, a, scope);
      OwedAfterSet(s.owed, p, Charge(a.namespace, Usage(s.rows[a].size, 1)), scope);
    }
  }

  /** Reconcile's ledger is exact for the rows that are left. */
  lemma {:induction false} RebuiltIsExact(rows: map<Artifact, Entry>)
    ensures Tidy(Rebuilt(rows)) && forall scope :: RebuiltReads(rows, scope)
    decreases |rows|
  {
    if rows == map[] {
      assert RowCharges(rows) == map[];
    } else {
      var a :| a in rows && Rebuilt(rows) == AddTo(Rebuilt(rows - {a}), a.namespace, Usage(rows[a].size, 1));
      FewerRows(rows, a);
      RebuiltIsExact(rows - {a});
      AddKeepsTidy(Rebuilt(rows - {a}), a.namespace, Usage(rows[a].size, 1));
      forall scope
        ensures RebuiltReads(rows, scope)
      {
        assert RebuiltReads(rows - {a}, scope);
        OneMoreRow(Rebuilt(rows - {a}), rows, a, scope);
      }
    }
  }

  ghost predicate RebuiltReads(rows: map<Artifact, Entry>, scope: Scope) {
    ReadsRows(Rebuilt(rows), rows, scope)
  }

  ghost predicate ReadsRows(l: Ledger, rows: map<Artifact, Entry>, scope: Scope) {
    Reading(l, scope) == Total(RowCharges(rows), scope)
  }

  lemma OneMoreRow(l: Ledger, rows: map<Artifact, Entry>, a: Artifact, scope: Scope)
    requires a in rows && ReadsRows(l, rows - {a}, scope)
    ensures ReadsRows(AddTo(l, a.namespace, Usage(rows[a].size, 1)), rows, scope)
  {
    ReadingChange(l, a.namespace, Usage(rows[a].size, 1), scope);
    HeldAfterDrop(rows, a, scope);
  }

  // ---------------------------------------------------------------- every event keeps the books

  /** A step that leaves the rows, the debts and the ledger alone. */
  ghost predicate SameBooks(s: State, t: State) {
    t.rows == s.rows && t.owed == s.owed && t.ledger == s.ledger && t.ready == s.ready && t.config == s.config
  }

  lemma SameBooksKept(s: State, t: State)
    requires Books(s) && SameBooks(s, t)
    ensures Books(t)
  {
    if t.ready {
      forall scope
        ensures Exact(t, scope)
      {
        assert Exact(s, scope);
      }
    }
  }

  lemma ReleaseKeepsBooks(s: State, t: State, p: nat)
    requires Books(s) && t.rows == s.rows && t.ready == s.ready && t.config == s.config
    requires t.owed == Release(s, p).owed && t.ledger == Release(s, p).ledger
    ensures Books(t)
  {
    if p in s.owed {
      if Tidy(s.ledger) { AddKeepsTidy(s.ledger, s.owed[p].namespace, s.owed[p].amount.Negated()); }
      ReleaseBalances(s, t, p);
      BalancedStep(s, t);
    } else {
      SameBooksKept(s, t);
    }
  }

  lemma ChargeKeepsBooks(s: State, t: State, p: nat, namespace: string, amount: Usage)
    requires Books(s) && p !in s.owed && t.rows == s.rows && t.ready == s.ready
    requires t.ledger == AddTo(s.ledger, namespace, amount) && t.owed == s.owed[p := Charge(namespace, amount)]
    ensures Books(t)
  {
    if Tidy(s.ledger) { AddKeepsTidy(s.ledger, namespace, amount); }
    ChargingBalances(s, t, p, namespace, amount);
    BalancedStep(s, t);
  }

  lemma ReservingKeepsBooks(s: State, p: nat, namespace: string, amount: Usage, proc: Proc)
    requires Books(s) && p !in s.owed
    ensures Books(Put(Charged(s, p, namespace, amount), p, proc))
  {
    ChargeKeepsBooks(s, Put(Charged(s, p, namespace, amount), p, proc), p, namespace, amount);
  }

  lemma MovingKeepsBooks(s: State, p: nat, proc: Proc)
    requires Books(s)
    ensures Books(Put(s, p, proc))
  {
    SameBooksKept(s, Put(s, p, proc));
  }

  lemma ReserveKeepsBooks(s: State, p: nat, u: Proc)
    requires Books(s) && u.Upload? && p !in s.owed
    ensures Books(ReserveStep(s, p, u))
  {
    ReservingKeepsBooks(s, p, u.artifact.namespace, Need(u), u.(at := Reserved));
    MovingKeepsBooks(s, p, u.(at := Cleaning(false)));
  }

  lemma CommitKeepsBooks(s: State, p: nat, u: Proc)
    requires Books(s) && StoreInv(s) && p in s.procs && s.procs[p] == u && u.Upload? && u.at.Reserved?
    ensures Books(CommitStep(s, p, u))
  {
    var t := CommitStep(s, p, u);
    assert ProcInv(s, p);
    if s.now >= u.deadline {
      SameBooksKept(s, t);
    } else {
      CommitBalances(s, t, p, u);
      BalancedStep(s, t);
    }
  }

  predicate MovesBooks(u: Proc, e: Event)
    requires u.Upload?
  {
    (e.Reserve? && u.at.Uploaded?) || (e.Commit? && u.at.Reserved?) || (e.Settle? && (u.at.Cleaning? || u.at.Committed?))
  }

  ghost predicate Harmless(s: State, t: State) {
    t.config == s.config && forall path | path in s.objects && Referenced(s, path) :: path in t.objects
  }

  lemma RegisterLeavesBooks(s: State, p: nat, u: Proc)
    requires u.Upload?
    ensures SameBooks(s, RegisterStep(s, p, u)) && Harmless(s, RegisterStep(s, p, u))
  {
  }

  lemma PutReturnsLeavesBooks(s: State, p: nat, u: Proc)
    requires u.Upload?
    ensures SameBooks(s, PutReturnsStep(s, p, u))
  {
    var path := PathOf(u.artifact, u.generation);
    if path in s.objects && s.objects[path] == u.size {
      assert SameBooks(s, PutReturnsStep(s, p, u));
    }
  }

  lemma PutReturnsIsHarmless(s: State, p: nat, u: Proc)
    requires u.Upload?
    ensures Harmless(s, PutReturnsStep(s, p, u))
  {
  }

  lemma EarlyUploadLeavesBooks(s: State, p: nat, u: Proc, e: Event)
    requires u.Upload? && (u.at.Locking? || u.at.Looked? || u.at.Registered?)
    ensures SameBooks(s, UploadStep(s, p, u, e)) && Harmless(s, UploadStep(s, p, u, e))
  {
    if e.Register? && u.at.Looked? {
      RegisterLeavesBooks(s, p, u);
    } else if e.PutReturns? && u.at.Registered? {
      PutReturnsLeavesBooks(s, p, u);
      PutReturnsIsHarmless(s, p, u);
    } else {
      EarlyUploadWaits(s, p, u, e);
    }
  }

  lemma EarlyUploadWaits(s: State, p: nat, u: Proc, e: Event)
    requires u.Upload? && (u.at.Locking? || u.at.Looked? || u.at.Registered?)
    requires !(e.Register? && u.at.Looked?) && !(e.PutReturns? && u.at.Registered?)
    ensures var t := UploadStep(s, p, u, e); t == s.(procs := t.procs, gates := t.gates)
  {
    if e.Lock? && u.at.Locking? && u.artifact !in s.gates {
      assert UploadStep(s, p, u, e).gates == s.gates[u.artifact := p];
    } else if e.GiveUp? && u.at.Locking? {
      assert UploadStep(s, p, u, e).gates == s.gates;
    } else if e.GiveUp? && u.at.Looked? {
      assert UploadStep(s, p, u, e).gates == s.gates - {u.artifact};
    } else if e.Fail? && u.at.Registered? {
      assert UploadStep(s, p, u, e).gates == s.gates;
    } else {
      assert UploadStep(s, p, u, e) == s;
    }
  }

  lemma LateUploadLeavesBooks(s: State, p: nat, u: Proc, e: Event)
    requires u.Upload? && !(u.at.Locking? || u.at.Looked? || u.at.Registered?) && !MovesBooks(u, e)
    ensures SameBooks(s, UploadStep(s, p, u, e))
  {
    if e.Fail? && Live(u) {
      assert UploadStep(s, p, u, e) == Put(s, p, u.(at := Cleaning(u.at.Reserved?)));
    } else if e.Clean? && u.at.Cleaning? && e.path.artifact == u.artifact && e.path.generation == u.generation {
      assert UploadStep(s, p, u, e) == s.(objects := s.objects - {e.path});
    } else {
      assert UploadStep(s, p, u, e) == s;
    }
  }

  lemma UploadLeavesBooks(s: State, p: nat, u: Proc, e: Event)
    requires u.Upload? && !MovesBooks(u, e)
    ensures SameBooks(s, UploadStep(s, p, u, e))
  {
    if u.at.Locking? || u.at.Looked? || u.at.Registered? {
      EarlyUploadLeavesBooks(s, p, u, e);
    } else {
      LateUploadLeavesBooks(s, p, u, e);
    }
  }

  lemma SettleKeepsBooks(s: State, p: nat, u: Proc)
    requires Books(s) && u.Upload?
    ensures Books(SettleUpload(s, p, u))
  {
    ReleaseKeepsBooks(s, SettleUpload(s, p, u), p);
  }

  lemma UploadKeepsBooks(s: State, p: nat, u: Proc, e: Event)
    requires Books(s) && StoreInv(s) && p in s.procs && s.procs[p] == u && u.Upload?
    ensures Books(UploadStep(s, p, u, e))
  {
    if !MovesBooks(u, e) {
      UploadLeavesBooks(s, p, u, e);
      SameBooksKept(s, UploadStep(s, p, u, e));
    } else {
      UploadMovesBooks(s, p, u, e);
    }
  }

  lemma OwesNothingYet(s: State, p: nat, u: Proc)
    requires Procs(s) && p in s.procs && s.procs[p] == u && u.Upload? && u.at.Uploaded?
    ensures p !in s.owed
  {
    assert ProcInv(s, p);
  }

  lemma UploadMovesBooks(s: State, p: nat, u: Proc, e: Event)
    requires Books(s) && StoreInv(s) && p in s.procs && s.procs[p] == u && u.Upload? && MovesBooks(u, e)
    ensures Books(UploadStep(s, p, u, e))
  {
    match e
    case Reserve =>
      OwesNothingYet(s, p, u);
      ReserveKeepsBooks(s, p, u);
    case Commit => CommitKeepsBooks(s, p, u);
    case Settle => SettleKeepsBooks(s, p, u);
  }

  lemma RemovalKeepsBooks(s: State, p: nat, r: Proc, e: Event)
    requires Books(s) && StoreInv(s) && p in s.procs && s.procs[p] == r && r.Removal?
    ensures Books(RemovalStep(s, p, r, e))
  {
    var t := RemovalStep(s, p, r, e);
    assert ProcInv(s, p);
    if e.Remove? && r.locked && r.artifact in s.rows && (r.expected.None? || r.expected.value == s.rows[r.artifact].generation) {
      RemovalBalances(s, t, p, r.artifact);
      BalancedStep(s, t);
    } else {
      SameBooksKept(s, t);
    }
  }

  lemma ReconcileKeepsBooks(s: State, p: nat, e: Event)
    requires Books(s) && StoreInv(s)
    ensures Books(ReconcileStep(s, p, e))
  {
    var t := ReconcileStep(s, p, e);
    if t.ready && !s.ready {
      RebuiltIsExact(s.rows);
      NobodyOwes(s);
      forall scope
        ensures Exact(t, scope)
      {
        assert RebuiltReads(s.rows, scope);
      }
    } else if t.ready {
      SameBooksKept(s, t);
    }
  }

  lemma NobodyOwes(s: State)
    requires Starting(s)
    ensures s.owed == map[]
  {
    forall p: nat
      ensures p !in s.owed
    {
      assert ProcInv(s, p);
    }
    assert s.owed == map[];
  }

  lemma NextKeepsBooks(s: State, p: nat, e: Event)
    requires Books(s) && StoreInv(s)
    ensures Books(Next(s, p, e))
  {
    if IsOutside(e) {
      OutsideKeepsBooks(s, e);
    } else if e.DropRow? || e.DropOrphan? || e.Recount? || e.Start? {
      ReconcileKeepsBooks(s, p, e);
    } else if e.BeginUpload? || e.BeginRemoval? || e.BeginSweep? {
      BeginKeepsBooks(s, p, e);
    } else if p in s.procs {
      var proc := s.procs[p];
      match proc
      case Upload(_, _, _, _, _, _) => UploadKeepsBooks(s, p, proc, e);
      case Removal(_, _, _) => RemovalKeepsBooks(s, p, proc, e);
      case Removed(_, _) => RemovedKeepsBooks(s, p, proc, e);
      case Sweep(_, _) => SweepKeepsBooks(s, p, proc, e);
    }
  }

  lemma OutsideKeepsBooks(s: State, e: Event)
    requires Books(s)
    ensures Books(Outside(s, e))
  {
    if !e.Stop? {
      SameBooksKept(s, Outside(s, e));
    }
  }

  lemma BeginKeepsBooks(s: State, p: nat, e: Event)
    requires Books(s)
    ensures Books(BeginStep(s, p, e))
  {
    SameBooksKept(s, BeginStep(s, p, e));
  }

  lemma RemovedKeepsBooks(s: State, p: nat, r: Proc, e: Event)
    requires Books(s) && r.Removed?
    ensures Books(RemovedStep(s, p, r, e))
  {
    if e.Settle? {
      ReleaseKeepsBooks(s, RemovedStep(s, p, r, e), p);
    }
  }

  lemma SweepKeepsBooks(s: State, p: nat, w: Proc, e: Event)
    requires Books(s) && w.Sweep?
    ensures Books(SweepStep(s, p, w, e))
  {
    SweepLeavesBooks(s, p, w, e);
    SameBooksKept(s, SweepStep(s, p, w, e));
  }

  lemma SweepLeavesBooks(s: State, p: nat, w: Proc, e: Event)
    requires w.Sweep?
    ensures SameBooks(s, SweepStep(s, p, w, e))
  {
    if e.Delete? && e.path in w.doomed {
      assert SameBooks(s, SweepStep(s, p, w, e));
    } else if e.Acknowledge? && e.path in w.deleted {
      assert SameBooks(s, SweepStep(s, p, w, e));
    } else if e.GiveUp? {
      assert SameBooks(s, SweepStep(s, p, w, e));
    }
  }

  // ---------------------------------------------------------------- the limits

  /** Everything and every namespace is within the limits. */
  ghost predicate Bounded(s: State) {
    BoundedIn(s, Everything) && forall n :: BoundedIn(s, Only(n))
  }

  ghost predicate BoundedIn(s: State, scope: Scope) {
    Reading(s.ledger, scope).Within(if scope.Everything? then s.config.limits.max else s.config.limits.ForNamespace())
  }

  lemma LoweringStaysBounded(s: State, t: State, namespace: string, amount: Usage)
    requires Bounded(s) && t.config == s.config && amount.bytes >= 0 && amount.entries >= 0
    requires t.ledger == AddTo(s.ledger, namespace, amount.Negated())
    ensures Bounded(t)
  {
    ReadingChange(s.ledger, namespace, amount.Negated(), Everything);
    forall n
      ensures BoundedIn(t, Only(n))
    {
      assert BoundedIn(s, Only(n));
      ReadingChange(s.ledger, namespace, amount.Negated(), Only(n));
    }
  }

  lemma FittingStaysBounded(s: State, t: State, namespace: string, amount: Usage)
    requires Bounded(s) && t.config == s.config && t.ledger == AddTo(s.ledger, namespace, amount)
    requires amount == ZERO || Fits(s, namespace, amount)
    ensures Bounded(t)
  {
    ReadingChange(s.ledger, namespace, amount, Everything);
    forall n
      ensures BoundedIn(t, Only(n))
    {
      assert BoundedIn(s, Only(n));
      ReadingChange(s.ledger, namespace, amount, Only(n));
    }
  }

  lemma ReserveStaysBounded(s: State, p: nat, u: Proc)
    requires Bounded(s) && u.Upload?
    ensures Bounded(ReserveStep(s, p, u))
  {
    var t := ReserveStep(s, p, u);
    if Need(u) == ZERO || Fits(s, u.artifact.namespace, Need(u)) {
      FittingStaysBounded(s, t, u.artifact.namespace, Need(u));
    } else {
      SameLedgerBounded(s, t);
    }
  }

  lemma ReleaseStaysBounded(s: State, t: State, p: nat)
    requires Bounded(s) && t.config == s.config && t.ledger == Release(s, p).ledger && StoreInv(s)
    ensures Bounded(t)
  {
    assert ProcInv(s, p);
    if p in s.owed {
      LoweringStaysBounded(s, t, s.owed[p].namespace, s.owed[p].amount);
    } else {
      SameLedgerBounded(s, t);
    }
  }

  lemma UploadStaysBounded(s: State, p: nat, u: Proc, e: Event)
    requires Bounded(s) && StoreInv(s) && u.Upload?
    ensures Bounded(UploadStep(s, p, u, e))
  {
    if !MovesBooks(u, e) {
      UploadLeavesBooks(s, p, u, e);
      SameLedgerBounded(s, UploadStep(s, p, u, e));
    } else {
      UploadMovesWithinBounds(s, p, u, e);
    }
  }

  lemma UploadMovesWithinBounds(s: State, p: nat, u: Proc, e: Event)
    requires Bounded(s) && StoreInv(s) && u.Upload? && MovesBooks(u, e)
    ensures Bounded(UploadStep(s, p, u, e))
  {
    MovingStep(s, p, u, e);
    match e
    case Reserve => ReserveStaysBounded(s, p, u);
    case Commit => CommitStaysBounded(s, p, u);
    case Settle => SettleStaysBounded(s, p, u);
  }

  lemma MovingStep(s: State, p: nat, u: Proc, e: Event)
    requires u.Upload? && MovesBooks(u, e)
    ensures UploadStep(s, p, u, e)
         == (match e
             case Reserve => ReserveStep(s, p, u)
             case Commit => CommitStep(s, p, u)
             case _ => SettleUpload(s, p, u))
  {
  }

  lemma CommitStaysBounded(s: State, p: nat, u: Proc)
    requires Bounded(s) && u.Upload?
    ensures Bounded(CommitStep(s, p, u))
  {
    SameLedgerBounded(s, CommitStep(s, p, u));
  }

  lemma SettleStaysBounded(s: State, p: nat, u: Proc)
    requires Bounded(s) && StoreInv(s) && u.Upload?
    ensures Bounded(SettleUpload(s, p, u))
  {
    ReleaseStaysBounded(s, SettleUpload(s, p, u), p);
  }

  lemma ProcessStaysBounded(s: State, p: nat, proc: Proc, e: Event)
    requires Bounded(s) && StoreInv(s)
    ensures proc.Removal? ==> Bounded(RemovalStep(s, p, proc, e))
    ensures proc.Removed? ==> Bounded(RemovedStep(s, p, proc, e))
    ensures proc.Sweep? ==> Bounded(SweepStep(s, p, proc, e))
  {
    match proc
    case Upload(_, _, _, _, _, _) =>
    case Removal(_, _, _) =>
      RemovalLeavesLedger(s, p, proc, e);
      SameLedgerBounded(s, RemovalStep(s, p, proc, e));
    case Removed(_, _) => if e.Settle? { ReleaseStaysBounded(s, RemovedStep(s, p, proc, e), p); }
    case Sweep(_, _) =>
      SweepLeavesBooks(s, p, proc, e);
      SameLedgerBounded(s, SweepStep(s, p, proc, e));
  }

  lemma RemovalLeavesLedger(s: State, p: nat, r: Proc, e: Event)
    requires r.Removal?
    ensures RemovalStep(s, p, r, e).ledger == s.ledger && RemovalStep(s, p, r, e).config == s.config
  {
    if e.Lock? || e.GiveUp? {
      assert RemovalStep(s, p, r, e).ledger == s.ledger;
    } else if e.Remove? && r.locked && r.artifact in s.rows {
      assert RemovalStep(s, p, r, e).ledger == s.ledger;
    }
  }

  lemma OutsideStaysBounded(s: State, e: Event)
    requires Bounded(s) && ZERO.Within(s.config.limits.ForNamespace())
    ensures Bounded(Outside(s, e))
  {
    if !e.Stop? {
      OutsideLeavesConfig(s, e);
      SameLedgerBounded(s, Outside(s, e));
    }
  }

  lemma OthersStayBounded(s: State, p: nat, e: Event)
    requires Bounded(s) && (s.ready || !(e.Recount? || e.Start?))
    ensures Bounded(ReconcileStep(s, p, e)) && Bounded(BeginStep(s, p, e))
  {
    ReconcileStaysBounded(s, p, e);
    SameLedgerBounded(s, BeginStep(s, p, e));
  }

  lemma ReconcileStaysBounded(s: State, p: nat, e: Event)
    requires Bounded(s) && (s.ready || !(e.Recount? || e.Start?))
    ensures Bounded(ReconcileStep(s, p, e))
  {
    SameLedgerBounded(s, ReconcileStep(s, p, e));
  }

  /** No interleaving of uploads, removals, evictions and deletions takes the cache over its limits;
      only a start can, on rows stored under wider ones. */
  lemma NextStaysBounded(s: State, p: nat, e: Event)
    requires Bounded(s) && StoreInv(s) && ZERO.Within(s.config.limits.ForNamespace())
    requires s.ready || !(e.Recount? || e.Start?)
    ensures Bounded(Next(s, p, e))
  {
    if IsOutside(e) {
      OutsideStaysBounded(s, e);
    } else if e.DropRow? || e.DropOrphan? || e.Recount? || e.Start? || e.BeginUpload? || e.BeginRemoval? || e.BeginSweep? {
      OthersStayBounded(s, p, e);
    } else if p in s.procs {
      if s.procs[p].Upload? {
        UploadStaysBounded(s, p, s.procs[p], e);
      } else {
        ProcessStaysBounded(s, p, s.procs[p], e);
      }
    }
  }

  lemma SameLedgerBounded(s: State, t: State)
    requires Bounded(s) && t.config == s.config && t.ledger == s.ledger
    ensures Bounded(t)
  {
    forall n
      ensures BoundedIn(t, Only(n))
    {
      assert BoundedIn(s, Only(n));
    }
  }

  lemma OutsideLeavesConfig(s: State, e: Event)
    ensures Outside(s, e).config == s.config
    ensures !e.Stop? ==> Outside(s, e).ledger == s.ledger
    ensures Outside(s, e).rows == s.rows
  {
    match e
    case Land(_, _) =>
    case Damage(_, _) =>
    case Stop =>
    case _ =>
  }
}

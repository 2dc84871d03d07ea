/** What one process of the compiler cache gets done when nobody comes between its steps and nothing
    fails: an upload is committed, a removal removes, a due deletion is carried out.  Each is stated on a
    run. */
module CompileProgress {
  import opened Wrappers
  import opened CompileLedger
  import opened CompileEviction
  import opened CompileProtocol
  import opened CompileObjects
  import opened CompileBooks
  import opened CompileRuns

  /** A run in which only process p acts. */
  function Alone(p: nat, events: seq<Event>): seq<(nat, Event)> {
    if events == [] then [] else [(p, events[0])] + Alone(p, events[1..])
  }

  lemma OneStep(s: State, p: nat, e: Event, rest: seq<Event>)
    ensures Run(s, Alone(p, [e] + rest)) == Run(Next(s, p, e), Alone(p, rest))
  {
    var events := [e] + rest;
    assert events[1..] == rest;
    assert Alone(p, events)[0] == (p, e) && Alone(p, events)[1..] == Alone(p, rest);
  }

  lemma NoStep(s: State, p: nat)
    ensures Run(s, Alone(p, [])) == s
  {
  }

  lemma Begins(s: State, p: nat, e: Event, rest: seq<Event>)
    requires e.BeginUpload? || e.BeginRemoval? || e.BeginSweep?
    ensures Run(s, Alone(p, [e] + rest)) == Run(BeginStep(s, p, e), Alone(p, rest))
  {
    OneStep(s, p, e, rest);
  }

  lemma DeleteActs(s: State, p: nat, path: Path, ok: bool, effect: bool, rest: seq<Event>)
    requires p in s.procs && s.procs[p] == Sweep({path}, {})
    ensures Run(s, Alone(p, [Delete(path, ok, effect)] + rest)) ==
            Run(s.(objects := if ok || effect then s.objects - {path} else s.objects,
                   procs := s.procs[p := if ok then Sweep({path}, {path}) else Sweep({}, {})]), Alone(p, rest))
  {
    var none: set<Path> := {};
    assert {path} - {path} == none && none + {path} == {path} && none - {path} == none;
    OneStep(s, p, Delete(path, ok, effect), rest);
  }

  lemma AcknowledgeActs(s: State, p: nat, path: Path, rest: seq<Event>)
    requires p in s.procs && s.procs[p] == Sweep({path}, {path})
    ensures Run(s, Alone(p, [Acknowledge(path)] + rest)) ==
            Run(s.(outbox := s.outbox - {path}, procs := s.procs[p := Sweep({}, {})]), Alone(p, rest))
  {
    var none: set<Path> := {};
    assert {path} - {path} == none;
    OneStep(s, p, Acknowledge(path), rest);
  }

  lemma SweepEnds(s: State, p: nat)
    requires p in s.procs && s.procs[p].Sweep?
    ensures Run(s, Alone(p, [GiveUp])) == s.(procs := s.procs - {p})
  {
    assert [GiveUp] + [] == [GiveUp];
    OneStep(s, p, GiveUp, []);
    NoStep(s.(procs := s.procs - {p}), p);
  }

  // ---------------------------------------------------------------- a deletion

  /** The deletion of one path: if it succeeds its record goes too, and if it fails the record stays. */
  function Sweeping(path: Path, ok: bool, effect: bool): seq<Event> {
    [Delete(path, ok, effect)] + (if ok then [Acknowledge(path)] else []) + [GiveUp]
  }

  function Swept(s: State, path: Path, ok: bool, effect: bool): State {
    s.(objects := if ok || effect then s.objects - {path} else s.objects,
       outbox := if ok then s.outbox - {path} else s.outbox)
  }

  lemma SweepRuns(s: State, p: nat, path: Path, ok: bool, effect: bool)
    requires p in s.procs && s.procs[p] == Sweep({path}, {})
    ensures Run(s, Alone(p, Sweeping(path, ok, effect))) == Swept(s, path, ok, effect).(procs := s.procs - {p})
  {
    var w := if ok then Sweep({path}, {path}) else Sweep({}, {});
    var a := s.(objects := Swept(s, path, ok, effect).objects, procs := s.procs[p := w]);
    var rest := (if ok then [Acknowledge(path)] else []) + [GiveUp];
    assert Sweeping(path, ok, effect) == [Delete(path, ok, effect)] + rest;
    DeleteActs(s, p, path, ok, effect, rest);
    WorkerGone(s.procs, p, w, Sweep({}, {}));
    if ok {
      AcknowledgeActs(a, p, path, [GiveUp]);
      SweepEnds(a.(outbox := a.outbox - {path}, procs := a.procs[p := Sweep({}, {})]), p);
    } else {
      assert rest == [GiveUp];
      SweepEnds(a, p);
    }
  }

  lemma WorkerGone(procs: map<nat, Proc>, p: nat, v: Proc, w: Proc)
    ensures procs[p := v] - {p} == procs - {p} && procs[p := v][p := w] - {p} == procs - {p}
  {
  }

  /** A worker that finds a record due deletes its object, and forgets the record exactly if the deletion
      succeeded. */
  lemma DeletionCompletes(s: State, p: nat, path: Path, ok: bool, effect: bool)
    requires s.ready && p !in s.procs && path in s.outbox && s.outbox[path] <= s.now
    ensures var t := Run(s, Alone(p, [BeginSweep({path})] + Sweeping(path, ok, effect)));
            t == s.(objects := if ok || effect then s.objects - {path} else s.objects,
                    outbox := if ok then s.outbox - {path} else s.outbox)
  {
    var begin := BeginSweep({path});
    Begins(s, p, begin, Sweeping(path, ok, effect));
    var began := BeginStep(s, p, begin);
    assert began.procs[p].Sweep? && began.procs[p].doomed == {path};
    var a := s.(procs := s.procs[p := Sweep({path}, {})]);
    assert began == a;
    SweepRuns(a, p, path, ok, effect);
    assert a.procs - {p} == s.procs;
  }

  // ---------------------------------------------------------------- an upload

  lemma RegisterActs(s: State, p: nat, u: Proc, rest: seq<Event>)
    requires p in s.procs && s.procs[p] == u && u.Upload? && u.at.Looked?
    ensures Run(s, Alone(p, [Register] + rest)) == Run(RegisterStep(s, p, u), Alone(p, rest))
  {
    OneStep(s, p, Register, rest);
  }

  lemma LandActs(s: State, p: nat, path: Path, size: nat, rest: seq<Event>)
    requires path in s.outbox && s.now < s.outbox[path] && path !in s.landed
    ensures Run(s, Alone(p, [Land(path, size)] + rest)) ==
            Run(s.(objects := s.objects[path := size], landed := s.landed + {path}), Alone(p, rest))
  {
    OneStep(s, p, Land(path, size), rest);
  }

  lemma PutReturnsActs(s: State, p: nat, u: Proc, rest: seq<Event>)
    requires p in s.procs && s.procs[p] == u && u.Upload? && u.at.Registered?
    ensures Run(s, Alone(p, [PutReturns] + rest)) == Run(PutReturnsStep(s, p, u), Alone(p, rest))
  {
    OneStep(s, p, PutReturns, rest);
  }

  lemma ReserveActs(s: State, p: nat, u: Proc, rest: seq<Event>)
    requires p in s.procs && s.procs[p] == u && u.Upload? && u.at.Uploaded?
    ensures Run(s, Alone(p, [Reserve] + rest)) == Run(ReserveStep(s, p, u), Alone(p, rest))
  {
    OneStep(s, p, Reserve, rest);
  }

  lemma CommitActs(s: State, p: nat, u: Proc, rest: seq<Event>)
    requires p in s.procs && s.procs[p] == u && u.Upload? && u.at.Reserved?
    ensures Run(s, Alone(p, [Commit] + rest)) == Run(CommitStep(s, p, u), Alone(p, rest))
  {
    OneStep(s, p, Commit, rest);
  }

  lemma SettleActs(s: State, p: nat, u: Proc, rest: seq<Event>)
    requires p in s.procs && s.procs[p] == u && u.Upload? && u.at.Committed?
    ensures Run(s, Alone(p, [Settle] + rest)) == Run(SettleUpload(s, p, u), Alone(p, rest))
  {
    OneStep(s, p, Settle, rest);
  }

  /** The service's own state, but for the processes. */
  predicate SameBooks(s: State, t: State) {
    t.rows == s.rows && t.ledger == s.ledger && t.owed == s.owed && t.gates == s.gates && t.now == s.now && t.config == s.config
  }

  /** Every record of another generation is as it was. */
  ghost predicate OtherRecords(s: State, t: State, generation: nat) {
    forall path: Path | path.generation != generation ::
      (path in t.outbox <==> path in s.outbox) && (path in s.outbox ==> t.outbox[path] == s.outbox[path])
  }

  lemma Registers(s: State, p: nat, u: Proc, rest: seq<Event>) returns (t: State)
    requires p in s.procs && s.procs[p] == u && u.Upload? && u.at.Looked?
    ensures Run(s, Alone(p, [Register] + rest)) == Run(t, Alone(p, rest))
    ensures SameBooks(s, t) && OtherRecords(s, t, s.unused) && t.objects == s.objects && t.landed == s.landed
    ensures t.procs == s.procs[p := u.(generation := s.unused, at := Registered)]
    ensures var path := PathOf(u.artifact, s.unused); path in t.outbox && t.now < t.outbox[path]
  {
    RegisterActs(s, p, u, rest);
    t := RegisterStep(s, p, u);
  }

  lemma Returns(s: State, p: nat, u: Proc, rest: seq<Event>) returns (t: State)
    requires p in s.procs && s.procs[p] == u && u.Upload? && u.at.Registered?
    requires var path := PathOf(u.artifact, u.generation); path in s.objects && s.objects[path] == u.size
    ensures Run(s, Alone(p, [PutReturns] + rest)) == Run(t, Alone(p, rest))
    ensures SameBooks(s, t) && t.outbox == s.outbox && t.objects == s.objects - {TempOf(u.artifact, u.generation)}
    ensures t.procs == s.procs[p := u.(at := UploadAt.Uploaded)]
  {
    PutReturnsActs(s, p, u, rest);
    t := PutReturnsStep(s, p, u);
  }

  /** The bytes arrive and the store reports it. */
  lemma Arrives(s: State, p: nat, u: Proc, rest: seq<Event>) returns (t: State)
    requires p in s.procs && s.procs[p] == u && u.Upload? && u.at.Registered?
    requires var path := PathOf(u.artifact, u.generation); path in s.outbox && s.now < s.outbox[path] && path !in s.landed
    ensures Run(s, Alone(p, [Land(PathOf(u.artifact, u.generation), u.size), PutReturns] + rest)) == Run(t, Alone(p, rest))
    ensures SameBooks(s, t) && t.outbox == s.outbox
    ensures t.objects == s.objects[PathOf(u.artifact, u.generation) := u.size] - {TempOf(u.artifact, u.generation)}
    ensures t.procs == s.procs[p := u.(at := UploadAt.Uploaded)]
  {
    var path := PathOf(u.artifact, u.generation);
    LandActs(s, p, path, u.size, [PutReturns] + rest);
    assert [Land(path, u.size)] + ([PutReturns] + rest) == [Land(path, u.size), PutReturns] + rest;
    t := Returns(s.(objects := s.objects[path := u.size], landed := s.landed + {path}), p, u, rest);
  }

  /** From looking up the previous entry to the object in the store. */
  lemma UploadArrives(s: State, p: nat, u: Proc, rest: seq<Event>) returns (t: State)
    requires p in s.procs && s.procs[p] == u && u.Upload? && u.at.Looked? && PathOf(u.artifact, s.unused) !in s.landed
    ensures Run(s, Alone(p, [Register, Land(PathOf(u.artifact, s.unused), u.size), PutReturns] + rest)) == Run(t, Alone(p, rest))
    ensures t.objects == s.objects[PathOf(u.artifact, s.unused) := u.size] - {TempOf(u.artifact, s.unused)}
    ensures SameBooks(s, t) && OtherRecords(s, t, s.unused)
    ensures t.procs == s.procs[p := u.(generation := s.unused, at := UploadAt.Uploaded)]
  {
    var path := PathOf(u.artifact, s.unused);
    var registered := u.(generation := s.unused, at := Registered);
    var a := Registers(s, p, u, [Land(path, u.size), PutReturns] + rest);
    assert [Register] + ([Land(path, u.size), PutReturns] + rest) == [Register, Land(path, u.size), PutReturns] + rest;
    t := Arrives(a, p, registered, rest);
    assert s.procs[p := registered][p := registered.(at := UploadAt.Uploaded)] == s.procs[p := registered.(at := UploadAt.Uploaded)];
  }

  lemma Reserves(s: State, p: nat, u: Proc, rest: seq<Event>) returns (t: State)
    requires p in s.procs && s.procs[p] == u && u.Upload? && u.at.Uploaded? && Fits(s, u.artifact.namespace, Need(u))
    ensures Run(s, Alone(p, [Reserve] + rest)) == Run(t, Alone(p, rest))
    ensures t == s.(ledger := AddTo(s.ledger, u.artifact.namespace, Need(u)),
                    owed := s.owed[p := Charge(u.artifact.namespace, Need(u))], procs := s.procs[p := u.(at := UploadAt.Reserved)])
  {
    ReserveActs(s, p, u, rest);
    t := ReserveStep(s, p, u);
  }

  /** The records after a commit: that of the new object is gone, that of the replaced one is there. */
  function RecordsAfter(outbox: map<Path, nat>, u: Proc, now: nat): map<Path, nat>
    requires u.Upload?
  {
    var cleared := outbox - {PathOf(u.artifact, u.generation), TempOf(u.artifact, u.generation)};
    if u.previous.Some? then Enqueue(cleared, PathOf(u.artifact, u.previous.value.generation), now) else cleared
  }

  function ProcsAfter(procs: map<nat, Proc>, p: nat, u: Proc): map<nat, Proc>
    requires u.Upload?
  {
    if u.previous.Some? then procs[p := Sweep({PathOf(u.artifact, u.previous.value.generation)}, {})] else procs - {p}
  }

  lemma ProcsAfterBoth(procs: map<nat, Proc>, p: nat, u: Proc, v: Proc, w: Proc)
    requires u.Upload? && w.Upload? && w.previous == u.previous && w.artifact == u.artifact
    ensures ProcsAfter(procs[p := v], p, w) == ProcsAfter(procs, p, u)
  {
    if u.previous.Some? {
      var worker := Sweep({PathOf(u.artifact, u.previous.value.generation)}, {});
      assert procs[p := v][p := worker] == procs[p := worker];
    } else {
      assert procs[p := v] - {p} == procs - {p};
    }
  }

  lemma Commits(s: State, p: nat, u: Proc, rest: seq<Event>) returns (t: State)
    requires p in s.procs && s.procs[p] == u && u.Upload? && u.at.Reserved? && s.now < u.deadline
    ensures Run(s, Alone(p, [Commit] + rest)) == Run(t, Alone(p, rest))
    ensures t.rows == s.rows[u.artifact := Entry(u.generation, u.size)] && t.objects == s.objects && t.ledger == s.ledger
    ensures t.owed == s.owed[p := Charge(u.artifact.namespace, Leftover(u))] && t.gates == s.gates && t.now == s.now
    ensures t.procs == s.procs[p := u.(at := Committed)]
    ensures t.outbox == RecordsAfter(s.outbox, u, s.now)
  {
    CommitActs(s, p, u, rest);
    t := CommitStep(s, p, u);
  }

  /** Giving back what is left over, and handing the replaced object to a worker. */
  lemma Settles(s: State, p: nat, u: Proc) returns (t: State)
    requires p in s.procs && s.procs[p] == u && u.Upload? && u.at.Committed? && p in s.owed
    ensures Run(s, Alone(p, [Settle])) == t
    ensures t.rows == s.rows && t.objects == s.objects && t.outbox == s.outbox && t.now == s.now
    ensures t.ledger == AddTo(s.ledger, s.owed[p].namespace, s.owed[p].amount.Negated()) && t.owed == s.owed - {p}
    ensures t.gates == s.gates - {u.artifact}
    ensures t.procs == ProcsAfter(s.procs, p, u)
  {
    assert [Settle] + [] == [Settle];
    SettleActs(s, p, u, []);
    t := SettleUpload(s, p, u);
    NoStep(t, p);
  }

  lemma PaidBack(owed: map<nat, Charge>, p: nat, a: Charge, b: Charge)
    requires p !in owed
    ensures owed[p := a][p := b] - {p} == owed && owed[p := a] - {p} == owed
  {
  }

  /** From the stored object to the end of the upload. */
  lemma UploadCommits(s: State, p: nat, u: Proc) returns (t: State)
    requires p in s.procs && s.procs[p] == u && u.Upload? && u.at.Uploaded? && s.now < u.deadline && p !in s.owed
    requires Fits(s, u.artifact.namespace, Need(u))
    ensures Run(s, Alone(p, [Reserve, Commit, Settle])) == t
    ensures t.rows == s.rows[u.artifact := Entry(u.generation, u.size)] && t.objects == s.objects && t.now == s.now
    ensures t.ledger == AddTo(AddTo(s.ledger, u.artifact.namespace, Need(u)), u.artifact.namespace, Leftover(u).Negated())
    ensures t.owed == s.owed && t.gates == s.gates - {u.artifact}
    ensures t.outbox == RecordsAfter(s.outbox, u, s.now)
    ensures t.procs == ProcsAfter(s.procs, p, u)
  {
    var namespace, reserved, committed := u.artifact.namespace, u.(at := UploadAt.Reserved), u.(at := Committed);
    assert [Reserve] + [Commit, Settle] == [Reserve, Commit, Settle] && [Commit] + [Settle] == [Commit, Settle];
    var a := Reserves(s, p, u, [Commit, Settle]);
    var b := Commits(a, p, reserved, [Settle]);
    assert Leftover(reserved) == Leftover(u);
    t := Settles(b, p, committed);
    PaidBack(s.owed, p, Charge(namespace, Need(u)), Charge(namespace, Leftover(u)));
    ProcsAfterBoth(s.procs, p, u, reserved, committed);
    ProcsAfterBoth(s.procs[p := reserved], p, reserved, committed, committed);
    assert RecordsAfter(s.outbox, reserved, s.now) == RecordsAfter(s.outbox, u, s.now);
  }

  lemma UploadIsNew(s: State, p: nat, artifact: Artifact, size: nat)
    requires s.ready && p !in s.procs && size > 0
    ensures BeginStep(s, p, BeginUpload(artifact, size)) ==
            s.(procs := s.procs[p := Upload(artifact, size, s.now + s.config.uploadTimeout, Locking, None, 0)])
  {
  }

  lemma BeginsUpload(s: State, p: nat, artifact: Artifact, size: nat, rest: seq<Event>)
    requires s.ready && p !in s.procs && size > 0
    ensures Run(s, Alone(p, [BeginUpload(artifact, size)] + rest)) ==
            Run(s.(procs := s.procs[p := Upload(artifact, size, s.now + s.config.uploadTimeout, Locking, None, 0)]), Alone(p, rest))
  {
    Begins(s, p, BeginUpload(artifact, size), rest);
    UploadIsNew(s, p, artifact, size);
  }

  lemma UploadBegins(s: State, p: nat, artifact: Artifact, size: nat, rest: seq<Event>) returns (t: State)
    requires s.ready && p !in s.procs && artifact !in s.gates && size > 0
    ensures Run(s, Alone(p, [BeginUpload(artifact, size), Lock] + rest)) == Run(t, Alone(p, rest))
    ensures t == s.(gates := s.gates[artifact := p],
                    procs := s.procs[p := Upload(artifact, size, s.now + s.config.uploadTimeout, Looked, Lookup(s.rows, artifact), 0)])
  {
    var begin, u := BeginUpload(artifact, size), Upload(artifact, size, s.now + s.config.uploadTimeout, Locking, None, 0);
    assert [begin] + ([Lock] + rest) == [begin, Lock] + rest;
    BeginsUpload(s, p, artifact, size, [Lock] + rest);
    var a := s.(procs := s.procs[p := u]);
    LockActs(a, p, u, rest);
    t := a.(gates := a.gates[artifact := p], procs := a.procs[p := u.(at := Looked, previous := Lookup(s.rows, artifact))]);
    ProcAgain(s.procs, p, u, t.procs[p]);
  }

  lemma LockActs(s: State, p: nat, u: Proc, rest: seq<Event>)
    requires p in s.procs && s.procs[p] == u && u.Upload? && u.at.Locking? && u.artifact !in s.gates
    ensures Run(s, Alone(p, [Lock] + rest)) ==
            Run(s.(gates := s.gates[u.artifact := p], procs := s.procs[p := u.(at := Looked, previous := Lookup(s.rows, u.artifact))]),
                Alone(p, rest))
  {
    OneStep(s, p, Lock, rest);
  }

  /** What an undisturbed upload goes through; its bytes arrive in one piece. */
  function Uploading(artifact: Artifact, size: nat, generation: nat): seq<Event> {
    [BeginUpload(artifact, size), Lock] + ([Register, Land(PathOf(artifact, generation), size), PutReturns] + [Reserve, Commit, Settle])
  }

  lemma UploadFits(s: State, b: State, u: Proc)
    requires u.Upload? && u.previous == Lookup(s.rows, u.artifact) && b.ledger == s.ledger && b.config == s.config
    requires var grows := if u.size > SizeOf(u.previous) then u.size - SizeOf(u.previous) else 0;
             var more := if u.artifact in s.rows then 0 else 1;
             var own, all, limits := Reading(s.ledger, Only(u.artifact.namespace)), s.ledger.total, s.config.limits;
             own.bytes + grows <= limits.namespaceMax.bytes && own.bytes + grows <= limits.max.bytes &&
             own.entries + more <= limits.namespaceMax.entries && own.entries + more <= limits.max.entries &&
             all.bytes + grows <= limits.max.bytes && all.entries + more <= limits.max.entries
    ensures Fits(b, u.artifact.namespace, Need(u))
  {
  }

  lemma NeedIsFigures(u: Proc)
    requires u.Upload?
    ensures u.size > SizeOf(u.previous) ==> Need(u).bytes == u.size - SizeOf(u.previous) && Leftover(u).bytes == 0
    ensures u.size <= SizeOf(u.previous) ==> Need(u).bytes == 0 && Leftover(u).bytes == SizeOf(u.previous) - u.size
    ensures Leftover(u).entries == 0
    ensures u.previous.None? ==> Need(u).entries == 1
    ensures u.previous.Some? ==> Need(u).entries == 0
  {
  }

  /** Reserving the growth and giving back the shrinkage comes to the difference. */
  lemma NeedLessLeftover(need: int, left: int, size: int, previous: int)
    requires size > previous ==> need == size - previous && left == 0
    requires size <= previous ==> need == 0 && left == previous - size
    ensures need - left == size - previous
  {
  }

  /** In a scope with the namespace the ledger has moved from one entry, or none, to another, and in any
      other not at all. */
  predicate MovedBy(l: Ledger, after: Ledger, scope: Scope, namespace: string, size: nat, previous: Option<Entry>) {
    var x, y := Reading(l, scope), Reading(after, scope);
    if InScope(namespace, scope) then
      y.bytes == x.bytes + size - SizeOf(previous) && y.entries == x.entries + if previous.None? then 1 else 0
    else y.bytes == x.bytes && y.entries == x.entries
  }

  ghost predicate Moved(l: Ledger, after: Ledger, namespace: string, size: nat, previous: Option<Entry>) {
    forall scope :: MovedBy(l, after, scope, namespace, size, previous)
  }

  lemma MovedTwice(l: Ledger, once: Ledger, after: Ledger, scope: Scope, u: Proc)
    requires u.Upload?
    requires var own := InScope(u.artifact.namespace, scope);
             var x, y, z := Reading(l, scope), Reading(once, scope), Reading(after, scope);
             y.bytes - x.bytes == (if own then Need(u).bytes else 0) &&
             y.entries - x.entries == (if own then Need(u).entries else 0) &&
             z.bytes - y.bytes == (if own then -Leftover(u).bytes else 0) &&
             z.entries - y.entries == (if own then -Leftover(u).entries else 0)
    ensures MovedBy(l, after, scope, u.artifact.namespace, u.size, u.previous)
  {
    NeedIsFigures(u);
    NeedLessLeftover(Need(u).bytes, Leftover(u).bytes, u.size, SizeOf(u.previous));
  }

  /** The ledger moves by the difference between the new entry and the previous one. */
  lemma UploadMovesLedger(l: Ledger, u: Proc, scope: Scope)
    requires u.Upload?
    ensures var after := AddTo(AddTo(l, u.artifact.namespace, Need(u)), u.artifact.namespace, Leftover(u).Negated());
            MovedBy(l, after, scope, u.artifact.namespace, u.size, u.previous)
  {
    var namespace, once := u.artifact.namespace, AddTo(l, u.artifact.namespace, Need(u));
    var after := AddTo(once, namespace, Leftover(u).Negated());
    ReadingChange(l, namespace, Need(u), scope);
    ReadingChange(once, namespace, Leftover(u).Negated(), scope);
    MovedTwice(l, once, after, scope, u);
  }

  /** The replaced object is queued, the new one is not. */
  lemma UploadRecords(s: State, outbox: map<Path, nat>, now: nat, u: Proc)
    requires StoreInv(s) && u.Upload? && u.previous == Lookup(s.rows, u.artifact) && u.generation == s.unused
    ensures var after := RecordsAfter(outbox, u, now);
            PathOf(u.artifact, s.unused) !in after &&
            (u.previous.Some? ==> PathOf(u.artifact, u.previous.value.generation) in after)
  {
    if u.previous.Some? {
      var replaced := PathOf(u.artifact, u.previous.value.generation);
      assert Referenced(s, replaced) && PathInv(s, replaced);
      assert replaced.generation < s.unused;
    }
  }

  /** The new object is stored under its row, and every other object is where it was. */
  ghost predicate Stored(s: State, t: State, artifact: Artifact, size: nat) {
    var path := PathOf(artifact, s.unused);
    t.rows == s.rows[artifact := Entry(s.unused, size)] && path in t.objects && t.objects[path] == size && path !in t.outbox &&
    forall other: Path | other.generation != s.unused && other in s.objects ::
      other in t.objects && t.objects[other] == s.objects[other]
  }

  /** The object that has been replaced, if there is one, is queued, and p is the worker that deletes it. */
  predicate ReplacedIsDoomed(s: State, t: State, p: nat, artifact: Artifact) {
    var previous := Lookup(s.rows, artifact);
    if previous.None? then t.procs == s.procs
    else
      var replaced := PathOf(artifact, previous.value.generation);
      replaced in t.outbox && t.procs == s.procs[p := Sweep({replaced}, {})]
  }

  /** The state an undisturbed upload leaves. */
  ghost predicate UploadDone(s: State, t: State, p: nat, artifact: Artifact, size: nat) {
    Stored(s, t, artifact, size) && ReplacedIsDoomed(s, t, p, artifact) &&
    Moved(s.ledger, t.ledger, artifact.namespace, size, Lookup(s.rows, artifact)) && t.owed == s.owed && t.gates == s.gates
  }

  lemma UploadIsStored(s: State, b: State, t: State, u: Proc)
    requires u.Upload? && StoreInv(s) && u.previous == Lookup(s.rows, u.artifact) && u.generation == s.unused
    requires b.objects == s.objects[PathOf(u.artifact, s.unused) := u.size] - {TempOf(u.artifact, s.unused)}
    requires t.rows == s.rows[u.artifact := Entry(s.unused, u.size)] && t.objects == b.objects
    requires t.outbox == RecordsAfter(b.outbox, u, b.now)
    ensures Stored(s, t, u.artifact, u.size)
  {
    UploadRecords(s, b.outbox, b.now, u);
  }

  lemma UploadDooms(s: State, b: State, t: State, p: nat, u: Proc)
    requires u.Upload? && StoreInv(s) && u.previous == Lookup(s.rows, u.artifact) && u.generation == s.unused
    requires p !in s.procs && b.procs == s.procs[p := u]
    requires t.outbox == RecordsAfter(b.outbox, u, b.now) && t.procs == ProcsAfter(b.procs, p, u)
    ensures ReplacedIsDoomed(s, t, p, u.artifact)
  {
    UploadRecords(s, b.outbox, b.now, u);
    ProcsAfterBoth(s.procs, p, u, u, u);
    if u.previous.None? {
      assert s.procs - {p} == s.procs;
    }
  }

  lemma UploadMoves(l: Ledger, after: Ledger, u: Proc)
    requires u.Upload? && after == AddTo(AddTo(l, u.artifact.namespace, Need(u)), u.artifact.namespace, Leftover(u).Negated())
    ensures Moved(l, after, u.artifact.namespace, u.size, u.previous)
  {
    forall scope
      ensures MovedBy(l, after, scope, u.artifact.namespace, u.size, u.previous)
    {
      UploadMovesLedger(l, u, scope);
    }
  }

  lemma GateBack(gates: map<Artifact, nat>, artifact: Artifact, p: nat)
    requires artifact !in gates
    ensures gates[artifact := p] - {artifact} == gates
  {
  }

  /** From the stored object to the end of the upload. */
  lemma UploadLeaves(s: State, b: State, p: nat, u: Proc) returns (t: State)
    requires StoreInv(s) && u.Upload? && u.previous == Lookup(s.rows, u.artifact) && u.generation == s.unused && u.at.Uploaded?
    requires p !in s.procs && u.artifact !in s.gates && p !in s.owed && s.now < u.deadline
    requires b.rows == s.rows && b.ledger == s.ledger && b.owed == s.owed && b.now == s.now && Fits(b, u.artifact.namespace, Need(u))
    requires b.gates == s.gates[u.artifact := p] && b.procs == s.procs[p := u]
    requires b.objects == s.objects[PathOf(u.artifact, s.unused) := u.size] - {TempOf(u.artifact, s.unused)}
    ensures Run(b, Alone(p, [Reserve, Commit, Settle])) == t && UploadDone(s, t, p, u.artifact, u.size)
  {
    t := UploadCommits(b, p, u);
    UploadIsStored(s, b, t, u);
    UploadDooms(s, b, t, p, u);
    UploadMoves(s.ledger, t.ledger, u);
    GateBack(s.gates, u.artifact, p);
  }

  /** An upload that nobody disturbs and for which there is room, in bytes and in entries, is committed:
      its row and its object are there, no record would delete it, the ledger has moved by exactly the
      difference, and the object it replaces is queued and handed to a worker. */
  lemma UploadCompletes(start: State, before: seq<(nat, Event)>, p: nat, artifact: Artifact, size: nat)
    requires Initial(start)
    requires var s := Run(start, before);
             s.ready && p !in s.procs && artifact !in s.gates && size > 0 && s.config.uploadTimeout > 0 &&
             var earlier := SizeOf(Lookup(s.rows, artifact));
             var grows, more := if size > earlier then size - earlier else 0, if artifact in s.rows then 0 else 1;
             var own, all, limits := Reading(s.ledger, Only(artifact.namespace)), s.ledger.total, s.config.limits;
             own.bytes + grows <= limits.namespaceMax.bytes && own.bytes + grows <= limits.max.bytes &&
             own.entries + more <= limits.namespaceMax.entries && own.entries + more <= limits.max.entries &&
             all.bytes + grows <= limits.max.bytes && all.entries + more <= limits.max.entries
    ensures var s := Run(start, before);
            UploadDone(s, Run(s, Alone(p, Uploading(artifact, size, s.unused))), p, artifact, size)
  {
    var s := Run(start, before);
    InitialInv(start);
    RunKeepsInv(start, before);
    assert ProcInv(s, p) && PathInv(s, PathOf(artifact, s.unused));
    var u := Upload(artifact, size, s.now + s.config.uploadTimeout, Looked, Lookup(s.rows, artifact), 0);
    UploadFits(s, s, u);
    UploadGoesThrough(s, p, u);
  }

  lemma UploadGoesThrough(s: State, p: nat, u: Proc)
    requires StoreInv(s) && s.ready && p !in s.procs && p !in s.owed && u.Upload? && u.artifact !in s.gates && u.size > 0
    requires u == Upload(u.artifact, u.size, s.now + s.config.uploadTimeout, Looked, Lookup(s.rows, u.artifact), 0)
    requires s.config.uploadTimeout > 0 && PathOf(u.artifact, s.unused) !in s.landed && Fits(s, u.artifact.namespace, Need(u))
    ensures UploadDone(s, Run(s, Alone(p, Uploading(u.artifact, u.size, s.unused))), p, u.artifact, u.size)
  {
    var arriving := [Register, Land(PathOf(u.artifact, s.unused), u.size), PutReturns];
    var a := UploadBegins(s, p, u.artifact, u.size, arriving + [Reserve, Commit, Settle]);
    var b := UploadArrives(a, p, u, [Reserve, Commit, Settle]);
    var v := u.(generation := s.unused, at := UploadAt.Uploaded);
    SameNeed(s, a, b, p, u, v);
    var t := UploadLeaves(s, b, p, v);
  }

  lemma SameNeed(s: State, a: State, b: State, p: nat, u: Proc, v: Proc)
    requires u.Upload? && v == u.(generation := s.unused, at := UploadAt.Uploaded) && Fits(s, u.artifact.namespace, Need(u))
    requires a.procs == s.procs[p := u] && b.procs == a.procs[p := v] && b.ledger == s.ledger && b.config == s.config
    ensures Fits(b, v.artifact.namespace, Need(v)) && b.procs == s.procs[p := v]
  {
    assert Need(v) == Need(u);
  }

  // ---------------------------------------------------------------- a removal

  lemma BeginsRemoval(s: State, p: nat, artifact: Artifact, rest: seq<Event>)
    requires s.ready && p !in s.procs
    ensures Run(s, Alone(p, [BeginRemoval(artifact, None)] + rest)) ==
            Run(s.(procs := s.procs[p := Removal(artifact, None, false)]), Alone(p, rest))
  {
    Begins(s, p, BeginRemoval(artifact, None), rest);
  }

  lemma LockRemoval(s: State, p: nat, artifact: Artifact, rest: seq<Event>)
    requires p in s.procs && s.procs[p] == Removal(artifact, None, false) && artifact !in s.gates
    ensures Run(s, Alone(p, [Lock] + rest)) ==
            Run(s.(gates := s.gates[artifact := p], procs := s.procs[p := Removal(artifact, None, true)]), Alone(p, rest))
  {
    OneStep(s, p, Lock, rest);
  }

  lemma RowIsTaken(s: State, p: nat, artifact: Artifact)
    requires artifact in s.rows
    ensures var entry := s.rows[artifact];
            RemovalStep(s, p, Removal(artifact, None, true), Remove) ==
            s.(rows := s.rows - {artifact}, outbox := Enqueue(s.outbox, PathOf(artifact, entry.generation), s.now),
               owed := s.owed[p := Charge(artifact.namespace, Usage(entry.size, 1))], procs := s.procs[p := Removed(artifact, entry)])
  {
  }

  lemma RemoveActs(s: State, p: nat, artifact: Artifact, rest: seq<Event>)
    requires p in s.procs && s.procs[p] == Removal(artifact, None, true) && artifact in s.rows
    ensures var entry := s.rows[artifact];
            Run(s, Alone(p, [Remove] + rest)) ==
            Run(s.(rows := s.rows - {artifact}, outbox := Enqueue(s.outbox, PathOf(artifact, entry.generation), s.now),
                   owed := s.owed[p := Charge(artifact.namespace, Usage(entry.size, 1))],
                   procs := s.procs[p := Removed(artifact, entry)]), Alone(p, rest))
  {
    OneStep(s, p, Remove, rest);
    assert Next(s, p, Remove) == RemovalStep(s, p, s.procs[p], Remove);
    RowIsTaken(s, p, artifact);
  }

  lemma SettleRemoved(s: State, p: nat, artifact: Artifact, entry: Entry, rest: seq<Event>)
    requires p in s.procs && s.procs[p] == Removed(artifact, entry) && p in s.owed
    ensures Run(s, Alone(p, [Settle] + rest)) ==
            Run(s.(ledger := AddTo(s.ledger, s.owed[p].namespace, s.owed[p].amount.Negated()), owed := s.owed - {p},
                   gates := s.gates - {artifact}, procs := s.procs[p := Sweep({PathOf(artifact, entry.generation)}, {})]),
                Alone(p, rest))
  {
    OneStep(s, p, Settle, rest);
  }

  lemma RemovalBegins(s: State, p: nat, artifact: Artifact, rest: seq<Event>)
    requires s.ready && p !in s.procs && artifact !in s.gates
    ensures Run(s, Alone(p, [BeginRemoval(artifact, None), Lock] + rest)) ==
            Run(s.(gates := s.gates[artifact := p], procs := s.procs[p := Removal(artifact, None, true)]), Alone(p, rest))
  {
    BeginsRemoval(s, p, artifact, [Lock] + rest);
    assert [BeginRemoval(artifact, None)] + ([Lock] + rest) == [BeginRemoval(artifact, None), Lock] + rest;
    var a := s.(procs := s.procs[p := Removal(artifact, None, false)]);
    LockRemoval(a, p, artifact, rest);
    assert a.procs[p := Removal(artifact, None, true)] == s.procs[p := Removal(artifact, None, true)];
  }

  lemma RemovalTakesRow(s: State, p: nat, artifact: Artifact, rest: seq<Event>)
    requires p in s.procs && s.procs[p] == Removal(artifact, None, true) && artifact in s.rows && p !in s.owed
    ensures var entry := s.rows[artifact];
            Run(s, Alone(p, [Remove, Settle] + rest)) ==
            Run(s.(rows := s.rows - {artifact}, outbox := Enqueue(s.outbox, PathOf(artifact, entry.generation), s.now),
                   ledger := AddTo(s.ledger, artifact.namespace, Usage(entry.size, 1).Negated()), gates := s.gates - {artifact},
                   procs := s.procs[p := Sweep({PathOf(artifact, entry.generation)}, {})]), Alone(p, rest))
  {
    var entry := s.rows[artifact];
    RemoveActs(s, p, artifact, [Settle] + rest);
    assert [Remove] + ([Settle] + rest) == [Remove, Settle] + rest;
    var a := s.(rows := s.rows - {artifact}, outbox := Enqueue(s.outbox, PathOf(artifact, entry.generation), s.now),
                owed := s.owed[p := Charge(artifact.namespace, Usage(entry.size, 1))], procs := s.procs[p := Removed(artifact, entry)]);
    SettleRemoved(a, p, artifact, entry, rest);
    PaidBack(s.owed, p, Charge(artifact.namespace, Usage(entry.size, 1)), Charge(artifact.namespace, Usage(entry.size, 1)));
    ProcAgain(s.procs, p, Removed(artifact, entry), Sweep({PathOf(artifact, entry.generation)}, {}));
  }

  lemma ProcAgain(procs: map<nat, Proc>, p: nat, v: Proc, w: Proc)
    ensures procs[p := v][p := w] == procs[p := w]
    ensures p !in procs ==> procs[p := v] - {p} == procs
  {
  }

  /** A removal that nobody disturbs leaves neither the row nor its object nor a record, and a ledger that
      is smaller by that entry. */
  lemma RemovalCompletes(start: State, before: seq<(nat, Event)>, p: nat, artifact: Artifact)
    requires Initial(start)
    requires var s := Run(start, before); s.ready && p !in s.procs && artifact in s.rows && artifact !in s.gates
    ensures var s := Run(start, before);
            var entry := s.rows[artifact];
            var path := PathOf(artifact, entry.generation);
            Run(s, Alone(p, [BeginRemoval(artifact, None), Lock] + ([Remove, Settle] + Sweeping(path, true, true)))) ==
            s.(rows := s.rows - {artifact}, objects := s.objects - {path},
               ledger := AddTo(s.ledger, artifact.namespace, Usage(entry.size, 1).Negated()))
  {
    var s := Run(start, before);
    InitialInv(start);
    RunKeepsInv(start, before);
    var entry := s.rows[artifact];
    var path := PathOf(artifact, entry.generation);
    assert ProcInv(s, p) && Referenced(s, path) && PathInv(s, path);
    RemovalGoesThrough(s, p, artifact);
  }

  lemma RemovalGoesThrough(s: State, p: nat, artifact: Artifact)
    requires s.ready && p !in s.procs && p !in s.owed && artifact in s.rows && artifact !in s.gates
    requires PathOf(artifact, s.rows[artifact].generation) !in s.outbox
    ensures var entry := s.rows[artifact];
            var path := PathOf(artifact, entry.generation);
            Run(s, Alone(p, [BeginRemoval(artifact, None), Lock] + ([Remove, Settle] + Sweeping(path, true, true)))) ==
            s.(rows := s.rows - {artifact}, objects := s.objects - {path},
               ledger := AddTo(s.ledger, artifact.namespace, Usage(entry.size, 1).Negated()))
  {
    var entry := s.rows[artifact];
    var path, w := PathOf(artifact, entry.generation), Sweep({PathOf(artifact, entry.generation)}, {});
    RemovalBegins(s, p, artifact, [Remove, Settle] + Sweeping(path, true, true));
    var a := s.(gates := s.gates[artifact := p], procs := s.procs[p := Removal(artifact, None, true)]);
    RemovalTakesRow(a, p, artifact, Sweeping(path, true, true));
    GateBack(s.gates, artifact, p);
    ProcAgain(s.procs, p, Removal(artifact, None, true), w);
    ProcAgain(s.procs, p, w, w);
    RemovalSweeps(s, p, artifact, path);
  }

  lemma RemovalSweeps(s: State, p: nat, artifact: Artifact, path: Path)
    requires p !in s.procs && artifact in s.rows && path !in s.outbox
    ensures var ledger := AddTo(s.ledger, artifact.namespace, Usage(s.rows[artifact].size, 1).Negated());
            var b := s.(rows := s.rows - {artifact}, outbox := Enqueue(s.outbox, path, s.now), ledger := ledger,
                        procs := s.procs[p := Sweep({path}, {})]);
            Run(b, Alone(p, Sweeping(path, true, true))) ==
            s.(rows := s.rows - {artifact}, objects := s.objects - {path}, ledger := ledger)
  {
    var ledger := AddTo(s.ledger, artifact.namespace, Usage(s.rows[artifact].size, 1).Negated());
    var b := s.(rows := s.rows - {artifact}, outbox := Enqueue(s.outbox, path, s.now), ledger := ledger,
                procs := s.procs[p := Sweep({path}, {})]);
    SweepRuns(b, p, path, true, true);
    ProcAgain(s.procs, p, Sweep({path}, {}), Sweep({path}, {}));
    assert s.outbox[path := s.now] - {path} == s.outbox;
  }
}

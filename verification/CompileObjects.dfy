/** No step of the compiler cache loses track of an object: what is stored belongs to a row or is
    queued for deletion, and what is deleted is dead. */
module CompileObjects {
  import opened Wrappers
  import opened CompileLedger
  import opened CompileEviction
  import opened CompileProtocol

  // ---------------------------------------------------------------- the invariant

  /** The object a row refers to is there with the row's size, unless it was damaged from outside, and
      is not queued for deletion; any other object has a record in the deletion queue. */
  ghost predicate PathInv(s: State, path: Path) {
    (path in s.objects ==> path in s.landed && (Referenced(s, path) || path in s.outbox)) &&
    (path in s.landed || path in s.outbox || path.generation in s.maker ==> path.generation < s.unused) &&
    (Referenced(s, path) ==> path !in s.outbox && path in s.landed && Intact(s, path, s.rows[path.artifact].size))
  }

  predicate Intact(s: State, path: Path, size: nat) {
    path in s.damaged || (path in s.objects && s.objects[path] == size)
  }

  predicate HoldsGate(proc: Proc) {
    (proc.Upload? && !proc.at.Locking?) || (proc.Removal? && proc.locked) || proc.Removed?
  }

  predicate Owes(proc: Proc) {
    (proc.Upload? && (proc.at.Reserved? || proc.at.Committed? || (proc.at.Cleaning? && proc.at.owing))) || proc.Removed?
  }

  function Debt(proc: Proc): Charge
    requires Owes(proc)
  {
    match proc
    case Upload(artifact, _, _, at, _, _) => Charge(artifact.namespace, if at.Committed? then Leftover(proc) else Need(proc))
    case Removed(artifact, entry) => Charge(artifact.namespace, Usage(entry.size, 1))
  }

  /** Nobody refers to the path, nobody will, and nothing more is written to it. */
  ghost predicate Dead(s: State, path: Path) {
    path.generation < s.unused && !Referenced(s, path) &&
    (path in s.landed || path !in s.outbox || s.outbox[path] <= s.now) &&
    (MadeByLive(s, path) ==> s.now >= s.procs[s.maker[path.generation]].deadline)
  }

  predicate MadeByLive(s: State, path: Path) {
    path.generation in s.maker && s.maker[path.generation] in s.procs &&
    var proc := s.procs[s.maker[path.generation]];
    Live(proc) && proc.generation == path.generation && proc.artifact == path.artifact
  }

  /** The marker of an upload becomes due only after the upload's deadline. */
  predicate MarkedPast(s: State, path: Path, deadline: nat) {
    path in s.outbox && s.outbox[path] > deadline
  }

  /** The generation an upload has made is its own, and no row refers to it yet. */
  ghost predicate Own(s: State, p: nat, u: Proc)
    requires u.Upload?
  {
    u.generation < s.unused && u.generation in s.maker && s.maker[u.generation] == p &&
    !Referenced(s, PathOf(u.artifact, u.generation))
  }

  /** An upload that may still commit has a generation of its own, marked for later deletion; once
      storage.Put has returned its object is there and its temporary file is not. */
  ghost predicate LiveInv(s: State, p: nat, u: Proc)
    requires u.Upload?
  {
    var path, temp := PathOf(u.artifact, u.generation), TempOf(u.artifact, u.generation);
    Own(s, p, u) &&
    (s.now < u.deadline ==> MarkedPast(s, path, u.deadline) && MarkedPast(s, temp, u.deadline)) &&
    (!u.at.Registered? ==>
       temp in s.landed && temp !in s.objects && path in s.landed &&
       (s.now < u.deadline ==> Intact(s, path, u.size)))
  }

  ghost predicate ProcInv(s: State, p: nat) {
    if p !in s.procs then p !in s.owed
    else
      var proc := s.procs[p];
      (Owes(proc) <==> p in s.owed) && (Owes(proc) ==> s.owed[p] == Debt(proc)) &&
      (s.ready || proc.Sweep?) &&
      (HoldsGate(proc) ==> proc.artifact in s.gates && s.gates[proc.artifact] == p) &&
      (proc.Upload? ==> proc.deadline <= s.now + s.config.uploadTimeout) &&
      (proc.Upload? && HoldsGate(proc) && !proc.at.Committed? ==> proc.previous == Lookup(s.rows, proc.artifact)) &&
      (Live(proc) ==> LiveInv(s, p, proc)) && (proc.Upload? && proc.at.Cleaning? ==> Own(s, p, proc)) &&
      (proc.Upload? && proc.at.Committed? && proc.previous.Some? ==>
         Dead(s, PathOf(proc.artifact, proc.previous.value.generation))) &&
      (proc.Removed? ==> Dead(s, PathOf(proc.artifact, proc.entry.generation))) &&
      (proc.Sweep? ==> SweepInv(s, proc))
  }

  ghost predicate SweepInv(s: State, w: Proc)
    requires w.Sweep?
  {
    forall path :: SweptInv(s, w, path)
  }

  ghost predicate SweptInv(s: State, w: Proc, path: Path)
    requires w.Sweep?
  {
    (path in w.doomed ==> Dead(s, path)) && (path in w.deleted ==> path in w.doomed && path !in s.objects)
  }

  ghost predicate Paths(s: State) {
    forall path :: PathInv(s, path)
  }

  ghost predicate Procs(s: State) {
    forall p :: ProcInv(s, p)
  }

  // ---------------------------------------------------------------- what a step leaves alone

  ghost predicate SameAt<K, V>(m: map<K, V>, n: map<K, V>, k: K) {
    (k in m <==> k in n) && (k in m ==> m[k] == n[k])
  }

  /** What a step of process p does not do to a path: create an object anew, revive a dead path, or
      touch what another upload still needs. */
  ghost predicate Keeps(s: State, t: State, p: nat, path: Path) {
    (path in s.damaged ==> path in t.damaged) &&
    (path in s.landed ==> path in t.landed && (path in t.objects ==> path in s.objects)) &&
    (Dead(s, path) ==> Dead(t, path) && (path in t.objects ==> path in s.objects)) &&
    (path.generation in s.maker ==> path.generation in t.maker && t.maker[path.generation] == s.maker[path.generation]) &&
    (NeededByOther(s, p, path) ==>
       SameAt(s.outbox, t.outbox, path) &&
       (path in s.landed ==> SameAt(s.objects, t.objects, path) || path in t.damaged))
  }

  predicate NeededByOther(s: State, p: nat, path: Path) {
    MadeByLive(s, path) && s.maker[path.generation] != p && s.now < s.procs[s.maker[path.generation]].deadline
  }

  ghost predicate KeepsAll(s: State, t: State, p: nat) {
    s.unused <= t.unused && s.now <= t.now && s.config == t.config && forall path :: Keeps(s, t, p, path)
  }

  /** Another process finds its tokens, its gate and the row behind it as it left them. */
  ghost predicate OtherKept(s: State, t: State, q: nat) {
    SameAt(s.procs, t.procs, q) && SameAt(s.owed, t.owed, q) && (s.ready ==> t.ready || q !in s.procs || s.procs[q].Sweep?) &&
    forall a | a in s.gates && s.gates[a] == q :: a in t.gates && t.gates[a] == q && SameAt(s.rows, t.rows, a)
  }

  lemma LiveBystander(s: State, t: State, p: nat, q: nat)
    requires ProcInv(s, q) && KeepsAll(s, t, p) && OtherKept(s, t, q) && p != q
    requires q in s.procs && Live(s.procs[q])
    ensures LiveInv(t, q, s.procs[q])
  {
    var u := s.procs[q];
    var path, temp := PathOf(u.artifact, u.generation), TempOf(u.artifact, u.generation);
    assert Keeps(s, t, p, path) && Keeps(s, t, p, temp);
    assert Referenced(s, path) == Referenced(t, path);
    if t.now < u.deadline {
      assert NeededByOther(s, p, path) && NeededByOther(s, p, temp);
    }
  }

  lemma SweepBystander(s: State, t: State, p: nat, w: Proc)
    requires w.Sweep? && SweepInv(s, w) && KeepsAll(s, t, p)
    ensures SweepInv(t, w)
  {
    forall path
      ensures SweptInv(t, w, path)
    {
      assert SweptInv(s, w, path) && Keeps(s, t, p, path);
    }
  }

  lemma Bystander(s: State, t: State, p: nat, q: nat)
    requires ProcInv(s, q) && KeepsAll(s, t, p) && OtherKept(s, t, q) && p != q
    ensures ProcInv(t, q)
  {
    if q in s.procs {
      var proc := s.procs[q];
      if Live(proc) {
        LiveBystander(s, t, p, q);
      } else if proc.Upload? && proc.at.Cleaning? {
        assert Keeps(s, t, p, PathOf(proc.artifact, proc.generation));
      }
      match proc
      case Upload(artifact, _, _, at, previous, _) =>
        if at.Committed? && previous.Some? {
          assert Keeps(s, t, p, PathOf(artifact, previous.value.generation));
        }
      case Removal(_, _, _) =>
      case Removed(artifact, entry) => assert Keeps(s, t, p, PathOf(artifact, entry.generation));
      case Sweep(_, _) => SweepBystander(s, t, p, proc);
    }
  }

  ghost predicate StoreInv(s: State) {
    Paths(s) && Procs(s) && (s.ready || s.gates == map[])
  }

  /** What has to be shown of a step. */
  ghost predicate GoodStep(s: State, t: State, p: nat) {
    KeepsAll(s, t, p) && Paths(t) && ProcInv(t, p) && t.ready == s.ready && (s.ready || t.gates == s.gates) &&
    forall q | q != p :: OtherKept(s, t, q)
  }

  lemma StepKeepsStore(s: State, t: State, p: nat)
    requires StoreInv(s) && GoodStep(s, t, p)
    ensures StoreInv(t)
  {
    forall q
      ensures ProcInv(t, q)
    {
      if q != p {
        assert ProcInv(s, q) && OtherKept(s, t, q);
        Bystander(s, t, p, q);
      }
    }
  }

  /** A step that leaves the stored data alone and makes no process live. */
  ghost predicate OnlyProcs(s: State, t: State, p: nat) {
    t.config == s.config && t.rows == s.rows && t.outbox == s.outbox && t.objects == s.objects && t.now == s.now &&
    t.unused == s.unused && t.landed == s.landed && t.maker == s.maker && t.damaged == s.damaged && NoNewLive(s, t, p)
  }

  ghost predicate NoNewLive(s: State, t: State, p: nat) {
    (forall q | q != p :: SameAt(s.procs, t.procs, q)) &&
    (p in t.procs && Live(t.procs[p]) ==>
       p in s.procs && Live(s.procs[p]) && t.procs[p].generation == s.procs[p].generation &&
       t.procs[p].artifact == s.procs[p].artifact && t.procs[p].deadline == s.procs[p].deadline)
  }

  lemma SameDeath(s: State, t: State, p: nat, path: Path)
    requires NoNewLive(s, t, p) && SameAt(s.maker, t.maker, path.generation)
    ensures MadeByLive(t, path) ==>
              MadeByLive(s, path) && t.procs[t.maker[path.generation]].deadline == s.procs[s.maker[path.generation]].deadline
  {
    if path.generation in t.maker && t.maker[path.generation] != p {
      assert SameAt(s.procs, t.procs, t.maker[path.generation]);
    }
  }

  lemma ProcsOnlyKeepsAll(s: State, t: State, p: nat)
    requires Paths(s) && OnlyProcs(s, t, p)
    ensures KeepsAll(s, t, p) && Paths(t)
  {
    forall path
      ensures Keeps(s, t, p, path) && PathInv(t, path)
    {
      assert PathInv(s, path);
      SameDeath(s, t, p, path);
    }
  }

  /** Nothing of another process changes when gates and rows change only at an artifact that p alone
      can hold. */
  ghost predicate OnlyAt(s: State, t: State, p: nat, a: Artifact) {
    (a in s.gates ==> s.gates[a] == p) && t.ready == s.ready &&
    (forall q | q != p :: SameAt(s.procs, t.procs, q) && SameAt(s.owed, t.owed, q)) &&
    (forall b | b != a :: SameAt(s.gates, t.gates, b) && SameAt(s.rows, t.rows, b))
  }

  lemma OthersKept(s: State, t: State, p: nat, a: Artifact)
    requires OnlyAt(s, t, p, a)
    ensures forall q | q != p :: OtherKept(s, t, q)
  {
    forall q | q != p
      ensures OtherKept(s, t, q)
    {
      assert SameAt(s.procs, t.procs, q);
      forall b | b in s.gates && s.gates[b] == q
        ensures b in t.gates && t.gates[b] == q && SameAt(s.rows, t.rows, b)
      {
        assert b != a;
        assert SameAt(s.gates, t.gates, b);
      }
    }
  }

  lemma ProcsOnlyIsGood(s: State, t: State, p: nat, a: Artifact)
    requires Paths(s) && s.ready && OnlyProcs(s, t, p) && OnlyAt(s, t, p, a) && ProcInv(t, p)
    ensures GoodStep(s, t, p)
  {
    ProcsOnlyKeepsAll(s, t, p);
    OthersKept(s, t, p, a);
  }

  /** The upload that made a row's object is no longer under way. */
  lemma ReferencedIsSettled(s: State, path: Path)
    requires Procs(s) && Referenced(s, path)
    ensures !MadeByLive(s, path)
  {
    if path.generation in s.maker {
      assert ProcInv(s, s.maker[path.generation]);
    }
  }

  // ---------------------------------------------------------------- the steps of an upload

  lemma LockIsGood(s: State, p: nat, u: Proc)
    requires StoreInv(s) && p in s.procs && s.procs[p] == u && u.Upload? && u.at.Locking? && u.artifact !in s.gates
    ensures GoodStep(s, Put(s.(gates := s.gates[u.artifact := p]), p, u.(at := Looked, previous := Lookup(s.rows, u.artifact))), p)
  {
    assert ProcInv(s, p);
    ProcsOnlyIsGood(s, Put(s.(gates := s.gates[u.artifact := p]), p, u.(at := Looked, previous := Lookup(s.rows, u.artifact))), p, u.artifact);
  }

  lemma GiveUpIsGood(s: State, p: nat, u: Proc)
    requires StoreInv(s) && p in s.procs && s.procs[p] == u && u.Upload? && (u.at.Locking? || u.at.Looked?)
    ensures u.at.Locking? ==> GoodStep(s, s.(procs := s.procs - {p}), p)
    ensures u.at.Looked? ==> GoodStep(s, s.(procs := s.procs - {p}, gates := s.gates - {u.artifact}), p)
  {
    assert ProcInv(s, p);
    if u.at.Looked? {
      ProcsOnlyIsGood(s, s.(procs := s.procs - {p}, gates := s.gates - {u.artifact}), p, u.artifact);
    } else {
      ProcsOnlyKeepsAll(s, s.(procs := s.procs - {p}), p);
    }
  }

  lemma FailIsGood(s: State, p: nat, u: Proc)
    requires StoreInv(s) && p in s.procs && s.procs[p] == u && Live(u)
    ensures GoodStep(s, Put(s, p, u.(at := Cleaning(u.at.Reserved?))), p)
  {
    assert ProcInv(s, p);
    ProcsOnlyIsGood(s, Put(s, p, u.(at := Cleaning(u.at.Reserved?))), p, u.artifact);
  }

  lemma RegisterIsGood(s: State, p: nat, u: Proc)
    requires StoreInv(s) && p in s.procs && s.procs[p] == u && u.Upload? && u.at.Looked?
    ensures GoodStep(s, RegisterStep(s, p, u), p)
  {
    var t, g := RegisterStep(s, p, u), s.unused;
    assert ProcInv(s, p);
    forall path
      ensures Keeps(s, t, p, path) && PathInv(t, path)
    {
      assert PathInv(s, path);
      if path.generation < g {
        assert MadeByLive(t, path) ==> s.maker[path.generation] != p;
        assert MadeByLive(t, path) ==> SameAt(s.procs, t.procs, s.maker[path.generation]);
      }
    }
    OthersKept(s, t, p, u.artifact);
    var path, temp := PathOf(u.artifact, g), TempOf(u.artifact, g);
    assert PathInv(s, path) && PathInv(s, temp) && !Referenced(s, path);
    assert LiveInv(t, p, t.procs[p]);
  }

  lemma PutReturnsIsGood(s: State, p: nat, u: Proc)
    requires StoreInv(s) && p in s.procs && s.procs[p] == u && u.Upload? && u.at.Registered?
    ensures GoodStep(s, PutReturnsStep(s, p, u), p)
  {
    var path, temp := PathOf(u.artifact, u.generation), TempOf(u.artifact, u.generation);
    if path in s.objects && s.objects[path] == u.size {
      UploadedIsGood(s, Put(s.(objects := s.objects - {temp}, landed := s.landed + {temp}), p, u.(at := Uploaded)), p, u);
    } else {
      assert ProcInv(s, p);
      ProcsOnlyIsGood(s, Put(s, p, u.(at := Cleaning(false))), p, u.artifact);
    }
  }

  lemma UploadedIsGood(s: State, t: State, p: nat, u: Proc)
    requires StoreInv(s) && p in s.procs && s.procs[p] == u && u.Upload? && u.at.Registered?
    requires var path, temp := PathOf(u.artifact, u.generation), TempOf(u.artifact, u.generation);
             path in s.objects && s.objects[path] == u.size &&
             t == s.(objects := s.objects - {temp}, landed := s.landed + {temp}, procs := s.procs[p := u.(at := Uploaded)])
    ensures GoodStep(s, t, p)
  {
    var path, temp := PathOf(u.artifact, u.generation), TempOf(u.artifact, u.generation);
    assert ProcInv(s, p) && PathInv(s, path);
    forall q
      ensures Keeps(s, t, p, q) && PathInv(t, q)
    {
      assert PathInv(s, q);
      SameDeath(s, t, p, q);
      assert q == temp && MadeByLive(s, q) ==> s.maker[q.generation] == p;
    }
    OthersKept(s, t, p, u.artifact);
    assert LiveInv(t, p, t.procs[p]);
  }

  lemma ReservedIsGood(s: State, p: nat, u: Proc, ledger: Ledger)
    requires StoreInv(s) && p in s.procs && s.procs[p] == u && u.Upload? && u.at.Uploaded?
    ensures GoodStep(s, s.(ledger := ledger, owed := s.owed[p := Charge(u.artifact.namespace, Need(u))],
                           procs := s.procs[p := u.(at := Reserved)]), p)
  {
    var t := s.(ledger := ledger, owed := s.owed[p := Charge(u.artifact.namespace, Need(u))],
                procs := s.procs[p := u.(at := Reserved)]);
    assert ProcInv(s, p);
    ProcsOnlyIsGood(s, t, p, u.artifact);
  }

  lemma ReserveIsGood(s: State, p: nat, u: Proc)
    requires StoreInv(s) && p in s.procs && s.procs[p] == u && u.Upload? && u.at.Uploaded?
    ensures GoodStep(s, ReserveStep(s, p, u), p)
  {
    ReservedIsGood(s, p, u, AddTo(s.ledger, u.artifact.namespace, Need(u)));
    FailIsGood(s, p, u);
  }

  /** The commit: the new object becomes the row's object, the old one is queued. */
  lemma CommitKeepsPath(s: State, p: nat, u: Proc, path: Path)
    requires StoreInv(s) && p in s.procs && s.procs[p] == u && u.Upload? && u.at.Reserved? && s.now < u.deadline
    ensures var t := CommitStep(s, p, u); Keeps(s, t, p, path) && PathInv(t, path)
  {
    var t := CommitStep(s, p, u);
    var mine, temp := PathOf(u.artifact, u.generation), TempOf(u.artifact, u.generation);
    assert ProcInv(s, p) && PathInv(s, path) && PathInv(s, mine);
    SameDeath(s, t, p, path);
    assert path.generation == u.generation ==> s.maker[path.generation] == p;
    if u.previous.Some? {
      var earlier := PathOf(u.artifact, u.previous.value.generation);
      assert PathInv(s, earlier) && Referenced(s, earlier);
      assert earlier.generation != u.generation;
      ReferencedIsSettled(s, earlier);
    }
  }

  lemma CommitIsGood(s: State, p: nat, u: Proc)
    requires StoreInv(s) && p in s.procs && s.procs[p] == u && u.Upload? && u.at.Reserved?
    ensures GoodStep(s, CommitStep(s, p, u), p)
  {
    var t := CommitStep(s, p, u);
    assert ProcInv(s, p);
    if s.now >= u.deadline {
      ProcsOnlyIsGood(s, t, p, u.artifact);
    } else {
      forall path
        ensures Keeps(s, t, p, path) && PathInv(t, path)
      {
        CommitKeepsPath(s, p, u, path);
      }
      OthersKept(s, t, p, u.artifact);
      CommittedOwner(s, p, u);
    }
  }

  lemma CommittedOwner(s: State, p: nat, u: Proc)
    requires StoreInv(s) && p in s.procs && s.procs[p] == u && u.Upload? && u.at.Reserved? && s.now < u.deadline
    ensures ProcInv(CommitStep(s, p, u), p)
  {
    var t := CommitStep(s, p, u);
    assert ProcInv(s, p);
    if u.previous.Some? {
      var earlier := PathOf(u.artifact, u.previous.value.generation);
      assert PathInv(s, earlier) && Referenced(s, earlier);
      ReferencedIsSettled(s, earlier);
      SameDeath(s, t, p, earlier);
    }
  }

  /** The fast cleanup after a failure. */
  lemma CleanIsGood(s: State, p: nat, u: Proc, path: Path)
    requires StoreInv(s) && p in s.procs && s.procs[p] == u && u.Upload? && u.at.Cleaning?
    requires path.artifact == u.artifact && path.generation == u.generation
    ensures GoodStep(s, s.(objects := s.objects - {path}), p)
  {
    var t := s.(objects := s.objects - {path});
    assert ProcInv(s, p);
    forall other
      ensures Keeps(s, t, p, other) && PathInv(t, other)
    {
      assert PathInv(s, other);
      SameDeath(s, t, p, other);
    }
    OthersKept(s, t, p, u.artifact);
  }

  /** Releasing what a process owes, and its gate, touches nothing stored. */
  lemma ReleaseIsQuiet(s: State, p: nat, proc: Proc, t: State)
    requires StoreInv(s) && p in s.procs && s.procs[p] == proc && HoldsGate(proc)
    requires t == s.(gates := s.gates - {proc.artifact}, procs := t.procs, owed := t.owed, ledger := t.ledger)
    requires t.procs == s.procs - {p} || (p in t.procs && t.procs == s.procs[p := t.procs[p]] && t.procs[p].Sweep?)
    requires t.owed == if p in s.owed then s.owed - {p} else s.owed
    ensures KeepsAll(s, t, p) && Paths(t) && p !in t.owed && forall q | q != p :: OtherKept(s, t, q)
  {
    assert ProcInv(s, p);
    ProcsOnlyKeepsAll(s, t, p);
    OthersKept(s, t, p, proc.artifact);
  }

  lemma SettleUploadIsGood(s: State, p: nat, u: Proc)
    requires StoreInv(s) && p in s.procs && s.procs[p] == u && u.Upload? && (u.at.Cleaning? || u.at.Committed?)
    ensures GoodStep(s, SettleUpload(s, p, u), p)
  {
    var t := SettleUpload(s, p, u);
    ReleaseIsQuiet(s, p, u, t);
    assert ProcInv(s, p);
    if u.at.Committed? && u.previous.Some? {
      NewSweep(s, t, p, PathOf(u.artifact, u.previous.value.generation));
    }
  }

  lemma NewSweep(s: State, t: State, p: nat, path: Path)
    requires KeepsAll(s, t, p) && Dead(s, path) && p in t.procs && t.procs[p] == Sweep({path}, {}) && p !in t.owed
    ensures ProcInv(t, p)
  {
    assert Keeps(s, t, p, path);
  }

  // ---------------------------------------------------------------- removals, deletions and the rest

  lemma RemovalMovesAreGood(s: State, p: nat, r: Proc, e: Event)
    requires StoreInv(s) && p in s.procs && s.procs[p] == r && r.Removal?
    requires (e.Lock? && !r.locked && r.artifact !in s.gates) || e.GiveUp? ||
             (e.Remove? && r.locked && !(r.artifact in s.rows && (r.expected.None? || r.expected.value == s.rows[r.artifact].generation)))
    ensures GoodStep(s, RemovalStep(s, p, r, e), p)
  {
    var t := RemovalStep(s, p, r, e);
    assert ProcInv(s, p);
    ProcsOnlyKeepsAll(s, t, p);
    if r.locked || e.Lock? {
      OthersKept(s, t, p, r.artifact);
    }
  }

  function Taken(s: State, p: nat, r: Proc): State
    requires r.Removal? && r.artifact in s.rows
  {
    var entry := s.rows[r.artifact];
    Put(s.(rows := s.rows - {r.artifact}, outbox := Enqueue(s.outbox, PathOf(r.artifact, entry.generation), s.now),
           owed := s.owed[p := Charge(r.artifact.namespace, Usage(entry.size, 1))]), p, Removed(r.artifact, entry))
  }

  lemma RemoveIsGood(s: State, p: nat, r: Proc)
    requires StoreInv(s) && p in s.procs && s.procs[p] == r && r.Removal? && r.locked && r.artifact in s.rows
    ensures GoodStep(s, Taken(s, p, r), p)
  {
    var t := Taken(s, p, r);
    var gone := PathOf(r.artifact, s.rows[r.artifact].generation);
    assert ProcInv(s, p) && PathInv(s, gone) && Referenced(s, gone);
    ReferencedIsSettled(s, gone);
    forall path
      ensures Keeps(s, t, p, path) && PathInv(t, path)
    {
      assert PathInv(s, path);
      SameDeath(s, t, p, path);
    }
    OthersKept(s, t, p, r.artifact);
    SameDeath(s, t, p, gone);
  }

  lemma RemovedSettlesWell(s: State, p: nat, r: Proc)
    requires StoreInv(s) && p in s.procs && s.procs[p] == r && r.Removed?
    ensures GoodStep(s, RemovedStep(s, p, r, Settle), p)
  {
    var t := RemovedStep(s, p, r, Settle);
    ReleaseIsQuiet(s, p, r, t);
    assert ProcInv(s, p);
    NewSweep(s, t, p, PathOf(r.artifact, r.entry.generation));
  }

  /** Deleting a dead object, and removing the record of one that is gone. */
  lemma SweepIsGood(s: State, p: nat, w: Proc, e: Event)
    requires StoreInv(s) && p in s.procs && s.procs[p] == w && w.Sweep?
    requires (e.Delete? && e.path in w.doomed) || (e.Acknowledge? && e.path in w.deleted)
    ensures GoodStep(s, SweepStep(s, p, w, e), p)
  {
    if e.Delete? {
      SweepDeletes(s, p, w, e.path, e.ok, e.effect);
    } else {
      SweepAcknowledges(s, p, w, e.path);
    }
  }

  lemma SweepDeletes(s: State, p: nat, w: Proc, gone: Path, ok: bool, effect: bool)
    requires StoreInv(s) && p in s.procs && s.procs[p] == w && w.Sweep? && gone in w.doomed
    ensures GoodStep(s, SweepStep(s, p, w, Delete(gone, ok, effect)), p)
  {
    var objects := if ok || effect then s.objects - {gone} else s.objects;
    var next := if ok then w.(deleted := w.deleted + {gone}) else Sweep(w.doomed - {gone}, w.deleted - {gone});
    DeletedAreDoomed(s, p, w);
    SweptAway(s, s.(objects := objects, procs := s.procs[p := next]), p, w, gone);
  }

  lemma SweepAcknowledges(s: State, p: nat, w: Proc, gone: Path)
    requires StoreInv(s) && p in s.procs && s.procs[p] == w && w.Sweep? && gone in w.deleted
    ensures GoodStep(s, SweepStep(s, p, w, Acknowledge(gone)), p)
  {
    assert ProcInv(s, p) && SweptInv(s, w, gone);
    DeletedAreDoomed(s, p, w);
    var next := Sweep(w.doomed - {gone}, w.deleted - {gone});
    SweptAway(s, s.(outbox := s.outbox - {gone}, procs := s.procs[p := next]), p, w, gone);
  }

  lemma DeletedAreDoomed(s: State, p: nat, w: Proc)
    requires StoreInv(s) && p in s.procs && s.procs[p] == w && w.Sweep?
    ensures forall q | q in w.deleted :: q in w.doomed
  {
    assert ProcInv(s, p);
    forall q | q in w.deleted
      ensures q in w.doomed
    {
      assert SweptInv(s, w, q);
    }
  }

  /** What is left of a dead path after a worker has dealt with it. */
  lemma SweptAway(s: State, t: State, p: nat, w: Proc, gone: Path)
    requires StoreInv(s) && p in s.procs && s.procs[p] == w && w.Sweep? && gone in w.doomed
    requires p in t.procs && t == s.(objects := t.objects, outbox := t.outbox, procs := s.procs[p := t.procs[p]])
    requires t.objects in {s.objects, s.objects - {gone}}
    requires t.outbox == s.outbox || (t.outbox == s.outbox - {gone} && gone !in s.objects)
    requires var next := t.procs[p];
             next.Sweep? && (forall q | q in next.doomed :: q in w.doomed) &&
             (forall q | q in next.deleted :: q in next.doomed && (q in w.deleted || (q == gone && gone !in t.objects)))
    ensures GoodStep(s, t, p)
  {
    assert ProcInv(s, p) && SweptInv(s, w, gone);
    forall path
      ensures Keeps(s, t, p, path) && PathInv(t, path)
    {
      assert PathInv(s, path);
      SameDeath(s, t, p, path);
    }
    SweepersKept(s, t, p);
    forall path
      ensures SweptInv(t, t.procs[p], path)
    {
      assert SweptInv(s, w, path) && Keeps(s, t, p, path);
    }
  }

  lemma SweepersKept(s: State, t: State, p: nat)
    requires t.gates == s.gates && t.rows == s.rows && t.ready == s.ready
    requires forall q | q != p :: SameAt(s.procs, t.procs, q) && SameAt(s.owed, t.owed, q)
    ensures forall q | q != p :: OtherKept(s, t, q)
  {
  }

  lemma BeginIsGood(s: State, p: nat, e: Event)
    requires StoreInv(s) && p !in s.procs && s.ready && ((e.BeginUpload? && e.size > 0) || e.BeginRemoval? || e.BeginSweep?)
    ensures GoodStep(s, BeginStep(s, p, e), p)
  {
    assert ProcInv(s, p);
    match e
    case BeginUpload(artifact, size) => JoinIsGood(s, p, Upload(artifact, size, s.now + s.config.uploadTimeout, Locking, None, 0));
    case BeginRemoval(artifact, expected) => JoinIsGood(s, p, Removal(artifact, expected, false));
    case BeginSweep(paths) =>
      var due := set path | path in paths && path in s.outbox && s.outbox[path] <= s.now;
      JoinIsQuiet(s, p, Sweep(due, {}));
      DueIsDead(s, Put(s, p, Sweep(due, {})), p, due);
  }

  lemma JoinIsQuiet(s: State, p: nat, proc: Proc)
    requires StoreInv(s) && p !in s.procs && !Live(proc)
    ensures var t := Put(s, p, proc); KeepsAll(s, t, p) && Paths(t) && forall q | q != p :: OtherKept(s, t, q)
  {
    ProcsOnlyKeepsAll(s, Put(s, p, proc), p);
    SweepersKept(s, Put(s, p, proc), p);
  }

  lemma JoinIsGood(s: State, p: nat, proc: Proc)
    requires StoreInv(s) && p !in s.procs && s.ready && p !in s.owed
    requires (proc.Upload? && proc.at.Locking? && proc.deadline <= s.now + s.config.uploadTimeout) || (proc.Removal? && !proc.locked)
    ensures GoodStep(s, Put(s, p, proc), p)
  {
    JoinIsQuiet(s, p, proc);
  }

  /** A record that is due belongs to no upload that may still commit. */
  lemma DueIsDead(s: State, t: State, p: nat, due: set<Path>)
    requires StoreInv(s) && KeepsAll(s, t, p) && p in t.procs && t.procs[p] == Sweep(due, {})
    requires forall path | path in due :: path in s.outbox && s.outbox[path] <= s.now
    ensures SweepInv(t, t.procs[p])
  {
    forall path
      ensures SweptInv(t, t.procs[p], path)
    {
      if path in due {
        assert PathInv(s, path) && Keeps(s, t, p, path);
        DueMeansPastDeadline(s, path);
      }
    }
  }

  lemma DueMeansPastDeadline(s: State, path: Path)
    requires Procs(s) && path in s.outbox && s.outbox[path] <= s.now
    ensures MadeByLive(s, path) ==> s.now >= s.procs[s.maker[path.generation]].deadline
  {
    if path.generation in s.maker {
      assert ProcInv(s, s.maker[path.generation]);
      var q := s.maker[path.generation];
      if q in s.procs && Live(s.procs[q]) {
        assert LiveInv(s, q, s.procs[q]);
        var u := s.procs[q];
        assert path == PathOf(u.artifact, u.generation) || path == TempOf(u.artifact, u.generation) || !MadeByLive(s, path);
      }
    }
  }

  // ---------------------------------------------------------------- events outside the service

  /** Events of nobody: every process is a bystander. */
  lemma OutsideKeeps(s: State, t: State)
    requires StoreInv(s) && t.procs == s.procs && t.owed == s.owed && t.gates == s.gates && t.rows == s.rows && t.ready == s.ready
    requires Paths(t) && forall p: nat :: KeepsAll(s, t, p)
    ensures StoreInv(t)
  {
    forall q: nat
      ensures ProcInv(t, q)
    {
      assert ProcInv(s, q);
      Bystander(s, t, q + 1, q);
    }
  }

  lemma LandIsGood(s: State, path: Path, size: nat)
    requires StoreInv(s) && path in s.outbox && s.now < s.outbox[path] && path !in s.landed
    ensures StoreInv(s.(objects := s.objects[path := size], landed := s.landed + {path}))
  {
    var t := s.(objects := s.objects[path := size], landed := s.landed + {path});
    forall p: nat
      ensures KeepsAll(s, t, p) && Paths(t)
    {
      forall other
        ensures Keeps(s, t, p, other) && PathInv(t, other)
      {
        assert PathInv(s, other);
        SameDeath(s, t, p, other);
      }
    }
    assert KeepsAll(s, t, 0);
    OutsideKeeps(s, t);
  }

  lemma DamageIsGood(s: State, path: Path, left: Option<nat>)
    requires StoreInv(s) && path in s.objects
    ensures StoreInv(s.(objects := if left.Some? then s.objects[path := left.value] else s.objects - {path},
                        damaged := s.damaged + {path}))
  {
    var t := s.(objects := if left.Some? then s.objects[path := left.value] else s.objects - {path},
                damaged := s.damaged + {path});
    forall p: nat
      ensures KeepsAll(s, t, p) && Paths(t)
    {
      forall other
        ensures Keeps(s, t, p, other) && PathInv(t, other)
      {
        assert PathInv(s, other);
        SameDeath(s, t, p, other);
      }
    }
    assert KeepsAll(s, t, 0);
    OutsideKeeps(s, t);
  }

  lemma TickIsGood(s: State)
    requires StoreInv(s)
    ensures StoreInv(s.(now := s.now + 1))
  {
    var t := s.(now := s.now + 1);
    forall p: nat
      ensures KeepsAll(s, t, p) && Paths(t)
    {
      forall other
        ensures Keeps(s, t, p, other) && PathInv(t, other)
      {
        assert PathInv(s, other);
        SameDeath(s, t, p, other);
      }
    }
    assert KeepsAll(s, t, 0);
    OutsideKeeps(s, t);
  }

  lemma StopIsGood(s: State)
    requires StoreInv(s)
    ensures StoreInv(Outside(s, Stop))
  {
    var t := Outside(s, Stop);
    forall path
      ensures PathInv(t, path)
    {
      assert PathInv(s, path);
    }
  }

  // ---------------------------------------------------------------- starting again

  ghost predicate Starting(s: State) {
    !s.ready && StoreInv(s)
  }

  lemma NobodyIsLive(s: State, path: Path)
    requires Starting(s)
    ensures !MadeByLive(s, path)
  {
    if path.generation in s.maker {
      assert ProcInv(s, s.maker[path.generation]);
    }
  }

  lemma DropRowIsGood(s: State, p: nat, a: Artifact, queued: bool)
    requires Starting(s) && p !in s.procs && a in s.rows
    requires PathOf(a, s.rows[a].generation) in s.objects ==> queued
    ensures StoreInv(ReconcileStep(s, p, DropRow(a, queued)))
  {
    var gone := PathOf(a, s.rows[a].generation);
    assert ProcInv(s, p) && PathInv(s, gone) && Referenced(s, gone);
    var t := s.(rows := s.rows - {a});
    if queued {
      RowDropped(s, t.(outbox := Enqueue(s.outbox, gone, s.now), procs := s.procs[p := Sweep({gone}, {})]), p, a, queued);
    } else {
      RowDropped(s, t, p, a, queued);
    }
  }

  lemma RowDropped(s: State, t: State, p: nat, a: Artifact, queued: bool)
    requires Starting(s) && p !in s.procs && p !in s.owed && a in s.rows
    requires var gone := PathOf(a, s.rows[a].generation);
             PathInv(s, gone) && Referenced(s, gone) && (gone in s.objects ==> queued) &&
             t == (if queued then
                     s.(rows := s.rows - {a}, outbox := Enqueue(s.outbox, gone, s.now), procs := s.procs[p := Sweep({gone}, {})])
                   else s.(rows := s.rows - {a}))
    ensures StoreInv(t)
  {
    forall path
      ensures Keeps(s, t, p, path) && PathInv(t, path) && !MadeByLive(t, path)
    {
      assert PathInv(s, path);
      NobodyIsLive(s, path);
    }
    StartersKept(s, t, p);
    StepKeepsStore(s, t, p);
  }

  lemma DropOrphanIsGood(s: State, p: nat, orphan: Path)
    requires Starting(s) && p !in s.procs && orphan in s.landed && !Referenced(s, orphan)
    ensures StoreInv(ReconcileStep(s, p, DropOrphan(orphan)))
  {
    assert ProcInv(s, p);
    OrphanDropped(s, Put(s.(outbox := Enqueue(s.outbox, orphan, s.now)), p, Sweep({orphan}, {})), p, orphan);
  }

  lemma OrphanDropped(s: State, t: State, p: nat, orphan: Path)
    requires Starting(s) && p !in s.procs && p !in s.owed && orphan in s.landed && !Referenced(s, orphan)
    requires t == s.(outbox := Enqueue(s.outbox, orphan, s.now), procs := s.procs[p := Sweep({orphan}, {})])
    ensures StoreInv(t)
  {
    assert PathInv(s, orphan);
    forall path
      ensures Keeps(s, t, p, path) && PathInv(t, path) && !MadeByLive(t, path)
    {
      assert PathInv(s, path);
      NobodyIsLive(s, path);
    }
    StartersKept(s, t, p);
    StepKeepsStore(s, t, p);
  }

  lemma StartersKept(s: State, t: State, p: nat)
    requires Starting(s) && t.gates == s.gates && t.ready == s.ready && t.owed == s.owed
    requires p !in s.procs && forall q | q != p :: SameAt(s.procs, t.procs, q)
    ensures forall q | q != p :: OtherKept(s, t, q)
  {
  }

  // ---------------------------------------------------------------- every event

  lemma UploadKeepsStore(s: State, p: nat, u: Proc, e: Event)
    requires StoreInv(s) && p in s.procs && s.procs[p] == u && u.Upload?
    ensures StoreInv(UploadStep(s, p, u, e))
  {
    var t := UploadStep(s, p, u, e);
    assert ProcInv(s, p);
    if e.Lock? && u.at.Locking? && u.artifact !in s.gates { LockIsGood(s, p, u); StepKeepsStore(s, t, p); }
    else if e.GiveUp? && (u.at.Locking? || u.at.Looked?) { GiveUpIsGood(s, p, u); StepKeepsStore(s, t, p); }
    else if e.Register? && u.at.Looked? { RegisterIsGood(s, p, u); StepKeepsStore(s, t, p); }
    else if e.PutReturns? && u.at.Registered? { PutReturnsIsGood(s, p, u); StepKeepsStore(s, t, p); }
    else if e.Reserve? && u.at.Uploaded? { ReserveIsGood(s, p, u); StepKeepsStore(s, t, p); }
    else if e.Commit? && u.at.Reserved? { CommitIsGood(s, p, u); StepKeepsStore(s, t, p); }
    else if e.Fail? && Live(u) { FailIsGood(s, p, u); StepKeepsStore(s, t, p); }
    else if e.Clean? && u.at.Cleaning? && e.path.artifact == u.artifact && e.path.generation == u.generation {
      CleanIsGood(s, p, u, e.path);
      StepKeepsStore(s, t, p);
    }
    else if e.Settle? && (u.at.Cleaning? || u.at.Committed?) { SettleUploadIsGood(s, p, u); StepKeepsStore(s, t, p); }
  }

  lemma RemovalKeepsStore(s: State, p: nat, r: Proc, e: Event)
    requires StoreInv(s) && p in s.procs && s.procs[p] == r && r.Removal?
    ensures StoreInv(RemovalStep(s, p, r, e))
  {
    var t := RemovalStep(s, p, r, e);
    if (e.Lock? && !r.locked && r.artifact !in s.gates) || e.GiveUp? ||
       (e.Remove? && r.locked && !(r.artifact in s.rows && (r.expected.None? || r.expected.value == s.rows[r.artifact].generation))) {
      RemovalMovesAreGood(s, p, r, e);
      StepKeepsStore(s, t, p);
    } else if e.Remove? && r.locked {
      RemoveIsGood(s, p, r);
      StepKeepsStore(s, t, p);
    }
  }

  lemma SweepKeepsStore(s: State, p: nat, w: Proc, e: Event)
    requires StoreInv(s) && p in s.procs && s.procs[p] == w && w.Sweep?
    ensures StoreInv(SweepStep(s, p, w, e))
  {
    var t := SweepStep(s, p, w, e);
    assert ProcInv(s, p);
    if (e.Delete? && e.path in w.doomed) || (e.Acknowledge? && e.path in w.deleted) {
      SweepIsGood(s, p, w, e);
      StepKeepsStore(s, t, p);
    } else if e.GiveUp? {
      ProcsOnlyKeepsAll(s, t, p);
      SweepersKept(s, t, p);
      StepKeepsStore(s, t, p);
    }
  }

  lemma OutsideKeepsStore(s: State, e: Event)
    requires StoreInv(s)
    ensures StoreInv(Outside(s, e))
  {
    if e.Land? && e.path in s.outbox && s.now < s.outbox[e.path] && e.path !in s.landed {
      LandIsGood(s, e.path, e.size);
    } else if e.Damage? && e.path in s.objects {
      DamageIsGood(s, e.path, e.left);
    } else if e.Tick? {
      TickIsGood(s);
    } else if e.Stop? {
      StopIsGood(s);
    }
  }

  lemma ReconcileKeepsStore(s: State, p: nat, e: Event)
    requires StoreInv(s)
    ensures StoreInv(ReconcileStep(s, p, e))
  {
    if !s.ready && p !in s.procs {
      if e.DropRow? && e.artifact in s.rows && (PathOf(e.artifact, s.rows[e.artifact].generation) in s.objects ==> e.queued) {
        DropRowIsGood(s, p, e.artifact, e.queued);
      } else if e.DropOrphan? && e.path in s.landed && !Referenced(s, e.path) {
        DropOrphanIsGood(s, p, e.path);
      } else if e.Recount? || e.Start? {
        StartIsGood(s, e.Start?, Rebuilt(s.rows));
      }
    }
  }

  lemma StartIsGood(s: State, up: bool, ledger: Ledger)
    requires StoreInv(s) && !s.ready
    ensures StoreInv(s.(ready := up, ledger := ledger))
  {
    var t := s.(ready := up, ledger := ledger);
    forall path
      ensures PathInv(t, path) && (Dead(s, path) ==> Dead(t, path))
    {
      assert PathInv(s, path);
    }
    forall p
      ensures ProcInv(t, p)
    {
      assert ProcInv(s, p);
      if p in s.procs && s.procs[p].Sweep? {
        forall path
          ensures SweptInv(t, s.procs[p], path)
        {
          assert SweptInv(s, s.procs[p], path);
        }
      }
    }
  }

  lemma NextKeepsStore(s: State, p: nat, e: Event)
    requires StoreInv(s)
    ensures StoreInv(Next(s, p, e))
  {
    if IsOutside(e) {
      OutsideKeepsStore(s, e);
    } else if e.DropRow? || e.DropOrphan? || e.Recount? || e.Start? {
      ReconcileKeepsStore(s, p, e);
    } else if e.BeginUpload? || e.BeginRemoval? || e.BeginSweep? {
      if s.ready && p !in s.procs && !(e.BeginUpload? && e.size == 0) {
        BeginIsGood(s, p, e);
        StepKeepsStore(s, BeginStep(s, p, e), p);
      }
    } else if p in s.procs {
      var proc := s.procs[p];
      match proc
      case Upload(_, _, _, _, _, _) => UploadKeepsStore(s, p, proc, e);
      case Removal(_, _, _) => RemovalKeepsStore(s, p, proc, e);
      case Removed(_, _) =>
        if e.Settle? {
          RemovedSettlesWell(s, p, proc);
          StepKeepsStore(s, RemovedStep(s, p, proc, e), p);
        }
      case Sweep(_, _) => SweepKeepsStore(s, p, proc, e);
    }
  }
}

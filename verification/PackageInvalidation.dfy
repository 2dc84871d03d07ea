/** Invalidating every cached representation of one package (internal/cache/package_invalidation.go)
    while other requests keep working on the same keys.

    The cache is one KeyProtocol state per key.  Between any two operations of the invalidation the
    other processes take any number of steps on any keys; the invalidation itself is one process with
    the same number on every key.  That the registry fails closed is an event of each key, so a run
    here may also fail closed for some keys only. */
module PackageInvalidation {
  import opened Wrappers
  import opened InvalidationRegistry
  import opened KeyProtocol
  import opened KeyPreservation
  import opened KeyRevocation

  /** What holds of a key that has been revoked: how many invalidations had then begun,
      how many reads had been served, and whether another was past its last check. */
  datatype Revocation = Revocation(epoch: nat, served: nat, underway: bool)

  /** One operation on one key. */
  datatype Op = Op(key: string, actor: nat, event: Event)

  const NOTHING := State(None, false, None, None, None, map[], map[], map[], 0, [])

  type Keys = map<string, State>

  function At(keys: Keys, key: string): State {
    if key in keys then keys[key] else NOTHING
  }

  // ---------------------------------------------------------------- what other processes can do

  predicate OthersOnly(events: seq<(nat, Event)>, me: nat) {
    forall i | 0 <= i < |events| :: events[i].0 != me
  }

  /** t comes from s by steps of processes other than me. */
  ghost predicate Advanced(s: State, t: State, me: nat) {
    exists events :: OthersOnly(events, me) && t == Run(s, events)
  }

  lemma {:induction false} RunSplits(s: State, a: seq<(nat, Event)>, b: seq<(nat, Event)>)
    ensures Run(s, a + b) == Run(Run(s, a), b)
    decreases |a|
  {
    if a == [] {
      assert a + b == b;
    } else {
      assert (a + b)[1..] == a[1..] + b;
      RunSplits(Next(s, a[0].0, a[0].1), a[1..], b);
    }
  }

  lemma AdvancedRefl(s: State, me: nat)
    ensures Advanced(s, s, me)
  {
    assert OthersOnly([], me) && s == Run(s, []);
  }

  lemma AdvancedTrans(s: State, t: State, u: State, me: nat)
    requires Advanced(s, t, me) && Advanced(t, u, me)
    ensures Advanced(s, u, me)
  {
    var a :| OthersOnly(a, me) && t == Run(s, a);
    var b :| OthersOnly(b, me) && u == Run(t, b);
    RunSplits(s, a, b);
    assert OthersOnly(a + b, me);
  }

  lemma AdvancedByOne(s: State, p: nat, e: Event, me: nat)
    requires p != me
    ensures Advanced(s, Next(s, p, e), me)
  {
    var one := [(p, e)];
    assert Run(Next(s, p, e), one[1..]) == Next(s, p, e);
    assert OthersOnly(one, me) && Next(s, p, e) == Run(s, one);
  }

  lemma {:induction false} OthersLeaveMeAlone(s: State, events: seq<(nat, Event)>, me: nat)
    requires OthersOnly(events, me)
    ensures SameAt(s.procs, Run(s, events).procs, me)
    decreases |events|
  {
    if events != [] {
      var t := Next(s, events[0].0, events[0].1);
      NextActs(s, events[0].0, events[0].1, 0);
      assert SameAt(s.procs, t.procs, me);
      OthersLeaveMeAlone(t, events[1..], me);
    }
  }

  // ---------------------------------------------------------------- what revocation guarantees

  /** A read served after the revocation pairs a row with an object written since. */
  ghost predicate Revoked(s: State, r: Revocation) {
    FreshSince(s, r.epoch, r.served, r.underway)
  }

  /** Every writer that may still store something began when at least epoch invalidations had. */
  ghost predicate WritersSince(s: State, epoch: nat) {
    forall p | p in s.procs :: WriterSince(s.procs[p], epoch)
  }

  predicate WriterSince(proc: Proc, epoch: nat) {
    proc.Writer? && proc.at in {Checked, Loaded, Stored, Validated, Publishing} ==> proc.tag.epoch >= epoch
  }

  predicate WrittenSince(part: Option<Tag>, epoch: nat) {
    part.Some? ==> part.value.epoch >= epoch
  }

  /** The row, or the object, that was there before is gone and can not come back. */
  ghost predicate RowGone(s: State, epoch: nat) {
    epoch <= s.epoch && WritersSince(s, epoch) && WrittenSince(s.row, epoch)
  }

  ghost predicate ObjectGone(s: State, epoch: nat) {
    epoch <= s.epoch && WritersSince(s, epoch) && WrittenSince(s.body, epoch)
  }

  ghost predicate Gone(s: State, epoch: nat) {
    RowGone(s, epoch) || ObjectGone(s, epoch)
  }

  /** What one step of a process may do to a row or an object written since. */
  predicate StaysSince(s: State, t: State, p: nat, epoch: nat) {
    (p in t.procs ==> WriterSince(t.procs[p], epoch)) &&
    (WrittenSince(s.row, epoch) ==> WrittenSince(t.row, epoch)) &&
    (WrittenSince(s.body, epoch) ==> WrittenSince(t.body, epoch))
  }

  lemma DeletingStaysSince(s: State, p: nat, w: Proc, ok: bool, effect: bool, epoch: nat)
    requires p in s.procs && s.procs[p] == w && w.Writer? && TakesDown(w.at)
    ensures StaysSince(s, WriterStep(s, p, w, ok, effect), p, epoch)
  {
  }

  lemma EndingStaysSince(s: State, p: nat, w: Proc, ok: bool, effect: bool, epoch: nat)
    requires p in s.procs && s.procs[p] == w && w.Writer? && Ends(w.at)
    ensures StaysSince(s, WriterStep(s, p, w, ok, effect), p, epoch)
  {
  }

  lemma StoringStaysSince(s: State, p: nat, w: Proc, ok: bool, effect: bool, epoch: nat)
    requires ProcInv(s, p) && TokenInv(s, p) && p in s.procs && s.procs[p] == w && w.Writer?
    requires !TakesDown(w.at) && !Ends(w.at)
    requires WriterSince(w, epoch) && epoch <= s.epoch
    ensures StaysSince(s, WriterStep(s, p, w, ok, effect), p, epoch)
  {
    assert p in s.writes && s.writes[p] == WriteToken(w.generation, w.tag.epoch);
    assert Current(s, w.generation) ==> w.tag.epoch == s.epoch;
  }

  lemma WriterStaysSince(s: State, p: nat, w: Proc, ok: bool, effect: bool, epoch: nat)
    requires ProcInv(s, p) && TokenInv(s, p) && p in s.procs && s.procs[p] == w && w.Writer?
    requires WriterSince(w, epoch) && epoch <= s.epoch
    ensures StaysSince(s, WriterStep(s, p, w, ok, effect), p, epoch)
  {
    if TakesDown(w.at) {
      DeletingStaysSince(s, p, w, ok, effect, epoch);
    } else if Ends(w.at) {
      EndingStaysSince(s, p, w, ok, effect, epoch);
    } else {
      StoringStaysSince(s, p, w, ok, effect, epoch);
    }
  }

  lemma InvalidatorStaysSince(s: State, p: nat, i: Proc, ok: bool, effect: bool, epoch: nat)
    requires p in s.procs && s.procs[p] == i && i.Invalidator?
    ensures StaysSince(s, InvalidatorStep(s, p, i, ok, effect), p, epoch)
  {
  }

  lemma ReaderStaysSince(s: State, p: nat, r: Proc, ok: bool, epoch: nat)
    requires p in s.procs && s.procs[p] == r && r.Reader?
    ensures StaysSince(s, ReaderStep(s, p, r, ok), p, epoch)
  {
  }

  lemma RemoverStaysSince(s: State, p: nat, m: Proc, ok: bool, effect: bool, epoch: nat)
    requires p in s.procs && s.procs[p] == m && m.Remover?
    ensures StaysSince(s, RemoverStep(s, p, m, ok, effect), p, epoch)
  {
  }

  lemma EventStaysSince(s: State, p: nat, e: Event, epoch: nat)
    requires !e.Step? && (p in s.procs ==> WriterSince(s.procs[p], epoch))
    ensures StaysSince(s, Next(s, p, e), p, epoch)
  {
  }

  lemma NextStaysSince(s: State, p: nat, e: Event, epoch: nat)
    requires ProcInv(s, p) && TokenInv(s, p) && epoch <= s.epoch
    requires p in s.procs ==> WriterSince(s.procs[p], epoch)
    ensures StaysSince(s, Next(s, p, e), p, epoch)
  {
    if !e.Step? {
      EventStaysSince(s, p, e, epoch);
    } else if p in s.procs {
      var proc := s.procs[p];
      match proc
      case Writer(_, _, _, _) => WriterStaysSince(s, p, proc, e.ok, e.effect, epoch);
      case Invalidator(_, _) => InvalidatorStaysSince(s, p, proc, e.ok, e.effect, epoch);
      case Reader(_) => ReaderStaysSince(s, p, proc, e.ok, epoch);
      case Remover(_) => RemoverStaysSince(s, p, proc, e.ok, e.effect, epoch);
    }
  }

  /** A write of an older generation is stopped before it stores anything. */
  lemma NextKeepsSince(s: State, p: nat, e: Event, epoch: nat)
    requires Inv(s) && WritersSince(s, epoch) && epoch <= s.epoch
    ensures var t := Next(s, p, e);
            WritersSince(t, epoch) && epoch <= t.epoch &&
            (WrittenSince(s.row, epoch) ==> WrittenSince(t.row, epoch)) &&
            (WrittenSince(s.body, epoch) ==> WrittenSince(t.body, epoch))
  {
    var t := Next(s, p, e);
    NextActs(s, p, e, 0);
    assert ProcInv(s, p) && TokenInv(s, p);
    NextStaysSince(s, p, e, epoch);
    forall q | q in t.procs
      ensures WriterSince(t.procs[q], epoch)
    {
      if q != p {
        assert SameAt(s.procs, t.procs, q);
      }
    }
  }

  lemma {:induction false} RunKeepsGone(s: State, events: seq<(nat, Event)>, epoch: nat)
    requires Inv(s)
    ensures RowGone(s, epoch) ==> RowGone(Run(s, events), epoch)
    ensures ObjectGone(s, epoch) ==> ObjectGone(Run(s, events), epoch)
    decreases |events|
  {
    if events != [] {
      var p, e := events[0].0, events[0].1;
      if WritersSince(s, epoch) && epoch <= s.epoch {
        NextKeepsSince(s, p, e, epoch);
      }
      NextKeepsInv(s, p, e);
      RunKeepsGone(Next(s, p, e), events[1..], epoch);
    }
  }

  /** Revocation and safe cleanup are for good: whatever runs next, reads served from the revocation
      on are of objects written since, and of the old row and the old object one never returns. */
  lemma RevocationIsForGood(s: State, events: seq<(nat, Event)>, r: Revocation)
    requires Inv(s)
    ensures Revoked(s, r) ==> Revoked(Run(s, events), r)
    ensures Gone(s, r.epoch) ==> Gone(Run(s, events), r.epoch)
  {
    RunKeepsGone(s, events, r.epoch);
    if Revoked(s, r) {
      RunKeepsFresh(s, events, r.epoch, r.served, r.underway);
    }
  }

  lemma OthersKeep(s: State, t: State, me: nat)
    requires Inv(s) && Advanced(s, t, me)
    ensures Inv(t) && SameAt(s.procs, t.procs, me) && s.epoch <= t.epoch && |s.served| <= |t.served|
    ensures forall r: Revocation :: (Revoked(s, r) ==> Revoked(t, r)) && (Gone(s, r.epoch) ==> Gone(t, r.epoch))
  {
    var events :| OthersOnly(events, me) && t == Run(s, events);
    RunKeepsInv(s, events);
    OthersLeaveMeAlone(s, events, me);
    RunKeepsFresh(s, events, s.epoch, |s.served|, ReadUnderway(s)) by {
      NowFresh(s);
    }
    forall r: Revocation
      ensures (Revoked(s, r) ==> Revoked(t, r)) && (Gone(s, r.epoch) ==> Gone(t, r.epoch))
    {
      RevocationIsForGood(s, events, r);
    }
  }

  lemma NowFresh(s: State)
    ensures FreshSince(s, s.epoch, |s.served|, ReadUnderway(s))
  {
    forall p | EarlyReader(s, p, s.epoch)
      ensures ReadUnderway(s)
    {
      assert PastCheck(s, p);
    }
  }

  // ---------------------------------------------------------------- writers are registered

  /** A writer that may still store its object or its row. */
  predicate MayStore(proc: Proc) {
    proc.Writer? && !proc.at.Committed? && !proc.at.Failed? && !proc.at.Aborting?
  }

  predicate StoresAt(s: State, p: nat) {
    p in s.procs && MayStore(s.procs[p])
  }

  predicate HasStorer(s: State) {
    exists p | p in s.procs :: StoresAt(s, p)
  }

  lemma WriterStillStores(s: State, p: nat, w: Proc, ok: bool, effect: bool)
    requires p in s.procs && s.procs[p] == w && w.Writer?
    ensures StoresAt(WriterStep(s, p, w, ok, effect), p) ==> MayStore(w)
  {
  }

  lemma OthersDoNotStore(s: State, p: nat, proc: Proc, ok: bool, effect: bool)
    requires p in s.procs && s.procs[p] == proc
    ensures proc.Invalidator? ==> !StoresAt(InvalidatorStep(s, p, proc, ok, effect), p)
    ensures proc.Reader? ==> !StoresAt(ReaderStep(s, p, proc, ok), p)
    ensures proc.Remover? ==> !StoresAt(RemoverStep(s, p, proc, ok, effect), p)
  {
  }

  /** Only beginWrite makes a process that stores. */
  lemma NextAddsNoStorer(s: State, p: nat, e: Event)
    requires !e.BeginWrite?
    ensures HasStorer(Next(s, p, e)) ==> HasStorer(s)
  {
    var t := Next(s, p, e);
    if q :| q in t.procs && StoresAt(t, q) {
      NextActs(s, p, e, 0);
      if q != p {
        assert SameAt(s.procs, t.procs, q);
      } else if e.Step? && p in s.procs {
        var proc := s.procs[p];
        match proc
        case Writer(_, _, _, _) => WriterStillStores(s, p, proc, e.ok, e.effect);
        case Invalidator(_, _) => OthersDoNotStore(s, p, proc, e.ok, e.effect);
        case Reader(_) => OthersDoNotStore(s, p, proc, e.ok, e.effect);
        case Remover(_) => OthersDoNotStore(s, p, proc, e.ok, e.effect);
      }
      assert StoresAt(s, q);
    }
  }

  lemma WriterDoneStaysAbsent(s: State, p: nat, w: Proc, ok: bool, effect: bool)
    requires p in s.procs && s.procs[p] == w && w.Writer? && !MayStore(w) && s.row.None?
    ensures WriterStep(s, p, w, ok, effect).row.None?
  {
  }

  lemma OthersStayAbsent(s: State, p: nat, proc: Proc, ok: bool, effect: bool)
    requires p in s.procs && s.procs[p] == proc && s.row.None?
    ensures proc.Invalidator? ==> InvalidatorStep(s, p, proc, ok, effect).row.None?
    ensures proc.Reader? ==> ReaderStep(s, p, proc, ok).row.None?
    ensures proc.Remover? ==> RemoverStep(s, p, proc, ok, effect).row.None?
  {
  }

  /** Without a writer that may still store, a row that is not there does not come back. */
  lemma NextStaysAbsent(s: State, p: nat, e: Event)
    requires s.row.None? && !HasStorer(s) && !e.BeginWrite?
    ensures Next(s, p, e).row.None? && !HasStorer(Next(s, p, e))
  {
    NextAddsNoStorer(s, p, e);
    if e.Step? && p in s.procs {
      assert !StoresAt(s, p);
      if s.procs[p].Writer? {
        WriterDoneStaysAbsent(s, p, s.procs[p], e.ok, e.effect);
      } else {
        OthersStayAbsent(s, p, s.procs[p], e.ok, e.effect);
      }
    }
  }

  /** A key of the package that is not among the entries has no row, and gets one only from a write that
      begins later. */
  lemma {:induction false} UnfoundStaysAbsent(s: State, events: seq<(nat, Event)>)
    requires s.row.None? && !HasStorer(s)
    requires forall i | 0 <= i < |events| :: !events[i].1.BeginWrite?
    ensures Run(s, events).row.None? && !HasStorer(Run(s, events))
    decreases |events|
  {
    if events != [] {
      NextStaysAbsent(s, events[0].0, events[0].1);
      UnfoundStaysAbsent(Next(s, events[0].0, events[0].1), events[1..]);
    }
  }

  // ---------------------------------------------------------------- my own steps on one key

  predicate IAmAt(s: State, me: nat, generation: nat, step: InvalidatorAt) {
    me in s.procs && s.procs[me] == Invalidator(generation, step)
  }

  ghost function RevocationNow(s: State): Revocation {
    Revocation(s.epoch, |s.served|, ReadUnderway(s))
  }

  /** The key is revoked and my invalidation has yet to clean up. */
  ghost predicate CleanupDue(s: State, me: nat, generation: nat, r: Revocation) {
    IAmAt(s, me, generation, Begun) && Revoked(s, r)
  }

  /** Beginning the invalidation revokes everything written before. */
  lemma IBegin(s: State, me: nat)
    requires Inv(s) && me !in s.procs
    ensures var t := Next(s, me, BeginInvalidation);
            var g := StateOf(s.reg).generation + 1;
            CleanupDue(t, me, g, RevocationNow(t)) && t.epoch == s.epoch + 1 && t.served == s.served
  {
    NowFresh(Next(s, me, BeginInvalidation));
  }

  /** Where my invalidation goes from a step. */
  function StepAfter(s: State, generation: nat, step: InvalidatorAt, e: Event): InvalidatorAt
    requires MayTake(s, step, e)
  {
    match step
    case Begun => if e.Lock? then ILocked else Finishing(false)
    case ILocked => if Current(s, generation) && s.reg.value.tombstoned then Deleting else Finishing(false)
    case Deleting => DeletingObject(e.ok)
    case DeletingObject(rowOk) => Cleaned(rowOk || e.ok)
    case Cleaned(safe) => Finishing(safe)
  }

  predicate MayTake(s: State, step: InvalidatorAt, e: Event) {
    if step.Begun? then e.LockFails? || (e.Lock? && s.gate.None?) else e.Step? && !step.Finishing?
  }

  lemma IStep(s: State, me: nat, generation: nat, step: InvalidatorAt, e: Event)
    requires Inv(s) && IAmAt(s, me, generation, step) && MayTake(s, step, e)
    ensures IAmAt(Next(s, me, e), me, generation, StepAfter(s, generation, step, e))
  {
  }

  lemma IFinish(s: State, me: nat, generation: nat, safe: bool, e: Event)
    requires Inv(s) && IAmAt(s, me, generation, Finishing(safe)) && e.Step?
    ensures me !in Next(s, me, e).procs
  {
  }

  /** What a step of mine and any steps of the others keep. */
  lemma IKeep(s: State, t: State, me: nat, e: Event, r: Revocation)
    requires Inv(s) && Revoked(s, r) && Advanced(Next(s, me, e), t, me)
    ensures Inv(t) && Revoked(t, r) && SameAt(Next(s, me, e).procs, t.procs, me)
    ensures Gone(s, r.epoch) ==> Gone(t, r.epoch)
  {
    NextKeepsInv(s, me, e);
    NextKeepsFresh(s, me, e, r.epoch, r.served, r.underway);
    if Gone(s, r.epoch) {
      NextKeepsSince(s, me, e, r.epoch);
    }
    OthersKeep(Next(s, me, e), t, me);
  }

  /** While the invalidation holds the gate nobody writes, so what it has deleted is gone for good. */
  lemma IHoldTheGate(s: State, me: nat, generation: nat, step: InvalidatorAt, epoch: nat)
    requires Inv(s) && IAmAt(s, me, generation, step) && epoch <= s.epoch
    requires step.Cleaned? && step.safe
    ensures Gone(s, epoch)
  {
    assert ProcInv(s, me);
    forall p | p in s.procs
      ensures WriterSince(s.procs[p], epoch)
    {
      assert ProcInv(s, p);
    }
  }

  // ---------------------------------------------------------------- all keys

  ghost predicate InvAt(keys: Keys, key: string) {
    Inv(At(keys, key))
  }

  ghost predicate AllInv(keys: Keys) {
    forall key :: InvAt(keys, key)
  }

  ghost predicate AdvancedAt(before: Keys, after: Keys, key: string, me: nat) {
    Advanced(At(before, key), At(after, key), me)
  }

  ghost predicate AllAdvanced(before: Keys, after: Keys, me: nat) {
    forall key :: AdvancedAt(before, after, key, me)
  }

  ghost predicate OthersAdvanced(before: Keys, after: Keys, key: string, me: nat) {
    forall other | other != key :: AdvancedAt(before, after, other, me)
  }

  lemma AdvancedAtRefl(keys: Keys, me: nat)
    ensures AllAdvanced(keys, keys, me)
  {
    forall key
      ensures AdvancedAt(keys, keys, key, me)
    {
      AdvancedRefl(At(keys, key), me);
    }
  }

  lemma OneStepAdvances(keys: Keys, key: string, p: nat, e: Event, me: nat)
    requires p != me
    ensures AllAdvanced(keys, keys[key := Next(At(keys, key), p, e)], me)
  {
    var after := keys[key := Next(At(keys, key), p, e)];
    forall other
      ensures AdvancedAt(keys, after, other, me)
    {
      if other == key { AdvancedByOne(At(keys, key), p, e, me); } else { AdvancedRefl(At(keys, other), me); }
    }
  }

  lemma AdvancedAtTrans(a: Keys, b: Keys, c: Keys, key: string, me: nat)
    requires AdvancedAt(a, b, key, me) && AdvancedAt(b, c, key, me)
    ensures AdvancedAt(a, c, key, me)
  {
    AdvancedTrans(At(a, key), At(b, key), At(c, key), me);
  }

  lemma OthersAdvancedTrans(a: Keys, b: Keys, c: Keys, key: string, me: nat)
    requires OthersAdvanced(a, b, key, me) && OthersAdvanced(b, c, key, me)
    ensures OthersAdvanced(a, c, key, me)
  {
    forall other | other != key
      ensures AdvancedAt(a, c, other, me)
    {
      AdvancedAtTrans(a, b, c, other, me);
    }
  }

  predicate AbsentAt(keys: Keys, me: nat, key: string) {
    me !in At(keys, key).procs
  }

  ghost predicate Absent(keys: Keys, me: nat, present: set<string>) {
    forall key | key !in present :: AbsentAt(keys, me, key)
  }

  type Revocations = map<string, Revocation>

  ghost predicate DueAt(keys: Keys, me: nat, generations: map<string, nat>, revoked: Revocations, key: string) {
    key in generations && key in revoked && CleanupDue(At(keys, key), me, generations[key], revoked[key])
  }

  ghost predicate AllDue(keys: Keys, me: nat, generations: map<string, nat>, revoked: Revocations, due: set<string>) {
    forall key | key in due :: DueAt(keys, me, generations, revoked, key)
  }

  ghost predicate RevokedAt(keys: Keys, revoked: Revocations, key: string) {
    key in revoked && Revoked(At(keys, key), revoked[key])
  }

  ghost predicate AllRevoked(keys: Keys, revoked: Revocations) {
    forall key | key in revoked :: RevokedAt(keys, revoked, key)
  }

  /** The old row or the old object of the key is gone. */
  ghost predicate GoneAt(keys: Keys, revoked: Revocations, key: string) {
    key in revoked && Gone(At(keys, key), revoked[key].epoch)
  }

  ghost predicate GoneBut(keys: Keys, revoked: Revocations, todo: set<string>) {
    forall key | key in revoked && key !in todo :: GoneAt(keys, revoked, key)
  }

  ghost predicate AllGone(keys: Keys, revoked: Revocations) {
    forall key | key in revoked :: GoneAt(keys, revoked, key)
  }

  /** What one key keeps while only other processes work on it. */
  lemma OthersKeepAt(before: Keys, after: Keys, me: nat, generations: map<string, nat>, revoked: Revocations, key: string)
    requires InvAt(before, key) && AdvancedAt(before, after, key, me)
    ensures InvAt(after, key) && At(before, key).epoch <= At(after, key).epoch
    ensures AbsentAt(before, me, key) ==> AbsentAt(after, me, key)
    ensures DueAt(before, me, generations, revoked, key) ==> DueAt(after, me, generations, revoked, key)
    ensures RevokedAt(before, revoked, key) ==> RevokedAt(after, revoked, key)
    ensures GoneAt(before, revoked, key) ==> GoneAt(after, revoked, key)
  {
    OthersKeep(At(before, key), At(after, key), me);
  }

  lemma AbsentKept(before: Keys, after: Keys, me: nat, present: set<string>)
    requires AllInv(before) && Absent(before, me, present)
    requires forall key | key !in present :: AdvancedAt(before, after, key, me)
    ensures Absent(after, me, present)
  {
    forall key | key !in present
      ensures AbsentAt(after, me, key)
    {
      assert InvAt(before, key) && AbsentAt(before, me, key);
      OthersKeepAt(before, after, me, map[], map[], key);
    }
  }

  lemma DueKept(before: Keys, after: Keys, me: nat, generations: map<string, nat>, revoked: Revocations, due: set<string>)
    requires AllInv(before) && AllDue(before, me, generations, revoked, due)
    requires forall key | key in due :: AdvancedAt(before, after, key, me)
    ensures AllDue(after, me, generations, revoked, due)
  {
    forall key | key in due
      ensures DueAt(after, me, generations, revoked, key)
    {
      assert InvAt(before, key) && DueAt(before, me, generations, revoked, key);
      OthersKeepAt(before, after, me, generations, revoked, key);
    }
  }

  lemma DueAdded(keys: Keys, me: nat, generations: map<string, nat>, revoked: Revocations, due: set<string>,
                 key: string, generation: nat, r: Revocation)
    requires AllDue(keys, me, generations, revoked, due) && key !in due
    requires CleanupDue(At(keys, key), me, generation, r)
    ensures AllDue(keys, me, generations[key := generation], revoked[key := r], due + {key})
  {
    forall other | other in due
      ensures DueAt(keys, me, generations[key := generation], revoked[key := r], other)
    {
      assert DueAt(keys, me, generations, revoked, other);
    }
  }

  predicate RaisedAt(start: Keys, revoked: Revocations, key: string) {
    key in revoked && At(start, key).epoch < revoked[key].epoch
  }

  ghost predicate AllRaised(start: Keys, revoked: Revocations, done: set<string>) {
    forall key | key in done :: RaisedAt(start, revoked, key)
  }

  lemma RaisedOneMore(start: Keys, revoked: Revocations, done: set<string>, key: string, r: Revocation)
    requires AllRaised(start, revoked, done) && At(start, key).epoch < r.epoch
    ensures AllRaised(start, revoked[key := r], done + {key})
  {
    forall other | other in done + {key}
      ensures RaisedAt(start, revoked[key := r], other)
    {
      if other != key { assert RaisedAt(start, revoked, other); }
    }
  }

  /** The first pass so far: what it has revoked is revoked and waits for its cleanup, and the rest it
      has not touched. */
  ghost predicate RevokedSoFar(start: Keys, keys: Keys, me: nat, generations: map<string, nat>, revoked: Revocations,
                               done: set<string>) {
    revoked.Keys == done && Absent(keys, me, done) && AllDue(keys, me, generations, revoked, done) &&
    AllRaised(start, revoked, done) && (forall key | key !in done :: AdvancedAt(start, keys, key, me))
  }

  lemma RevokedOneMore(start: Keys, before: Keys, after: Keys, me: nat, generations: map<string, nat>,
                       revoked: Revocations, done: set<string>, key: string, generation: nat, r: Revocation)
    requires AllInv(start) && AllInv(before) && key !in done
    requires RevokedSoFar(start, before, me, generations, revoked, done) && OthersAdvanced(before, after, key, me)
    requires CleanupDue(At(after, key), me, generation, r) && r.epoch == At(before, key).epoch + 1
    ensures RevokedSoFar(start, after, me, generations[key := generation], revoked[key := r], done + {key})
  {
    EpochGrows(start, before, me, key);
    RaisedOneMore(start, revoked, done, key, r);
    DueKept(before, after, me, generations, revoked, done);
    DueAdded(after, me, generations, revoked, done, key, generation, r);
    AbsentKept(before, after, me, done + {key});
    RestAdvances(start, before, after, me, done + {key});
  }

  lemma EpochGrows(start: Keys, now: Keys, me: nat, key: string)
    requires AllInv(start) && AdvancedAt(start, now, key, me)
    ensures At(start, key).epoch <= At(now, key).epoch
  {
    assert InvAt(start, key);
    OthersKeepAt(start, now, me, map[], map[], key);
  }

  lemma RestAdvances(start: Keys, before: Keys, after: Keys, me: nat, done: set<string>)
    requires forall key | key !in done :: AdvancedAt(start, before, key, me) && AdvancedAt(before, after, key, me)
    ensures forall key | key !in done :: AdvancedAt(start, after, key, me)
  {
    forall key | key !in done
      ensures AdvancedAt(start, after, key, me)
    {
      AdvancedAtTrans(start, before, after, key, me);
    }
  }

  /** The second pass so far: what is still to do is due, everything stays revoked, and while the
      result is safe the old row or object of every entry dealt with is gone. */
  ghost predicate CleaningUp(keys: Keys, me: nat, generations: map<string, nat>, revoked: Revocations,
                             todo: set<string>, safe: bool) {
    Absent(keys, me, todo) && AllDue(keys, me, generations, revoked, todo) && AllRevoked(keys, revoked) &&
    (safe ==> GoneBut(keys, revoked, todo))
  }

  lemma RevokedNow(start: Keys, keys: Keys, me: nat, generations: map<string, nat>, revoked: Revocations)
    requires RevokedSoFar(start, keys, me, generations, revoked, revoked.Keys)
    ensures AllRevoked(keys, revoked)
  {
    forall key | key in revoked
      ensures RevokedAt(keys, revoked, key)
    {
      assert DueAt(keys, me, generations, revoked, key);
    }
  }

  lemma AbsentAfter(before: Keys, after: Keys, me: nat, todo: set<string>, key: string)
    requires AllInv(before) && Absent(before, me, todo) && OthersAdvanced(before, after, key, me)
    requires AbsentAt(after, me, key)
    ensures Absent(after, me, todo - {key})
  {
    AbsentKept(before, after, me, todo + {key});
  }

  /** Revoked keys stay revoked while one of them is cleaned up. */
  lemma RevokedKept(before: Keys, after: Keys, me: nat, revoked: Revocations, key: string)
    requires AllInv(before) && AllRevoked(before, revoked) && OthersAdvanced(before, after, key, me)
    requires RevokedAt(after, revoked, key)
    ensures AllRevoked(after, revoked)
  {
    forall other | other in revoked
      ensures RevokedAt(after, revoked, other)
    {
      if other != key {
        assert InvAt(before, other) && RevokedAt(before, revoked, other);
        OthersKeepAt(before, after, me, map[], revoked, other);
      }
    }
  }

  lemma GoneKept(before: Keys, after: Keys, me: nat, revoked: Revocations, todo: set<string>, key: string)
    requires AllInv(before) && GoneBut(before, revoked, todo) && OthersAdvanced(before, after, key, me)
    requires GoneAt(after, revoked, key)
    ensures GoneBut(after, revoked, todo - {key})
  {
    forall other | other in revoked && other !in todo - {key}
      ensures GoneAt(after, revoked, other)
    {
      if other != key {
        assert InvAt(before, other) && GoneAt(before, revoked, other);
        OthersKeepAt(before, after, me, map[], revoked, other);
      }
    }
  }

  // ---------------------------------------------------------------- the cache

  /** What the invalidation finds of a package: its flights, its refreshes and its rows. */
  function Entries(keys: Keys, inflight: set<string>, refreshing: set<string>, matches: string -> bool): (found: set<string>)
    ensures forall key :: key in found <==>
              matches(key) && (key in inflight || key in refreshing || (key != "" && At(keys, key).row.Some?))
  {
    (set key | key in inflight && matches(key)) + (set key | key in refreshing && matches(key)) +
    (set key | key in keys && key != "" && keys[key].row.Some? && matches(key))
  }

  /** The log has grown, and what this process added began invalidations, or began none. */
  predicate Traced(before: seq<Op>, after: seq<Op>, me: nat, begins: bool) {
    before <= after &&
    forall i | |before| <= i < |after| :: after[i].actor == me ==> after[i].event.BeginInvalidation? == begins
  }

  /** The operations of the log lead from each state of the trail to the next. */
  ghost predicate Steps(trail: seq<Keys>, log: seq<Op>) {
    |trail| == |log| + 1 && forall i | 0 <= i < |log| :: StepAt(trail, log, i)
  }

  predicate StepAt(trail: seq<Keys>, log: seq<Op>, i: nat)
    requires i < |log| && i + 1 < |trail|
  {
    trail[i + 1] == trail[i][log[i].key := Next(At(trail[i], log[i].key), log[i].actor, log[i].event)]
  }

  lemma OneMoreStep(trail: seq<Keys>, log: seq<Op>, op: Op, after: Keys)
    requires Steps(trail, log)
    requires after == trail[|log|][op.key := Next(At(trail[|log|], op.key), op.actor, op.event)]
    ensures Steps(trail + [after], log + [op])
  {
    forall i | 0 <= i < |log| + 1
      ensures StepAt(trail + [after], log + [op], i)
    {
      if i < |log| {
        assert StepAt(trail, log, i);
      }
    }
  }

  /** One of the operations from index start on is the beginning of the invalidation of this key, and the
      revocation is what held right after it. */
  ghost predicate BegunIn(trail: seq<Keys>, log: seq<Op>, start: nat, me: nat, key: string, r: Revocation) {
    exists i: nat :: BegunAt(trail, log, start, me, key, r, i)
  }

  ghost predicate BegunAt(trail: seq<Keys>, log: seq<Op>, start: nat, me: nat, key: string, r: Revocation, i: nat) {
    start <= i < |log| && i + 1 < |trail| && log[i] == Op(key, me, BeginInvalidation) &&
    r == RevocationNow(At(trail[i + 1], key))
  }

  ghost predicate AllBegun(trail: seq<Keys>, log: seq<Op>, start: nat, me: nat, revoked: Revocations) {
    forall key | key in revoked :: BegunIn(trail, log, start, me, key, revoked[key])
  }

  lemma BegunLater(trail: seq<Keys>, log: seq<Op>, laterTrail: seq<Keys>, later: seq<Op>, start: nat, sooner: nat, me: nat,
                   key: string, r: Revocation)
    requires log <= later && trail <= laterTrail && BegunIn(trail, log, start, me, key, r) && sooner <= start
    ensures BegunIn(laterTrail, later, sooner, me, key, r)
  {
    var i: nat :| BegunAt(trail, log, start, me, key, r, i);
    assert BegunAt(laterTrail, later, sooner, me, key, r, i);
  }

  lemma AllBegunLater(trail: seq<Keys>, log: seq<Op>, laterTrail: seq<Keys>, later: seq<Op>, start: nat, me: nat,
                      revoked: Revocations, key: string, r: Revocation)
    requires log <= later && trail <= laterTrail && start <= |log| && AllBegun(trail, log, start, me, revoked)
    requires BegunIn(laterTrail, later, |log|, me, key, r)
    ensures AllBegun(laterTrail, later, start, me, revoked[key := r])
  {
    BegunLater(laterTrail, later, laterTrail, later, |log|, start, me, key, r);
    var more := revoked[key := r];
    forall other | other in more
      ensures BegunIn(laterTrail, later, start, me, other, more[other])
    {
      if other != key {
        BegunLater(trail, log, laterTrail, later, start, start, me, other, revoked[other]);
      }
    }
  }

  lemma AllBegunSooner(trail: seq<Keys>, log: seq<Op>, start: nat, sooner: nat, me: nat, revoked: Revocations)
    requires AllBegun(trail, log, start, me, revoked) && sooner <= start
    ensures AllBegun(trail, log, sooner, me, revoked)
  {
    forall key | key in revoked
      ensures BegunIn(trail, log, sooner, me, key, revoked[key])
    {
      BegunLater(trail, log, trail, log, start, sooner, me, key, revoked[key]);
    }
  }

  // ---------------------------------------------------------------- what can go wrong in a cleanup

  /** The operation keeps the cleanup of a key from being safe: the gate can not be had, the invalidation
      finds itself superseded under the gate, or the second delete fails after the first has. */
  predicate Spoils(s: State, me: nat, e: Event) {
    e.LockFails? ||
    (me in s.procs && s.procs[me].Invalidator? && e.Step? &&
     match s.procs[me].step
     case ILocked => !Pending(s, s.procs[me].revoked)
     case DeletingObject(rowOk) => !rowOk && !e.ok
     case _ => false)
  }

  /** The operation is reported as an error: it spoils the cleanup, or it is a delete that fails. */
  predicate Errs(s: State, me: nat, e: Event) {
    Spoils(s, me, e) ||
    (me in s.procs && s.procs[me].Invalidator? && e.Step? && !e.ok &&
     (s.procs[me].step.Deleting? || s.procs[me].step.DeletingObject?))
  }

  /** The store works and waiting ends: a delete does not fail, and the gate is only missed while it is taken. */
  predicate Faultless(s: State, e: Event) {
    (e.Step? ==> e.ok) && (e.LockFails? ==> s.gate.Some?)
  }

  /** No operation of mine from number start of the log on spoils a cleanup. */
  ghost predicate Unspoilt(trail: seq<Keys>, log: seq<Op>, start: nat, me: nat) {
    forall i | start <= i < |log| && i < |trail| && log[i].actor == me ::
      !Spoils(At(trail[i], log[i].key), me, log[i].event)
  }

  ghost predicate ErrorFree(trail: seq<Keys>, log: seq<Op>, start: nat, me: nat) {
    forall i | start <= i < |log| && i < |trail| && log[i].actor == me ::
      !Errs(At(trail[i], log[i].key), me, log[i].event)
  }

  ghost predicate FaultFree(trail: seq<Keys>, log: seq<Op>, start: nat, me: nat) {
    forall i | start <= i < |log| && i < |trail| && log[i].actor == me ::
      Faultless(At(trail[i], log[i].key), log[i].event)
  }

  /** One operation of mine, followed by operations of others. */
  ghost predicate TookOne(trail: seq<Keys>, log: seq<Op>, laterTrail: seq<Keys>, later: seq<Op>, op: Op) {
    |trail| == |log| + 1 && |laterTrail| == |later| + 1 && trail <= laterTrail && log <= later &&
    |log| < |later| && later[|log|] == op && forall i | |log| < i < |later| :: later[i].actor != op.actor
  }

  lemma JudgeOneMore(trail: seq<Keys>, log: seq<Op>, laterTrail: seq<Keys>, later: seq<Op>, start: nat, op: Op)
    requires TookOne(trail, log, laterTrail, later, op) && start <= |log|
    ensures var s := At(trail[|log|], op.key);
            (Unspoilt(laterTrail, later, start, op.actor) <==> Unspoilt(trail, log, start, op.actor) && !Spoils(s, op.actor, op.event)) &&
            (ErrorFree(laterTrail, later, start, op.actor) <==> ErrorFree(trail, log, start, op.actor) && !Errs(s, op.actor, op.event)) &&
            (FaultFree(laterTrail, later, start, op.actor) <==> FaultFree(trail, log, start, op.actor) && Faultless(s, op.event))
  {
    assert forall i | 0 <= i < |log| :: later[i] == log[i] && laterTrail[i] == trail[i];
    assert laterTrail[|log|] == trail[|log|];
  }

  /** What has been done well up to one point and from there on has been done well. */
  lemma JudgeBothParts(trail: seq<Keys>, log: seq<Op>, laterTrail: seq<Keys>, later: seq<Op>, start: nat, me: nat)
    requires |trail| == |log| + 1 && |laterTrail| == |later| + 1 && trail <= laterTrail && log <= later && start <= |log|
    ensures Unspoilt(laterTrail, later, start, me) <==> Unspoilt(trail, log, start, me) && Unspoilt(laterTrail, later, |log|, me)
    ensures ErrorFree(laterTrail, later, start, me) <==> ErrorFree(trail, log, start, me) && ErrorFree(laterTrail, later, |log|, me)
    ensures FaultFree(laterTrail, later, start, me) <==> FaultFree(trail, log, start, me) && FaultFree(laterTrail, later, |log|, me)
  {
    assert forall i | 0 <= i < |log| :: later[i] == log[i] && laterTrail[i] == trail[i];
  }

  class PackageCache {
    /** A store whose listing and deletes do not fail, with callers that wait until they get a free gate. */
    const reliable: bool
    var keys: Keys
    var inflight: set<string>
    var refreshing: set<string>
    ghost var log: seq<Op>
    ghost var trail: seq<Keys>

    /** A writer that may still store is registered, as a first store or as a refresh.  A flight ends as
        soon as its write has failed or committed, while the writer still has the gate or its token. */
    ghost predicate KeyValid(key: string)
      reads this
    {
      Inv(At(keys, key)) && (HasStorer(At(keys, key)) ==> key in inflight + refreshing)
    }

    ghost predicate Valid()
      reads this
    {
      Steps(trail, log) && trail[|log|] == keys && forall key :: KeyValid(key)
    }

    method Act(key: string, p: nat, e: Event)
      requires Valid() && (e.BeginWrite? ==> key in inflight + refreshing)
      modifies this
      ensures Valid() && inflight == old(inflight) && refreshing == old(refreshing)
      ensures keys == old(keys)[key := Next(At(old(keys), key), p, e)]
      ensures log == old(log) + [Op(key, p, e)] && trail == old(trail) + [keys]
    {
      assert KeyValid(key);
      NextKeepsInv(At(keys, key), p, e);
      if !e.BeginWrite? {
        NextAddsNoStorer(At(keys, key), p, e);
      }
      keys := keys[key := Next(At(keys, key), p, e)];
      OneMoreStep(trail, log, Op(key, p, e), keys);
      log, trail := log + [Op(key, p, e)], trail + [keys];
      forall other
        ensures KeyValid(other)
      {
        assert old(KeyValid(other));
      }
    }

    /** Any number of steps of other processes; none of them registers or leaves a flight while the
        two registries are held. */
    method Interfere(me: nat, held: bool)
      requires Valid()
      modifies this
      ensures Valid() && (held ==> inflight == old(inflight) && refreshing == old(refreshing))
      ensures AllAdvanced(old(keys), keys, me)
      ensures old(log) <= log && old(trail) <= trail && forall i | |old(log)| <= i < |log| :: log[i].actor != me
    {
      AdvancedAtRefl(keys, me);
      var n: nat := *;
      while n > 0
        invariant Valid() && (held ==> inflight == old(inflight) && refreshing == old(refreshing))
        invariant AllAdvanced(old(keys), keys, me)
        invariant old(log) <= log && old(trail) <= trail && forall i | |old(log)| <= i < |log| :: log[i].actor != me
      {
        var key: string, p: nat, e: Event := *, *, *;
        var registration: bool := *;
        if registration && !held {
          Register(key);
        } else if p != me && (e.BeginWrite? ==> key in inflight + refreshing) {
          ghost var before := keys;
          Act(key, p, e);
          OneStepAdvances(before, key, p, e, me);
          forall other
            ensures AdvancedAt(old(keys), keys, other, me)
          {
            assert AdvancedAt(old(keys), before, other, me);
            AdvancedAtTrans(old(keys), before, keys, other, me);
          }
        }
        n := n - 1;
      }
    }

    /** A flight or a refresh of this key starts, or ends once its write can no longer store. */
    method Register(key: string)
      requires Valid()
      modifies `inflight, `refreshing
      ensures Valid()
    {
      assert KeyValid(key);
      var refresh: bool, ends: bool := *, *;
      ghost var before := inflight + refreshing;
      if !ends {
        if refresh { refreshing := refreshing + {key}; } else { inflight := inflight + {key}; }
      } else if !HasStorer(At(keys, key)) || key in inflight * refreshing {
        if refresh { refreshing := refreshing - {key}; } else { inflight := inflight - {key}; }
      }
      forall other
        ensures KeyValid(other)
      {
        assert old(KeyValid(other));
        assert other != key && other in before ==> other in inflight + refreshing;
        assert !ends && other in before ==> other in inflight + refreshing;
      }
    }

    constructor (reliable: bool)
      ensures Valid() && this.reliable == reliable && keys == map[] && inflight == {} && refreshing == {} && log == []
    {
      this.reliable := reliable;
      keys, inflight, refreshing, log, trail := map[], {}, {}, [], [map[]];
      InitialInv(NOTHING);
    }

    lemma ValidMeansAllInv()
      requires Valid()
      ensures AllInv(keys)
    {
      forall key
        ensures InvAt(keys, key)
      {
        assert KeyValid(key);
      }
    }

    /** One step of the invalidation itself on its key, then any steps of the others. */
    method Take(key: string, me: nat, e: Event, generation: nat, ghost step: InvalidatorAt, ghost r: Revocation,
                ghost start: Keys, ghost startLog: seq<Op>)
      requires Valid() && IAmAt(At(keys, key), me, generation, step) && Revoked(At(keys, key), r)
      requires MayTake(At(keys, key), step, e) || (step.Finishing? && e.Step?)
      requires OthersAdvanced(start, keys, key, me) && Traced(startLog, log, me, false)
      modifies this
      ensures Valid() && Revoked(At(keys, key), r)
      ensures old(log) <= log && old(trail) <= trail
      ensures Unspoilt(trail, log, |startLog|, me) <==>
                old(Unspoilt(trail, log, |startLog|, me)) && !Spoils(old(At(keys, key)), me, e)
      ensures ErrorFree(trail, log, |startLog|, me) <==>
                old(ErrorFree(trail, log, |startLog|, me)) && !Errs(old(At(keys, key)), me, e)
      ensures FaultFree(trail, log, |startLog|, me) <==>
                old(FaultFree(trail, log, |startLog|, me)) && Faultless(old(At(keys, key)), e)
      ensures if step.Finishing? then me !in At(keys, key).procs
              else IAmAt(At(keys, key), me, generation, StepAfter(old(At(keys, key)), generation, step, e))
      ensures Gone(old(At(keys, key)), r.epoch) ==> Gone(At(keys, key), r.epoch)
      ensures OthersAdvanced(start, keys, key, me) && Traced(startLog, log, me, false)
    {
      ghost var before := keys;
      ValidMeansAllInv();
      Act(key, me, e);
      ghost var acted := keys;
      assert At(acted, key) == Next(At(before, key), me, e);
      forall other | other != key
        ensures AdvancedAt(start, acted, other, me)
      {
        assert AdvancedAt(start, before, other, me) && At(acted, other) == At(before, other);
      }
      Interfere(me, false);
      JudgeOneMore(old(trail), old(log), trail, log, |startLog|, Op(key, me, e));
      OthersAdvancedTrans(start, acted, keys, key, me);
      assert InvAt(before, key) && AdvancedAt(acted, keys, key, me);
      IKeep(At(before, key), At(keys, key), me, e, r);
      if step.Finishing? {
        IFinish(At(before, key), me, generation, step.safe, e);
      } else {
        IStep(At(before, key), me, generation, step, e);
      }
    }

    /** The cleanup of one entry: under its gate, unless that can not be had, and only while its own
        invalidation is still the last word on the key. */
    method CleanUp(key: string, me: nat, generation: nat, ghost r: Revocation) returns (cleanupSafe: bool, failed: bool)
      requires Valid() && CleanupDue(At(keys, key), me, generation, r)
      modifies this
      ensures Valid() && Revoked(At(keys, key), r) && me !in At(keys, key).procs
      ensures cleanupSafe ==> Gone(At(keys, key), r.epoch)
      ensures cleanupSafe <==> Unspoilt(trail, log, |old(log)|, me)
      ensures failed <==> !ErrorFree(trail, log, |old(log)|, me)
      ensures reliable ==> FaultFree(trail, log, |old(log)|, me)
      ensures OthersAdvanced(old(keys), keys, key, me) && Traced(old(log), log, me, false)
      ensures old(log) <= log && old(trail) <= trail
    {
      AdvancedAtRefl(keys, me);
      var locked: bool := *;
      if (locked || reliable) && At(keys, key).gate.None? {
        Take(key, me, Lock, generation, Begun, r, old(keys), old(log));
        cleanupSafe, failed := CleanUpLocked(key, me, generation, r, old(keys), old(log));
      } else {
        Take(key, me, LockFails, generation, Begun, r, old(keys), old(log));
        cleanupSafe, failed := false, true;
      }
      Take(key, me, Step(true, true), generation, Finishing(cleanupSafe), r, old(keys), old(log));
    }

    /** From taking the gate to letting it go. */
    method CleanUpLocked(key: string, me: nat, generation: nat, ghost r: Revocation, ghost start: Keys, ghost startLog: seq<Op>)
        returns (cleanupSafe: bool, failed: bool)
      requires Valid() && IAmAt(At(keys, key), me, generation, ILocked) && Revoked(At(keys, key), r)
      requires OthersAdvanced(start, keys, key, me) && Traced(startLog, log, me, false)
      requires Unspoilt(trail, log, |startLog|, me) && ErrorFree(trail, log, |startLog|, me)
      requires reliable ==> FaultFree(trail, log, |startLog|, me)
      modifies this
      ensures Valid() && Revoked(At(keys, key), r) && IAmAt(At(keys, key), me, generation, Finishing(cleanupSafe))
      ensures cleanupSafe ==> Gone(At(keys, key), r.epoch)
      ensures cleanupSafe <==> Unspoilt(trail, log, |startLog|, me)
      ensures failed <==> !ErrorFree(trail, log, |startLog|, me)
      ensures reliable ==> FaultFree(trail, log, |startLog|, me)
      ensures OthersAdvanced(start, keys, key, me) && Traced(startLog, log, me, false)
      ensures old(log) <= log && old(trail) <= trail
    {
      var pending := Current(At(keys, key), generation) && At(keys, key).reg.value.tombstoned;
      Take(key, me, Step(true, true), generation, ILocked, r, start, startLog);
      if !pending {
        return false, true;
      }
      cleanupSafe, failed := DeleteBoth(key, me, generation, r, start, startLog);
      Take(key, me, Step(true, true), generation, Cleaned(cleanupSafe), r, start, startLog);
    }

    /** The row and the object are deleted, the object even if the row was not. */
    method DeleteBoth(key: string, me: nat, generation: nat, ghost r: Revocation, ghost start: Keys, ghost startLog: seq<Op>)
        returns (cleanupSafe: bool, failed: bool)
      requires Valid() && IAmAt(At(keys, key), me, generation, Deleting) && Revoked(At(keys, key), r)
      requires OthersAdvanced(start, keys, key, me) && Traced(startLog, log, me, false)
      requires Unspoilt(trail, log, |startLog|, me) && ErrorFree(trail, log, |startLog|, me)
      requires reliable ==> FaultFree(trail, log, |startLog|, me)
      modifies this
      ensures Valid() && Revoked(At(keys, key), r) && IAmAt(At(keys, key), me, generation, Cleaned(cleanupSafe))
      ensures cleanupSafe ==> Gone(At(keys, key), r.epoch)
      ensures cleanupSafe <==> Unspoilt(trail, log, |startLog|, me)
      ensures failed <==> !ErrorFree(trail, log, |startLog|, me)
      ensures reliable ==> FaultFree(trail, log, |startLog|, me)
      ensures OthersAdvanced(start, keys, key, me) && Traced(startLog, log, me, false)
      ensures old(log) <= log && old(trail) <= trail
    {
      var dbOk: bool, storageOk: bool, rowEffect: bool, objectEffect: bool := *, *, *, *;
      dbOk, storageOk := dbOk || reliable, storageOk || reliable;
      Take(key, me, Step(dbOk, rowEffect), generation, Deleting, r, start, startLog);
      Take(key, me, Step(storageOk, objectEffect), generation, DeletingObject(dbOk), r, start, startLog);
      cleanupSafe := dbOk || storageOk;
      failed := !dbOk || !storageOk;
      if cleanupSafe {
        ValidMeansAllInv();
        assert InvAt(keys, key);
        IHoldTheGate(At(keys, key), me, generation, Cleaned(cleanupSafe), r.epoch);
      }
    }

    method RevokeOne(key: string, me: nat) returns (generation: nat, ghost r: Revocation)
      requires Valid() && me !in At(keys, key).procs
      modifies this
      ensures Valid() && inflight == old(inflight) && refreshing == old(refreshing)
      ensures CleanupDue(At(keys, key), me, generation, r) && r.epoch == old(At(keys, key)).epoch + 1
      ensures OthersAdvanced(old(keys), keys, key, me) && Traced(old(log), log, me, true)
      ensures old(trail) <= trail && BegunIn(trail, log, |old(log)|, me, key, r)
    {
      ValidMeansAllInv();
      assert InvAt(keys, key);
      IBegin(At(keys, key), me);
      generation := StateOf(At(keys, key).reg).generation + 1;
      Act(key, me, BeginInvalidation);
      ghost var mine := keys;
      r := RevocationNow(At(mine, key));
      ghost var begun, sofar := log, trail;
      assert BegunAt(trail, log, |old(log)|, me, key, r, |old(log)|);
      ValidMeansAllInv();
      Interfere(me, true);
      BegunLater(sofar, begun, trail, log, |old(log)|, |old(log)|, me, key, r);
      assert InvAt(mine, key) && AdvancedAt(mine, keys, key, me);
      OthersKeep(At(mine, key), At(keys, key), me);
      forall other | other != key
        ensures AdvancedAt(old(keys), keys, other, me)
      {
        assert AdvancedAt(mine, keys, other, me) && At(mine, other) == At(old(keys), other);
      }
    }

    /** One entry of the first pass. */
    method RevokeNext(key: string, me: nat, ghost generations: map<string, nat>, ghost revoked: Revocations,
                      ghost done: set<string>, ghost start: Keys, ghost startLog: seq<Op>)
        returns (generation: nat, ghost r: Revocation)
      requires Valid() && AllInv(start) && key !in done
      requires RevokedSoFar(start, keys, me, generations, revoked, done) && Traced(startLog, log, me, true)
      requires AllBegun(trail, log, |startLog|, me, revoked)
      modifies this
      ensures Valid() && inflight == old(inflight) && refreshing == old(refreshing)
      ensures RevokedSoFar(start, keys, me, generations[key := generation], revoked[key := r], done + {key})
      ensures Traced(startLog, log, me, true) && old(trail) <= trail && AllBegun(trail, log, |startLog|, me, revoked[key := r])
    {
      ghost var before, logBefore, trailBefore := keys, log, trail;
      ValidMeansAllInv();
      assert AbsentAt(keys, me, key);
      generation, r := RevokeOne(key, me);
      RevokedOneMore(start, before, keys, me, generations, revoked, done, key, generation, r);
      AllBegunLater(trailBefore, logBefore, trail, log, |startLog|, me, revoked, key, r);
    }

    /** The first pass, while flights and refreshes can neither register nor leave. */
    method RevokeAll(found: set<string>, me: nat) returns (generations: map<string, nat>, ghost revoked: Revocations)
      requires Valid() && Absent(keys, me, {})
      modifies this
      ensures Valid() && inflight == old(inflight) && refreshing == old(refreshing)
      ensures generations.Keys == found && RevokedSoFar(old(keys), keys, me, generations, revoked, found)
      ensures Traced(old(log), log, me, true) && old(trail) <= trail && AllBegun(trail, log, |old(log)|, me, revoked)
    {
      generations, revoked := map[], map[];
      var todo, done := found, {};
      AdvancedAtRefl(keys, me);
      ValidMeansAllInv();
      while todo != {}
        invariant Valid() && inflight == old(inflight) && refreshing == old(refreshing)
        invariant done + todo == found && done !! todo && generations.Keys == done
        invariant RevokedSoFar(old(keys), keys, me, generations, revoked, done)
        invariant Traced(old(log), log, me, true) && old(trail) <= trail && AllBegun(trail, log, |old(log)|, me, revoked)
        decreases todo
      {
        var key :| key in todo;
        var generation, r := RevokeNext(key, me, generations, revoked, done, old(keys), old(log));
        generations, revoked := generations[key := generation], revoked[key := r];
        todo, done := todo - {key}, done + {key};
      }
    }

    /** One entry of the second pass. */
    method CleanUpNext(key: string, me: nat, generations: map<string, nat>, ghost revoked: Revocations,
                       ghost todo: set<string>, safeSoFar: bool, failedSoFar: bool, ghost startLog: seq<Op>)
        returns (safe: bool, failed: bool)
      requires Valid() && key in todo && todo <= generations.Keys && generations.Keys == revoked.Keys
      requires CleaningUp(keys, me, generations, revoked, todo, safeSoFar) && Traced(startLog, log, me, false)
      requires safeSoFar <==> Unspoilt(trail, log, |startLog|, me)
      requires failedSoFar <==> !ErrorFree(trail, log, |startLog|, me)
      requires reliable ==> FaultFree(trail, log, |startLog|, me)
      modifies this
      ensures Valid() && CleaningUp(keys, me, generations, revoked, todo - {key}, safe)
      ensures Traced(startLog, log, me, false) && old(log) <= log && old(trail) <= trail
      ensures safe <==> Unspoilt(trail, log, |startLog|, me)
      ensures failed <==> !ErrorFree(trail, log, |startLog|, me)
      ensures reliable ==> FaultFree(trail, log, |startLog|, me)
    {
      ghost var before, trailBefore, logBefore := keys, trail, log;
      ValidMeansAllInv();
      assert DueAt(keys, me, generations, revoked, key);
      var cleanupSafe, erred := CleanUp(key, me, generations[key], revoked[key]);
      JudgeBothParts(trailBefore, logBefore, trail, log, |startLog|, me);
      failed := failedSoFar || erred;
      AbsentAfter(before, keys, me, todo, key);
      DueKept(before, keys, me, generations, revoked, todo - {key});
      RevokedKept(before, keys, me, revoked, key);
      safe := safeSoFar && cleanupSafe;
      if safe {
        GoneKept(before, keys, me, revoked, todo, key);
      }
    }

    /** The second pass: the entries are cleaned up one after the other. */
    method CleanUpAll(generations: map<string, nat>, me: nat, ghost revoked: Revocations)
        returns (safeToRestore: bool, failed: bool)
      requires Valid() && Absent(keys, me, generations.Keys) && AllRevoked(keys, revoked)
      requires generations.Keys == revoked.Keys && AllDue(keys, me, generations, revoked, generations.Keys)
      modifies this
      ensures Valid() && Absent(keys, me, {}) && AllRevoked(keys, revoked)
      ensures safeToRestore ==> AllGone(keys, revoked)
      ensures safeToRestore <==> Unspoilt(trail, log, |old(log)|, me)
      ensures failed <==> !ErrorFree(trail, log, |old(log)|, me)
      ensures reliable ==> FaultFree(trail, log, |old(log)|, me)
      ensures Traced(old(log), log, me, false) && old(trail) <= trail
    {
      safeToRestore, failed := true, false;
      var todo := generations.Keys;
      while todo != {}
        invariant Valid() && todo <= generations.Keys
        invariant CleaningUp(keys, me, generations, revoked, todo, safeToRestore)
        invariant Traced(old(log), log, me, false) && old(trail) <= trail
        invariant safeToRestore <==> Unspoilt(trail, log, |old(log)|, me)
        invariant failed <==> !ErrorFree(trail, log, |old(log)|, me)
        invariant reliable ==> FaultFree(trail, log, |old(log)|, me)
        decreases todo
      {
        var key :| key in todo;
        safeToRestore, failed := CleanUpNext(key, me, generations, revoked, todo, safeToRestore, failed, old(log));
        todo := todo - {key};
      }
    }

    lemma StorersAreRegistered()
      requires Valid()
      ensures forall key | key !in inflight + refreshing :: !HasStorer(At(keys, key))
    {
      forall key | key !in inflight + refreshing
        ensures !HasStorer(At(keys, key))
      {
        assert KeyValid(key);
      }
    }

    /** The rows are listed, and every entry is revoked, while both registries are held.  snapshot is
        where the rows were listed, number listedAt of the trail. */
    method Publish(matches: string -> bool, me: nat)
        returns (failed: bool, generations: map<string, nat>, ghost revoked: Revocations, ghost snapshot: Keys, ghost listedAt: nat)
      requires Valid() && Absent(keys, me, {})
      modifies this
      ensures Valid() && old(log) <= log && old(trail) <= trail && Traced(old(log), log, me, true)
      ensures |old(log)| <= listedAt <= |log| && snapshot == trail[listedAt] && Traced(old(log), log[..listedAt], me, false)
      ensures AllAdvanced(old(keys), snapshot, me) && AllInv(snapshot)
      ensures forall key | key !in old(inflight) + old(refreshing) :: !HasStorer(At(snapshot, key))
      ensures failed ==> revoked == map[] && generations == map[] && Absent(keys, me, {})
      ensures reliable ==> !failed
      ensures !failed ==>
                generations.Keys == revoked.Keys == Entries(snapshot, old(inflight), old(refreshing), matches) &&
                RevokedSoFar(snapshot, keys, me, generations, revoked, revoked.Keys)
      ensures AllBegun(trail, log, |old(log)|, me, revoked)
    {
      ValidMeansAllInv();
      Interfere(me, true);
      ValidMeansAllInv();
      snapshot, revoked, listedAt, generations := keys, map[], |log|, map[];
      ghost var listedLog := log;
      assert listedLog[..listedAt] == listedLog;
      failed := *;
      failed := failed && !reliable;
      AbsentKept(old(keys), keys, me, {});
      StorersAreRegistered();
      if failed {  // the rows can not be listed
        return;
      }
      generations, revoked := RevokeAll(Entries(keys, inflight, refreshing, matches), me);
      assert log[..listedAt] == listedLog;
      AllBegunSooner(trail, log, |listedLog|, |old(log)|, me, revoked);
    }

    /** InvalidatePackage.  Every key of the package that had a flight, a refresh or a row is revoked
        before the first delete; when the result is safe to restore, the old row or the old object of
        each of them is gone for good, whatever the other processes did in the meantime.  Any other key
        of the package has neither a row nor a writer that may still store one.

        published is the log when the last of the tombstones stood, and tombstones the states it leads
        through: every key has the beginning of its invalidation in it, from which on its revocation
        counts, and up to there this process has done nothing else.  The rows were listed at number
        listedAt of these states, before any of that.

        The answer says exactly what went wrong: unless the listing fails, the result is safe to restore
        exactly if no operation of this process after published spoils a cleanup, and there is no error
        exactly if, besides, no delete fails.  On a reliable store the only spoilers left are a gate that is
        taken and an invalidation that has been superseded. */
    method InvalidatePackage(matches: string -> bool, me: nat)
        returns (entries: nat, safeToRestore: bool, failed: bool,
                 ghost revoked: Revocations, ghost listedAt: nat, ghost published: seq<Op>, ghost tombstones: seq<Keys>)
      requires Valid() && Absent(keys, me, {})
      modifies this
      ensures Valid() && Absent(keys, me, {})
      ensures entries == |revoked| && (safeToRestore || failed)
      ensures (failed && !safeToRestore && revoked == map[] && log == published && !reliable) ||
              ((safeToRestore <==> Unspoilt(trail, log, |published|, me)) &&
               (failed <==> !ErrorFree(trail, log, |published|, me)) && published <= log && tombstones <= trail &&
               (reliable ==> FaultFree(trail, log, |published|, me)))
      ensures old(log) <= published && old(trail) <= tombstones && Steps(tombstones, published)
      ensures Traced(old(log), published, me, true) && Traced(published, log, me, false)
      ensures |old(log)| <= listedAt <= |published| && Traced(old(log), published[..listedAt], me, false)
      ensures (failed && !safeToRestore && revoked == map[]) ||
              revoked.Keys == Entries(tombstones[listedAt], old(inflight), old(refreshing), matches)
      ensures forall key | key !in old(inflight) + old(refreshing) :: !HasStorer(At(tombstones[listedAt], key))
      ensures (failed && !safeToRestore && revoked == map[]) ||
              forall key | matches(key) && key != "" && key !in revoked ::
                At(tombstones[listedAt], key).row.None? && !HasStorer(At(tombstones[listedAt], key))
      ensures forall key | key in revoked :: At(tombstones[listedAt], key).epoch < revoked[key].epoch
      ensures AllBegun(tombstones, published, |old(log)|, me, revoked) && AllRevoked(keys, revoked)
      ensures safeToRestore ==> AllGone(keys, revoked)
    {
      var generations;
      ghost var snapshot;
      failed, generations, revoked, snapshot, listedAt := Publish(matches, me);
      published, tombstones := log, trail;
      entries, safeToRestore := |generations|, false;
      assert |generations.Keys| == |generations| && |revoked.Keys| == |revoked|;
      if failed {
        return;
      }
      RevokedNow(snapshot, keys, me, generations, revoked);
      safeToRestore, failed := CleanUpAll(generations, me, revoked);
    }
  }
}

/** What the protocol of a cache key guarantees over whole runs: row and object match, and
    revocation is sticky. */
module KeyRevocation {
  import opened Wrappers
  import opened InvalidationRegistry
  import opened KeyProtocol
  import opened KeyPreservation

  // ---------------------------------------------------------------- whole runs

  lemma InitialInv(s: State)
    requires Initial(s)
    ensures Inv(s)
  {
  }

  lemma {:induction false} RunKeepsInv(s: State, events: seq<(nat, Event)>)
    requires Inv(s)
    ensures Inv(Run(s, events))
    decreases |events|
  {
    if events != [] {
      NextKeepsInv(s, events[0].0, events[0].1);
      RunKeepsInv(Next(s, events[0].0, events[0].1), events[1..]);
    }
  }

  /** Row and object always belong together where it shows: in every state that any run reaches with
      the gate free and the key readable, a row and an object that are both present come from the
      same write, which no invalidation has revoked.  Late finishInvalidation and abortWrite calls,
      failed deletes and failed row writes are among the events. */
  lemma BodyAndMetadataMatch(s: State, events: seq<(nat, Event)>)
    requires Initial(s)
    ensures var t := Run(s, events); t.gate.None? && Readable(t) ==> Paired(t)
  {
    InitialInv(s);
    RunKeepsInv(s, events);
  }

  // ---------------------------------------------------------------- revocation is sticky

  /** A reader that made its last readable check when fewer than epoch invalidations had begun. */
  predicate EarlyReader(s: State, p: nat, epoch: nat) {
    PastCheck(s, p) && s.procs[p].stage.epoch < epoch
  }

  predicate PastCheck(s: State, p: nat) {
    p in s.procs && s.procs[p].Reader? && s.procs[p].stage.Cleared?
  }

  /** What one event can do to the count of invalidations and to the readers. */
  predicate Acts(s: State, t: State, p: nat, epoch: nat) {
    s.epoch <= t.epoch &&
    (s.failClosed ==> t.failClosed) &&
    (EarlyReader(t, p, epoch) ==> EarlyReader(s, p, epoch) && t.served == s.served) &&
    (t.served == s.served ||
     (p in s.procs && s.procs[p].Reader? && s.procs[p].stage.Cleared? && p !in t.procs && s.body.Some? &&
      t.served == s.served + [Read(s.procs[p].stage.row, s.body.value, s.procs[p].stage.epoch)]))
  }

  /** The quiet part of most steps: process p moves on or leaves, and no read returns. */
  predicate OnlyMoves(s: State, t: State, p: nat) {
    s.epoch <= t.epoch && t.failClosed == s.failClosed && t.served == s.served &&
    (t.procs == s.procs - {p} ||
     (p in t.procs && t.procs == s.procs[p := t.procs[p]] && !(t.procs[p].Reader? && t.procs[p].stage.Cleared?)))
  }

  predicate TakesDown(at: WriterAt) {
    at.Undoing? || at.Removing? || at.RemovingObject? || at.Removed? || at.Discarding? || at.DiscardingObject? || at.Discarded?
  }

  predicate Ends(at: WriterAt) {
    at.Written? || at.Committed? || at.Failed? || at.Aborting?
  }

  lemma PublishingOnlyMoves(s: State, p: nat, w: Proc, ok: bool, effect: bool)
    requires p in s.procs && s.procs[p] == w && w.Writer? && !w.at.Fetching? && !TakesDown(w.at) && !Ends(w.at)
    ensures OnlyMoves(s, WriterStep(s, p, w, ok, effect), p)
  {
  }

  lemma EndingOnlyMoves(s: State, p: nat, w: Proc, ok: bool, effect: bool)
    requires p in s.procs && s.procs[p] == w && w.Writer? && Ends(w.at)
    ensures OnlyMoves(s, WriterStep(s, p, w, ok, effect), p)
  {
  }

  lemma TakingDownOnlyMoves(s: State, p: nat, w: Proc, ok: bool, effect: bool)
    requires p in s.procs && s.procs[p] == w && w.Writer? && TakesDown(w.at)
    ensures OnlyMoves(s, WriterStep(s, p, w, ok, effect), p)
  {
  }

  lemma InvalidatorOnlyMoves(s: State, p: nat, i: Proc, ok: bool, effect: bool)
    requires p in s.procs && s.procs[p] == i && i.Invalidator? && !i.step.Begun?
    ensures OnlyMoves(s, InvalidatorStep(s, p, i, ok, effect), p)
  {
  }

  lemma MovingActs(s: State, t: State, p: nat, epoch: nat)
    requires OnlyMoves(s, t, p)
    ensures Acts(s, t, p, epoch)
    ensures forall q | q != p :: SameAt(s.procs, t.procs, q)
  {
  }

  lemma WriterActs(s: State, p: nat, w: Proc, ok: bool, effect: bool, epoch: nat)
    requires p in s.procs && s.procs[p] == w && w.Writer?
    ensures Acts(s, WriterStep(s, p, w, ok, effect), p, epoch)
    ensures forall q | q != p :: SameAt(s.procs, WriterStep(s, p, w, ok, effect).procs, q)
  {
    if TakesDown(w.at) {
      TakingDownOnlyMoves(s, p, w, ok, effect);
      MovingActs(s, WriterStep(s, p, w, ok, effect), p, epoch);
    } else if Ends(w.at) {
      EndingOnlyMoves(s, p, w, ok, effect);
      MovingActs(s, WriterStep(s, p, w, ok, effect), p, epoch);
    } else if !w.at.Fetching? {
      PublishingOnlyMoves(s, p, w, ok, effect);
      MovingActs(s, WriterStep(s, p, w, ok, effect), p, epoch);
    }
  }

  lemma InvalidatorActs(s: State, p: nat, i: Proc, ok: bool, effect: bool, epoch: nat)
    requires p in s.procs && s.procs[p] == i && i.Invalidator?
    ensures Acts(s, InvalidatorStep(s, p, i, ok, effect), p, epoch)
    ensures forall q | q != p :: SameAt(s.procs, InvalidatorStep(s, p, i, ok, effect).procs, q)
  {
    if !i.step.Begun? {
      InvalidatorOnlyMoves(s, p, i, ok, effect);
      MovingActs(s, InvalidatorStep(s, p, i, ok, effect), p, epoch);
    }
  }

  lemma ReaderActs(s: State, p: nat, r: Proc, ok: bool, epoch: nat)
    requires p in s.procs && s.procs[p] == r && r.Reader? && epoch <= s.epoch
    ensures Acts(s, ReaderStep(s, p, r, ok), p, epoch)
    ensures forall q | q != p :: SameAt(s.procs, ReaderStep(s, p, r, ok).procs, q)
  {
  }

  lemma RemoverActs(s: State, p: nat, m: Proc, ok: bool, effect: bool, epoch: nat)
    requires p in s.procs && s.procs[p] == m && m.Remover?
    ensures Acts(s, RemoverStep(s, p, m, ok, effect), p, epoch)
    ensures forall q | q != p :: SameAt(s.procs, RemoverStep(s, p, m, ok, effect).procs, q)
  {
  }

  lemma OtherEventsAct(s: State, p: nat, e: Event, epoch: nat)
    requires !e.Step?
    ensures Acts(s, Next(s, p, e), p, epoch)
    ensures forall q | q != p :: SameAt(s.procs, Next(s, p, e).procs, q)
  {
  }

  lemma NextActs(s: State, p: nat, e: Event, epoch: nat)
    requires epoch <= s.epoch
    ensures Acts(s, Next(s, p, e), p, epoch)
    ensures forall q | q != p :: SameAt(s.procs, Next(s, p, e).procs, q)
  {
    if !e.Step? {
      OtherEventsAct(s, p, e, epoch);
    } else if p in s.procs {
      var proc := s.procs[p];
      match proc
      case Writer(_, _, _, _) => WriterActs(s, p, proc, e.ok, e.effect, epoch);
      case Invalidator(_, _) => InvalidatorActs(s, p, proc, e.ok, e.effect, epoch);
      case Reader(_) => ReaderActs(s, p, proc, e.ok, epoch);
      case Remover(_) => RemoverActs(s, p, proc, e.ok, e.effect, epoch);
    }
  }

  /** Reads from number n on saw at least epoch invalidations; the one exception is a read that was
      past its last check when the counting began, and that read comes first. */
  ghost predicate FreshSince(s: State, epoch: nat, n: nat, early: bool) {
    n <= |s.served| && epoch <= s.epoch &&
    (forall k | n <= k < |s.served| :: epoch <= s.served[k].epoch || (early && k == n)) &&
    (forall p | EarlyReader(s, p, epoch) :: early && |s.served| == n)
  }

  lemma NextKeepsFresh(s: State, p: nat, e: Event, epoch: nat, n: nat, early: bool)
    requires Inv(s) && FreshSince(s, epoch, n, early)
    ensures FreshSince(Next(s, p, e), epoch, n, early)
  {
    var t := Next(s, p, e);
    NextActs(s, p, e, epoch);
    forall q | EarlyReader(t, q, epoch)
      ensures early && |t.served| == n
    {
      if q != p {
        assert SameAt(s.procs, t.procs, q);
        assert EarlyReader(s, q, epoch) && ProcInv(s, p) && ProcInv(s, q);
      }
    }
    assert t.served != s.served ==> EarlyReader(s, p, epoch) || epoch <= s.procs[p].stage.epoch;
  }

  lemma {:induction false} RunKeepsFresh(s: State, events: seq<(nat, Event)>, epoch: nat, n: nat, early: bool)
    requires Inv(s) && FreshSince(s, epoch, n, early)
    ensures FreshSince(Run(s, events), epoch, n, early)
    decreases |events|
  {
    if events != [] {
      var p, e := events[0].0, events[0].1;
      NextKeepsFresh(s, p, e, epoch, n, early);
      NextKeepsInv(s, p, e);
      RunKeepsFresh(Next(s, p, e), events[1..], epoch, n, early);
    }
  }

  /** Some reader has made its last readable check and has not returned. */
  ghost predicate ReadUnderway(s: State) {
    exists p :: PastCheck(s, p)
  }

  /** Revocation is sticky: take any reachable state s, for instance the one right after an
      invalidation has begun.  Every snapshot read returned from there on pairs a row with its own
      object, and that object's write called beginWrite no earlier than the last invalidation begun
      before s.  Only a read that had already passed its last check at s is excused, and it can only
      be the next one to return. */
  lemma RevocationIsSticky(start: State, before: seq<(nat, Event)>, after: seq<(nat, Event)>)
    requires Initial(start)
    ensures var s := Run(start, before);
            var t := Run(s, after);
            |s.served| <= |t.served| &&
            (forall k | |s.served| <= k < |t.served| ::
               t.served[k].row == t.served[k].body &&
               (t.served[k].body.epoch >= s.epoch || (k == |s.served| && ReadUnderway(s))))
  {
    var s := Run(start, before);
    InitialInv(start);
    RunKeepsInv(start, before);
    RunKeepsInv(s, after);
    forall p | EarlyReader(s, p, s.epoch)
      ensures ReadUnderway(s)
    {
      assert PastCheck(s, p);
    }
    RunKeepsFresh(s, after, s.epoch, |s.served|, ReadUnderway(s));
  }

  /** Once the registry has failed closed the key is never readable again. */
  lemma {:induction false} FailClosedIsForever(s: State, events: seq<(nat, Event)>)
    requires s.failClosed
    ensures !Readable(Run(s, events))
    decreases |events|
  {
    if events != [] {
      NextActs(s, events[0].0, events[0].1, 0);
      FailClosedIsForever(Next(s, events[0].0, events[0].1), events[1..]);
    }
  }

  // ---------------------------------------------------------------- what the answers of the registry mean

  /** writeCurrent, asked for a write under way, says whether no invalidation has begun since the write. */
  lemma WriteIsCurrent(start: State, events: seq<(nat, Event)>, p: nat)
    requires Initial(start)
    ensures var s := Run(start, events);
            p in s.writes ==> (Current(s, s.writes[p].generation) <==> s.writes[p].epoch == s.epoch)
  {
    InitialInv(start);
    RunKeepsInv(start, events);
    assert TokenInv(Run(start, events), p);
  }

  predicate Pending(s: State, generation: nat) {
    Current(s, generation) && s.reg.value.tombstoned
  }

  /** The event is the commit of a write. */
  predicate Commits(s: State, p: nat, e: Event) {
    e.Step? && p in s.procs && s.procs[p].Writer? && s.procs[p].at.Written? &&
    (e.ok || s.procs[p].refresh) && Current(s, s.procs[p].generation)
  }

  /** No invalidation begins and no write commits. */
  predicate Undisturbed(s: State, events: seq<(nat, Event)>)
    decreases |events|
  {
    events == [] ||
    (var t := Next(s, events[0].0, events[0].1);
     t.epoch == s.epoch && !Commits(s, events[0].0, events[0].1) && Undisturbed(t, events[1..]))
  }

  /** The invalidation that process p has begun is not finished before the end of the run. */
  predicate HeldThrough(s: State, events: seq<(nat, Event)>, p: nat)
    decreases |events|
  {
    p in s.revocations && (events != [] ==> HeldThrough(Next(s, events[0].0, events[0].1), events[1..], p))
  }

  /** What a step does to the registry, seen by an invalidation that stays under way. */
  predicate RegistryMoves(s: State, t: State, p: nat, commits: bool) {
    s.reg.Some? && t.reg.Some? && p in s.revocations && p in t.revocations && t.revocations[p] == s.revocations[p] &&
    (if t.epoch == s.epoch then
       t.reg.value.generation == s.reg.value.generation && t.reg.value.tombstoned == (s.reg.value.tombstoned && !commits)
     else t.epoch > s.epoch && t.reg.value.generation > s.reg.value.generation)
  }

  /** The invalidation of p is under way, and that of q, if there is one, is another. */
  predicate Underway(s: State, p: nat, q: nat) {
    p in s.revocations && s.reg.Some? && q in s.procs && (HoldsInvalidation(s.procs[q]) <==> q in s.revocations) &&
    s.reg.value.invalidations > (if q in s.revocations && q != p then 1 else 0)
  }

  predicate TouchesRegistry(at: WriterAt) {
    at.Written? || at.Undoing? || at.Removed? || at.Discarded? || at.Aborting?
  }

  lemma WriterLeavesRegistry(s: State, q: nat, ok: bool, effect: bool, p: nat)
    requires Underway(s, p, q) && s.procs[q].Writer? && !TouchesRegistry(s.procs[q].at)
    ensures RegistryMoves(s, WriterStep(s, q, s.procs[q], ok, effect), p, false)
  {
  }

  lemma CommitMovesRegistry(s: State, q: nat, ok: bool, effect: bool, p: nat)
    requires Underway(s, p, q) && s.procs[q].Writer? && s.procs[q].at.Written?
    ensures RegistryMoves(s, WriterStep(s, q, s.procs[q], ok, effect), p, Commits(s, q, Step(ok, effect)))
  {
    assert !CommitOn(s.reg.value).Idle();
  }

  lemma TakingDownMovesRegistry(s: State, q: nat, ok: bool, effect: bool, p: nat)
    requires Underway(s, p, q) && s.procs[q].Writer? && TouchesRegistry(s.procs[q].at) && !s.procs[q].at.Written?
    requires p in WriterStep(s, q, s.procs[q], ok, effect).revocations
    ensures RegistryMoves(s, WriterStep(s, q, s.procs[q], ok, effect), p, false)
  {
    var r := s.reg.value;
    match s.procs[q].at
    case Undoing =>
    case Removed(g, safe) =>
      assert p != q && !FinishOn(r, g, safe).Idle();
    case Discarded(safe) =>
      assert !CleanupSafeOn(r).Idle();
    case Aborting =>
      assert !AbortOn(r).Idle();
    case _ =>
  }

  lemma InvalidatorMovesRegistry(s: State, q: nat, ok: bool, effect: bool, p: nat)
    requires Underway(s, p, q) && s.procs[q].Invalidator?
    requires p in InvalidatorStep(s, q, s.procs[q], ok, effect).revocations
    ensures RegistryMoves(s, InvalidatorStep(s, q, s.procs[q], ok, effect), p, false)
  {
    if s.procs[q].step.Finishing? {
      assert p != q && !FinishOn(s.reg.value, s.procs[q].revoked, s.procs[q].step.safe).Idle();
    }
  }

  lemma OthersLeaveRegistry(s: State, q: nat, e: Event, p: nat)
    requires Underway(s, p, q) && (e.Step? ==> s.procs[q].Reader? || s.procs[q].Remover?)
    ensures RegistryMoves(s, Next(s, q, e), p, false)
  {
  }

  lemma NewcomersMoveRegistry(s: State, q: nat, e: Event, p: nat)
    requires p in s.revocations && s.reg.Some? && s.reg.value.invalidations > 0 && q !in s.procs && q !in s.revocations
    ensures RegistryMoves(s, Next(s, q, e), p, false)
  {
  }

  lemma NextMovesRegistry(s: State, q: nat, e: Event, p: nat)
    requires Inv(s) && p in s.revocations && p in Next(s, q, e).revocations
    ensures RegistryMoves(s, Next(s, q, e), p, Commits(s, q, e))
  {
    IsUnderway(s, p, q);
    if q !in s.procs {
      NewcomersMoveRegistry(s, q, e, p);
    } else if !e.Step? || s.procs[q].Reader? || s.procs[q].Remover? {
      OthersLeaveRegistry(s, q, e, p);
    } else if s.procs[q].Invalidator? {
      InvalidatorMovesRegistry(s, q, e.ok, e.effect, p);
    } else if s.procs[q].at.Written? {
      CommitMovesRegistry(s, q, e.ok, e.effect, p);
    } else if TouchesRegistry(s.procs[q].at) {
      TakingDownMovesRegistry(s, q, e.ok, e.effect, p);
    } else {
      WriterLeavesRegistry(s, q, e.ok, e.effect, p);
    }
  }

  lemma IsUnderway(s: State, p: nat, q: nat)
    requires Inv(s) && p in s.revocations
    ensures s.reg.Some? && s.reg.value.invalidations > 0
    ensures if q in s.procs then Underway(s, p, q) else q !in s.revocations
  {
    assert ProcInv(s, q) && TokenInv(s, p);
    var others := s.revocations - {p};
    assert s.revocations == others[p := s.revocations[p]];
    if q != p && q in s.revocations {
      assert q in others;
    }
  }

  lemma {:induction false} StaysPendingExactlyIf(s: State, events: seq<(nat, Event)>, p: nat)
    requires Inv(s) && HeldThrough(s, events, p)
    ensures Pending(Run(s, events), s.revocations[p]) <==> Pending(s, s.revocations[p]) && Undisturbed(s, events)
    decreases |events|
  {
    if events != [] {
      var q, e := events[0].0, events[0].1;
      var t := Next(s, q, e);
      NextKeepsInv(s, q, e);
      NextMovesRegistry(s, q, e, p);
      assert TokenInv(s, p) && TokenInv(t, p);
      StaysPendingExactlyIf(t, events[1..], p);
    }
  }

  /** invalidationPending, asked by an invalidation under way, says whether no other has begun and no
      write has committed since it began, whatever else has happened to the key. */
  lemma PendingMeansUndisturbed(start: State, before: seq<(nat, Event)>, p: nat, after: seq<(nat, Event)>)
    requires Initial(start) && p !in Run(start, before).procs
    requires HeldThrough(Next(Run(start, before), p, BeginInvalidation), after, p)
    ensures var s := Next(Run(start, before), p, BeginInvalidation);
            Pending(Run(s, after), s.revocations[p]) <==> Undisturbed(s, after)
  {
    var s := Run(start, before);
    InitialInv(start);
    RunKeepsInv(start, before);
    NextKeepsInv(s, p, BeginInvalidation);
    StaysPendingExactlyIf(Next(s, p, BeginInvalidation), after, p);
  }
}

/** What one process of a cache key gets done when nobody comes between its steps: a read is served, a
    store publishes, an invalidation cleans up and lets its tombstone go, a removal removes.  Each is
    stated on a run, with the whole state it leaves. */
module KeyProgress {
  import opened Wrappers
  import opened InvalidationRegistry
  import opened KeyProtocol
  import opened KeyRevocation

  const DONE := Step(true, true)

  /** A run in which only process p acts. */
  function Alone(p: nat, events: seq<Event>): seq<(nat, Event)> {
    if events == [] then [] else [(p, events[0])] + Alone(p, events[1..])
  }

  lemma OneStep(s: State, p: nat, e: Event, rest: seq<Event>)
    ensures Run(s, Alone(p, [e] + rest)) == Run(Next(s, p, e), Alone(p, rest))
  {
    var events := [e] + rest;
    assert events[1..] == rest;
    assert Alone(p, events)[0] == (p, e) && Alone(p, events)[1..] == Alone(p, rest);
  }

  lemma NoStep(s: State, p: nat)
    ensures Run(s, Alone(p, [])) == s
  {
  }

  lemma WriterActs(s: State, p: nat, e: Event, rest: seq<Event>)
    requires e.Step? && p in s.procs && s.procs[p].Writer?
    ensures Run(s, Alone(p, [e] + rest)) == Run(WriterStep(s, p, s.procs[p], e.ok, e.effect), Alone(p, rest))
  {
    OneStep(s, p, e, rest);
  }

  lemma InvalidatorActs(s: State, p: nat, e: Event, rest: seq<Event>)
    requires e.Step? && p in s.procs && s.procs[p].Invalidator?
    ensures Run(s, Alone(p, [e] + rest)) == Run(InvalidatorStep(s, p, s.procs[p], e.ok, e.effect), Alone(p, rest))
  {
    OneStep(s, p, e, rest);
  }

  lemma RemoverActs(s: State, p: nat, e: Event, rest: seq<Event>)
    requires e.Step? && p in s.procs && s.procs[p].Remover?
    ensures Run(s, Alone(p, [e] + rest)) == Run(RemoverStep(s, p, s.procs[p], e.ok, e.effect), Alone(p, rest))
  {
    OneStep(s, p, e, rest);
  }

  lemma BackAgain(s: State, p: nat, proc: Proc)
    requires p !in s.procs
    ensures s.procs[p := proc] - {p} == s.procs
  {
  }

  /** The gate is free: the process begins and takes it. */
  lemma Enters(s: State, p: nat, begin: Event, t: State, rest: seq<Event>)
    requires Next(s, p, begin) == t && p in t.procs && AwaitsLock(t.procs[p]) && t.gate.None?
    ensures Run(s, Alone(p, [begin, Lock] + rest)) ==
            Run(Put(t.(gate := Some(p)), p, Locked(t.procs[p])), Alone(p, rest))
  {
    OneStep(s, p, begin, [Lock] + rest);
    assert [begin] + ([Lock] + rest) == [begin, Lock] + rest;
    OneStep(t, p, Lock, rest);
  }

  // ---------------------------------------------------------------- a read

  function ReaderAs(s: State, p: nat, stage: ReaderAt): State {
    s.(gate := Some(p), procs := s.procs[p := Reader(stage)])
  }

  lemma ReadFinds(s: State, p: nat, rest: seq<Event>)
    requires Readable(s) && s.row.Some?
    ensures Run(ReaderAs(s, p, RLocked), Alone(p, [DONE, DONE] + rest)) ==
            Run(ReaderAs(s, p, Found(s.row.value)), Alone(p, rest))
  {
    var a, b := ReaderAs(s, p, RLocked), ReaderAs(s, p, Admitted);
    assert Next(a, p, DONE) == b by { assert a.procs[p := Reader(Admitted)] == b.procs; }
    OneStep(a, p, DONE, [DONE] + rest);
    assert [DONE] + ([DONE] + rest) == [DONE, DONE] + rest;
    var c := ReaderAs(s, p, Found(s.row.value));
    assert Next(b, p, DONE) == c by { assert b.procs[p := Reader(Found(s.row.value))] == c.procs; }
    OneStep(b, p, DONE, rest);
  }

  lemma ReadReturns(s: State, p: nat, row: Tag)
    requires Readable(s) && s.body.Some? && s.gate.None? && p !in s.procs
    ensures Run(ReaderAs(s, p, Found(row)), Alone(p, [DONE, DONE])) ==
            s.(served := s.served + [Read(row, s.body.value, s.epoch)])
  {
    var a, b := ReaderAs(s, p, Found(row)), ReaderAs(s, p, Cleared(row, s.epoch));
    assert Next(a, p, DONE) == b by { assert a.procs[p := Reader(Cleared(row, s.epoch))] == b.procs; }
    OneStep(a, p, DONE, [DONE]);
    assert [DONE] + [DONE] == [DONE, DONE];
    BackAgain(s, p, Reader(Cleared(row, s.epoch)));
    var c := s.(served := s.served + [Read(row, s.body.value, s.epoch)]);
    assert Next(b, p, DONE) == c;
    OneStep(b, p, DONE, []);
    assert [DONE] + [] == [DONE];
  }

  /** With the gate free and the key readable, a cached object is served: the read returns the row and
      the object that are there, and leaves everything else as it was. */
  lemma ReadIsServed(s: State, p: nat)
    requires s.gate.None? && Readable(s) && s.row.Some? && s.body.Some? && p !in s.procs
    ensures Run(s, Alone(p, [BeginRead, Lock, DONE, DONE, DONE, DONE])) ==
            s.(served := s.served + [Read(s.row.value, s.body.value, s.epoch)])
  {
    Enters(s, p, BeginRead, Put(s, p, Reader(Waiting)), [DONE, DONE, DONE, DONE]);
    assert [BeginRead, Lock] + [DONE, DONE, DONE, DONE] == [BeginRead, Lock, DONE, DONE, DONE, DONE];
    assert s.procs[p := Reader(Waiting)][p := Reader(RLocked)] == s.procs[p := Reader(RLocked)];
    ReadFinds(s, p, [DONE, DONE]);
    assert [DONE, DONE] + [DONE, DONE] == [DONE, DONE, DONE, DONE];
    ReadReturns(s, p, s.row.value);
  }

  // ---------------------------------------------------------------- an invalidation

  /** The key while p invalidates it, with the row and the object it has left so far. */
  function InvalidatorAs(s: State, p: nat, step: InvalidatorAt, row: Option<Tag>, body: Option<Tag>): State {
    BeginInvalidationReg(s, p).(gate := Some(p), row := row, body := body,
                                procs := s.procs[p := Invalidator(StateOf(s.reg).generation + 1, step)])
  }

  function AfterDelete(tag: Option<Tag>, delete: Event): Option<Tag>
    requires delete.Step?
  {
    if delete.ok || delete.effect then None else tag
  }

  lemma InvalidatorFindsPending(s: State, p: nat, row: Option<Tag>, body: Option<Tag>, rest: seq<Event>)
    ensures Run(InvalidatorAs(s, p, ILocked, row, body), Alone(p, [DONE] + rest)) ==
            Run(InvalidatorAs(s, p, Deleting, row, body), Alone(p, rest))
  {
    var a, b := InvalidatorAs(s, p, ILocked, row, body), InvalidatorAs(s, p, Deleting, row, body);
    InvalidatorActs(a, p, DONE, rest);
    assert a.procs[p := b.procs[p]] == b.procs;
  }

  lemma InvalidatorDropsRow(s: State, p: nat, row: Option<Tag>, body: Option<Tag>, e: Event, rest: seq<Event>)
    requires e.Step?
    ensures Run(InvalidatorAs(s, p, Deleting, row, body), Alone(p, [e] + rest)) ==
            Run(InvalidatorAs(s, p, DeletingObject(e.ok), AfterDelete(row, e), body), Alone(p, rest))
  {
    var a, b := InvalidatorAs(s, p, Deleting, row, body), InvalidatorAs(s, p, DeletingObject(e.ok), AfterDelete(row, e), body);
    InvalidatorActs(a, p, e, rest);
    assert a.procs[p := b.procs[p]] == b.procs;
    assert (if e.ok || e.effect then a.(row := None) else a).row == b.row;
  }

  lemma InvalidatorErases(s: State, p: nat, rowOk: bool, row: Option<Tag>, body: Option<Tag>, e: Event, rest: seq<Event>)
    requires e.Step?
    ensures Run(InvalidatorAs(s, p, DeletingObject(rowOk), row, body), Alone(p, [e] + rest)) ==
            Run(InvalidatorAs(s, p, Cleaned(rowOk || e.ok), row, AfterDelete(body, e)), Alone(p, rest))
  {
    var a := InvalidatorAs(s, p, DeletingObject(rowOk), row, body);
    var b := InvalidatorAs(s, p, Cleaned(rowOk || e.ok), row, AfterDelete(body, e));
    InvalidatorActs(a, p, e, rest);
    assert a.procs[p := b.procs[p]] == b.procs;
    assert (if e.ok || e.effect then a.(body := None) else a).body == b.body;
  }

  /** The key after an invalidation of p that left this row and this object. */
  function Invalidated(s: State, p: nat, safe: bool, row: Option<Tag>, body: Option<Tag>): State {
    var begun := BeginInvalidationOn(s.reg);
    s.(reg := Settle(FinishOn(begun, begun.generation, safe), s.failClosed), epoch := s.epoch + 1, row := row, body := body)
  }

  lemma InvalidatorEnds(s: State, p: nat, safe: bool, row: Option<Tag>, body: Option<Tag>)
    requires s.gate.None? && p !in s.procs && p !in s.revocations
    ensures Run(InvalidatorAs(s, p, Cleaned(safe), row, body), Alone(p, [DONE, DONE])) == Invalidated(s, p, safe, row, body)
  {
    var a := InvalidatorAs(s, p, Cleaned(safe), row, body);
    var g := StateOf(s.reg).generation + 1;
    var b := InvalidatorAs(s, p, Finishing(safe), row, body).(gate := None);
    assert a.procs[p := Invalidator(g, Finishing(safe))] == b.procs;
    InvalidatorActs(a, p, DONE, [DONE]);
    assert [DONE] + [DONE] == [DONE, DONE];
    BackAgain(s, p, Invalidator(g, Finishing(safe)));
    assert s.revocations[p := g] - {p} == s.revocations;
    assert FinishReg(b, p, g, safe).revocations == s.revocations;
    InvalidatorActs(b, p, DONE, []);
    NoStep(Invalidated(s, p, safe, row, body), p);
    assert [DONE] + [] == [DONE];
  }

  lemma InvalidatorCleansUp(s: State, p: nat, drop: Event, erase: Event)
    requires drop.Step? && erase.Step?
    ensures Run(InvalidatorAs(s, p, ILocked, s.row, s.body), Alone(p, [DONE, drop, erase, DONE, DONE])) ==
            Run(InvalidatorAs(s, p, Cleaned(drop.ok || erase.ok), AfterDelete(s.row, drop), AfterDelete(s.body, erase)),
                Alone(p, [DONE, DONE]))
  {
    InvalidatorFindsPending(s, p, s.row, s.body, [drop, erase, DONE, DONE]);
    assert [DONE] + [drop, erase, DONE, DONE] == [DONE, drop, erase, DONE, DONE];
    InvalidatorDropsRow(s, p, s.row, s.body, drop, [erase, DONE, DONE]);
    assert [drop] + [erase, DONE, DONE] == [drop, erase, DONE, DONE];
    InvalidatorErases(s, p, drop.ok, AfterDelete(s.row, drop), s.body, erase, [DONE, DONE]);
    assert [erase] + [DONE, DONE] == [erase, DONE, DONE];
  }

  lemma InvalidationRuns(s: State, p: nat, drop: Event, erase: Event)
    requires s.gate.None? && p !in s.procs && p !in s.revocations && drop.Step? && erase.Step?
    ensures Run(s, Alone(p, [BeginInvalidation, Lock, DONE, drop, erase, DONE, DONE])) ==
            Invalidated(s, p, drop.ok || erase.ok, AfterDelete(s.row, drop), AfterDelete(s.body, erase))
  {
    var g := StateOf(s.reg).generation + 1;
    var begun := Put(BeginInvalidationReg(s, p), p, Invalidator(g, Begun));
    Enters(s, p, BeginInvalidation, begun, [DONE, drop, erase, DONE, DONE]);
    assert [BeginInvalidation, Lock] + [DONE, drop, erase, DONE, DONE] ==
           [BeginInvalidation, Lock, DONE, drop, erase, DONE, DONE];
    assert s.procs[p := Invalidator(g, Begun)][p := Invalidator(g, ILocked)] == s.procs[p := Invalidator(g, ILocked)];
    InvalidatorCleansUp(s, p, drop, erase);
    InvalidatorEnds(s, p, drop.ok || erase.ok, AfterDelete(s.row, drop), AfterDelete(s.body, erase));
  }

  /** An invalidation that nobody disturbs, whichever of its deletes go through.  It leaves a key nobody
      else uses readable exactly if one of them did, and otherwise sealed by its tombstone; a key in use
      stays sealed, and its tombstone is known to be safe to lift exactly if one of them did. */
  lemma InvalidationCompletes(start: State, before: seq<(nat, Event)>, p: nat, drop: Event, erase: Event)
    requires Initial(start) && drop.Step? && erase.Step?
    requires var s := Run(start, before); s.gate.None? && p !in s.procs
    ensures var s := Run(start, before);
            var t := Run(s, Alone(p, [BeginInvalidation, Lock, DONE, drop, erase, DONE, DONE]));
            var unused := s.writes == map[] && s.revocations == map[];
            var safe := drop.ok || erase.ok;
            t.row == (if drop.ok || drop.effect then None else s.row) &&
            t.body == (if erase.ok || erase.effect then None else s.body) &&
            t.epoch == s.epoch + 1 && t.procs == s.procs && t.gate.None? && t.served == s.served &&
            (Readable(t) <==> !s.failClosed && unused && safe) &&
            (unused && safe ==> t.reg.None?) &&
            (!unused ==> t.reg.Some? && t.reg.value.tombstoned && t.reg.value.cleanupSafe == safe &&
                         t.reg.value.generation == StateOf(s.reg).generation + 1)
  {
    var s := Run(start, before);
    InitialInv(start);
    RunKeepsInv(start, before);
    assert ProcInv(s, p);
    InvalidationRuns(s, p, drop, erase);
    NobodyUses(s);
  }

  lemma NobodyUses(s: State)
    requires CountInv(s)
    ensures s.writes == map[] && s.revocations == map[] <==> s.reg.None? || s.reg.value.Idle()
  {
    assert |s.writes| == 0 <==> s.writes == map[];
    assert |s.revocations| == 0 <==> s.revocations == map[];
  }

  // ---------------------------------------------------------------- a store

  /** The key while p writes it. */
  function WriterAs(s: State, p: nat, refresh: bool, at: WriterAt, row: Option<Tag>, body: Option<Tag>): State {
    BeginWriteReg(s, p).(gate := Some(p), row := row, body := body,
                         procs := s.procs[p := Writer(refresh, StateOf(s.reg).generation, Tag(p, s.epoch), at)])
  }

  /** The place after one at which everything has gone well. */
  function After(refresh: bool, at: WriterAt): WriterAt {
    match at
    case WLocked => if refresh then Checked else Loaded
    case Checked => Loaded
    case Loaded => Stored
    case Stored => Validated
    case Validated => Publishing
    case _ => Written
  }

  lemma WriterMoves(s: State, p: nat, refresh: bool, at: WriterAt, row: Option<Tag>, body: Option<Tag>, rest: seq<Event>)
    requires at in {WLocked, Checked, Loaded, Stored, Validated, Publishing} && (refresh ==> row.Some?)
    requires at.Checked? ==> refresh
    ensures var tag := Some(Tag(p, s.epoch));
            Run(WriterAs(s, p, refresh, at, row, body), Alone(p, [DONE] + rest)) ==
            Run(WriterAs(s, p, refresh, After(refresh, at), if at.Publishing? then tag else row, if at.Loaded? then tag else body),
                Alone(p, rest))
  {
    var a, g, tag := WriterAs(s, p, refresh, at, row, body), StateOf(s.reg).generation, Tag(p, s.epoch);
    WriterActs(a, p, DONE, rest);
    var next := Writer(refresh, g, tag, After(refresh, at));
    assert a.procs[p := next] == s.procs[p := next];
    var b := WriterAs(s, p, refresh, After(refresh, at), if at.Publishing? then Some(tag) else row, if at.Loaded? then Some(tag) else body);
    var c := WriterStep(a, p, a.procs[p], true, true);
    match at
    case WLocked => assert c == b;
    case Checked => assert c == b;
    case Loaded => assert c == b;
    case Stored => assert c == b;
    case Validated => assert c == b;
    case Publishing => assert c == b;
    case _ =>
  }

  /** The key after a store of p. */
  function Published(s: State, p: nat): State {
    var tag := Some(Tag(p, s.epoch));
    s.(reg := Settle(CommitOn(BeginWriteOn(s.reg)), s.failClosed), row := tag, body := tag)
  }

  lemma WriterEnds(s: State, p: nat, refresh: bool)
    requires s.gate.None? && p !in s.procs && p !in s.writes
    ensures var tag := Some(Tag(p, s.epoch));
            Run(WriterAs(s, p, refresh, Written, tag, tag), Alone(p, [DONE, DONE])) == Published(s, p)
  {
    var tag, g := Tag(p, s.epoch), StateOf(s.reg).generation;
    var a := WriterAs(s, p, refresh, Written, Some(tag), Some(tag));
    var w := Writer(refresh, g, tag, Committed);
    var b := Published(s, p).(gate := Some(p), procs := s.procs[p := w]);
    assert a.procs[p := w] == s.procs[p := w] && a.writes - {p} == s.writes;
    WriterActs(a, p, DONE, [DONE]);
    assert [DONE] + [DONE] == [DONE, DONE];
    BackAgain(s, p, w);
    WriterActs(b, p, DONE, []);
    NoStep(Published(s, p), p);
    assert [DONE] + [] == [DONE];
  }

  lemma WriterPublishes(s: State, p: nat, refresh: bool)
    requires refresh ==> s.row.Some?
    ensures var tag := Some(Tag(p, s.epoch));
            Run(WriterAs(s, p, refresh, Loaded, s.row, s.body), Alone(p, [DONE, DONE, DONE, DONE, DONE, DONE])) ==
            Run(WriterAs(s, p, refresh, Written, tag, tag), Alone(p, [DONE, DONE]))
  {
    var tag := Some(Tag(p, s.epoch));
    WriterMoves(s, p, refresh, Loaded, s.row, s.body, [DONE, DONE, DONE, DONE, DONE]);
    assert [DONE] + [DONE, DONE, DONE, DONE, DONE] == [DONE, DONE, DONE, DONE, DONE, DONE];
    WriterMoves(s, p, refresh, Stored, s.row, tag, [DONE, DONE, DONE, DONE]);
    assert [DONE] + [DONE, DONE, DONE, DONE] == [DONE, DONE, DONE, DONE, DONE];
    WriterMoves(s, p, refresh, Validated, s.row, tag, [DONE, DONE, DONE]);
    assert [DONE] + [DONE, DONE, DONE] == [DONE, DONE, DONE, DONE];
    WriterMoves(s, p, refresh, Publishing, s.row, tag, [DONE, DONE]);
    assert [DONE] + [DONE, DONE] == [DONE, DONE, DONE];
  }

  /** The steps of a store up to the point where the object is written: a refresh reads its row again. */
  function Beginning(refresh: bool): seq<Event> {
    [BeginWrite(refresh), Lock] + if refresh then [DONE, DONE] else [DONE]
  }

  lemma WriterBegins(s: State, p: nat, refresh: bool, rest: seq<Event>)
    requires s.gate.None? && p !in s.procs && (refresh ==> s.row.Some?)
    ensures Run(s, Alone(p, Beginning(refresh) + rest)) == Run(WriterAs(s, p, refresh, Loaded, s.row, s.body), Alone(p, rest))
  {
    var tag, g := Tag(p, s.epoch), StateOf(s.reg).generation;
    var begun := Put(BeginWriteReg(s, p), p, Writer(refresh, g, tag, Fetching));
    assert Next(s, p, BeginWrite(refresh)) == begun;
    var more := (if refresh then [DONE] else []) + rest;
    Enters(s, p, BeginWrite(refresh), begun, [DONE] + more);
    assert [BeginWrite(refresh), Lock] + ([DONE] + more) == Beginning(refresh) + rest;
    var w := Writer(refresh, g, tag, WLocked);
    assert begun.procs[p := w] == s.procs[p := w];
    WriterMoves(s, p, refresh, WLocked, s.row, s.body, more);
    if refresh {
      WriterMoves(s, p, refresh, Checked, s.row, s.body, rest);
    } else {
      assert more == rest;
    }
  }

  /** A store that nobody disturbs publishes: a first store, or a refresh of a row that is there, leaves its
      own row with its own object, revoked by no invalidation, and the key readable unless the registry has
      failed closed. */
  lemma StoreCompletes(start: State, before: seq<(nat, Event)>, p: nat, refresh: bool)
    requires Initial(start)
    requires var s := Run(start, before); s.gate.None? && p !in s.procs && (refresh ==> s.row.Some?)
    ensures var s := Run(start, before);
            var t := Run(s, Alone(p, Beginning(refresh) + [DONE, DONE, DONE, DONE, DONE, DONE]));
            t.row == t.body == Some(Tag(p, s.epoch)) && t.epoch == s.epoch &&
            (Readable(t) <==> !s.failClosed) &&
            t.procs == s.procs && t.gate.None? && t.served == s.served && t.writes == s.writes && t.revocations == s.revocations
  {
    var s := Run(start, before);
    InitialInv(start);
    RunKeepsInv(start, before);
    assert ProcInv(s, p);
    WriterBegins(s, p, refresh, [DONE, DONE, DONE, DONE, DONE, DONE]);
    WriterPublishes(s, p, refresh);
    WriterEnds(s, p, refresh);
  }

  // ---------------------------------------------------------------- a removal

  /** A removal whose deletes go through leaves neither the row nor the object. */
  lemma RemovalCompletes(s: State, p: nat)
    requires s.gate.None? && p !in s.procs
    ensures Run(s, Alone(p, [BeginRemoval, Lock, DONE, DONE])) == s.(row := None, body := None)
  {
    Enters(s, p, BeginRemoval, Put(s, p, Remover(Queued)), [DONE, DONE]);
    assert [BeginRemoval, Lock] + [DONE, DONE] == [BeginRemoval, Lock, DONE, DONE];
    assert s.procs[p := Remover(Queued)][p := Remover(MLocked)] == s.procs[p := Remover(MLocked)];
    var a := s.(gate := Some(p), procs := s.procs[p := Remover(MLocked)]);
    var b := s.(gate := Some(p), body := None, procs := s.procs[p := Remover(ObjectGone)]);
    assert a.procs[p := Remover(ObjectGone)] == b.procs;
    RemoverActs(a, p, DONE, [DONE]);
    assert [DONE] + [DONE] == [DONE, DONE];
    BackAgain(s, p, Remover(ObjectGone));
    RemoverActs(b, p, DONE, []);
    NoStep(s.(row := None, body := None), p);
    assert [DONE] + [] == [DONE];
  }
}

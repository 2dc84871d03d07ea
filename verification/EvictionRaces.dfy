/** The eviction loop of the compiler cache while others work on its rows
    (internal/compilecache/service.go: cleanupToLocked, with the key locks and the reload).

    The capacity lock is held, so nobody else changes the ledger.  Between any two operations of the loop
    others may take and release key locks, remove rows, and write rows anew; whoever writes a row holds
    its key lock and moves its time of update forward.  The class remembers every state it has been in.
    How often others change the table is any number that is fixed at the start. */
module EvictionRaces {
  import opened Wrappers
  import opened CompileLedger
  import opened CompileEviction

  /** The table in the order of the eviction query, the times of update by id, the key locks of others,
      the deletion queue, the ledger and the time. */
  datatype Moment = Moment(rows: seq<Row>, updated: map<nat, int>, locked: set<Artifact>, outbox: set<string>, ledger: Ledger,
                           clock: int)

  datatype Goal = Goal(target: Usage, scope: Scope, exclude: Option<Artifact>)

  predicate Dated(m: Moment, r: Row) {
    r.id in m.updated && m.updated[r.id] <= m.clock
  }

  predicate Sound(m: Moment) {
    InOrder(m.rows) && Tidy(m.ledger) && forall r | r in m.rows :: Dated(m, r)
  }

  predicate IsOver(m: Moment, goal: Goal) {
    !Reading(m.ledger, goal.scope).Within(goal.target)
  }

  // ---------------------------------------------------------------- what others do

  /** A row is what it was, or has been written since. */
  predicate WrittenOrKept(a: Moment, b: Moment, r: Row) {
    r.id in b.updated &&
    ((r in a.rows && r.id in a.updated && b.updated[r.id] == a.updated[r.id]) || b.updated[r.id] > a.clock)
  }

  predicate Others(a: Moment, b: Moment) {
    Sound(b) && b.ledger == a.ledger && a.clock <= b.clock && forall r | r in b.rows :: WrittenOrKept(a, b, r)
  }

  /** Nobody else touches a key while its lock is held here. */
  predicate Respects(a: Moment, b: Moment, held: Artifact) {
    held !in b.locked &&
    (forall r | r in a.rows && r.artifact == held :: r in b.rows) && (forall r | r in b.rows && r.artifact == held :: r in a.rows)
  }

  // ---------------------------------------------------------------- what the loop does

  /** The eviction transaction of one row, its capacity included. */
  function AfterEviction(m: Moment, r: Row): Moment {
    m.(rows := Filter(m.rows, Other(r)), outbox := m.outbox + {r.path},
       ledger := AddTo(m.ledger, r.artifact.namespace, Weight(r).Negated()))
  }

  /** The row is in the table, in scope, not the one to be spared, and nobody else has its lock. */
  predicate MayGo(m: Moment, goal: Goal, r: Row) {
    r in m.rows && InScope(r.artifact.namespace, goal.scope) && goal.exclude != Some(r.artifact) && r.artifact !in m.locked
  }

  predicate Evicts(a: Moment, b: Moment, goal: Goal, r: Row) {
    MayGo(a, goal, r) && IsOver(a, goal) && b == AfterEviction(a, r)
  }

  /** A row was listed at one state of the history and evicted, unchanged, at another. */
  datatype Eviction = Eviction(listed: nat, at: nat, row: Row)

  /** The eviction is a step of the history, of a row that was listed before and since the start. */
  ghost predicate Happened(history: seq<Moment>, start: nat, goal: Goal, e: Eviction) {
    start <= e.listed <= e.at && e.at + 1 < |history| && e.row in history[e.listed].rows &&
    Evicts(history[e.at], history[e.at + 1], goal, e.row)
  }

  predicate IsAt(e: Eviction, i: nat) {
    e.at == i
  }

  /** Every step since the start is one of others or one of these evictions. */
  ghost predicate StepFine(history: seq<Moment>, evicted: seq<Eviction>, i: nat)
    requires i + 1 < |history|
  {
    Others(history[i], history[i + 1]) || exists k | 0 <= k < |evicted| :: IsAt(evicted[k], i)
  }

  /** The evictions go on in the order of the query, whatever others do to the table meanwhile. */
  predicate InTurn(evicted: seq<Eviction>) {
    forall j, k | 0 <= j < k < |evicted| :: evicted[j].at < evicted[k].at && Past(evicted[k].row, CursorAt(evicted[j].row))
  }

  ghost predicate Story(history: seq<Moment>, start: nat, goal: Goal, evicted: seq<Eviction>) {
    start < |history| && InTurn(evicted) &&
    (forall k | 0 <= k < |evicted| :: Happened(history, start, goal, evicted[k])) &&
    forall i | start <= i && i + 1 < |history| :: StepFine(history, evicted, i)
  }

  lemma StoryOfOthers(history: seq<Moment>, start: nat, goal: Goal, evicted: seq<Eviction>, next: Moment)
    requires Story(history, start, goal, evicted) && Others(history[|history| - 1], next)
    ensures Story(history + [next], start, goal, evicted)
  {
    var more := history + [next];
    forall k | 0 <= k < |evicted|
      ensures Happened(more, start, goal, evicted[k])
    {
      assert Happened(history, start, goal, evicted[k]);
    }
    forall i | start <= i && i + 1 < |more|
      ensures StepFine(more, evicted, i)
    {
      if i + 1 < |history| {
        assert StepFine(history, evicted, i);
      }
    }
  }

  lemma StoryOfEviction(history: seq<Moment>, start: nat, goal: Goal, evicted: seq<Eviction>, listed: nat, r: Row)
    requires Story(history, start, goal, evicted) && start <= listed < |history| && r in history[listed].rows
    requires MayGo(history[|history| - 1], goal, r) && IsOver(history[|history| - 1], goal)
    requires forall k | 0 <= k < |evicted| :: Past(r, CursorAt(evicted[k].row))
    ensures var last := |history| - 1;
            Story(history + [AfterEviction(history[last], r)], start, goal, evicted + [Eviction(listed, last, r)])
  {
    var last := |history| - 1;
    var more, gone := history + [AfterEviction(history[last], r)], evicted + [Eviction(listed, last, r)];
    forall k | 0 <= k < |gone|
      ensures Happened(more, start, goal, gone[k])
      ensures k < |evicted| ==> gone[k].at < last
    {
      if k < |evicted| {
        assert Happened(history, start, goal, evicted[k]);
      }
    }
    forall i | start <= i && i + 1 < |more|
      ensures StepFine(more, gone, i)
    {
      if i + 1 < |history| {
        assert StepFine(history, evicted, i);
        if !Others(history[i], history[i + 1]) {
          var k :| 0 <= k < |evicted| && IsAt(evicted[k], i);
          assert IsAt(gone[k], i);
        }
      } else {
        assert IsAt(gone[|evicted|], i);
      }
    }
  }

  // ---------------------------------------------------------------- a listed row, later

  /** Whatever bears the id of a row listed when the clock stood at listed is that row as it was, or has
      been written since. */
  ghost predicate SinceListed(m: Moment, c: Row, updated: int, listed: int) {
    updated <= listed <= m.clock &&
    forall r | r in m.rows && r.id == c.id :: StillThat(m, r, c, updated, listed)
  }

  predicate StillThat(m: Moment, r: Row, c: Row, updated: int, listed: int) {
    r.id in m.updated && ((r == c && m.updated[r.id] == updated) || m.updated[r.id] > listed)
  }

  lemma ListedNow(m: Moment, c: Row)
    requires Sound(m) && c in m.rows
    ensures Dated(m, c) && SinceListed(m, c, m.updated[c.id], m.clock)
  {
    forall r | r in m.rows && r.id == c.id
      ensures r == c
    {
      OneRowPerId(m, r, c);
    }
  }

  lemma OneRowPerId(m: Moment, a: Row, b: Row)
    requires Sound(m) && a in m.rows && b in m.rows && a.id == b.id
    ensures a == b
  {
    var i, j :| 0 <= i < |m.rows| && 0 <= j < |m.rows| && m.rows[i] == a && m.rows[j] == b;
    assert i == j;
  }

  lemma ListedLater(a: Moment, b: Moment, c: Row, updated: int, listed: int)
    requires SinceListed(a, c, updated, listed) && Others(a, b)
    ensures SinceListed(b, c, updated, listed)
  {
    forall r | r in b.rows && r.id == c.id
      ensures StillThat(b, r, c, updated, listed)
    {
      assert WrittenOrKept(a, b, r);
      if r in a.rows {
        assert StillThat(a, r, c, updated, listed);
      }
    }
  }

  lemma ListedAfterEviction(m: Moment, r: Row, c: Row, updated: int, listed: int)
    requires SinceListed(m, c, updated, listed)
    ensures SinceListed(AfterEviction(m, r), c, updated, listed)
  {
    forall q | q in AfterEviction(m, r).rows && q.id == c.id
      ensures StillThat(AfterEviction(m, r), q, c, updated, listed)
    {
      assert StillThat(m, q, c, updated, listed);
    }
  }

  lemma SoundWithout(m: Moment, r: Row)
    requires Sound(m)
    ensures Sound(AfterEviction(m, r))
  {
    FilterKeepsOrder(m.rows, Other(r));
    AddKeepsTidy(m.ledger, r.artifact.namespace, Weight(r).Negated());
    forall q | q in AfterEviction(m, r).rows
      ensures Dated(AfterEviction(m, r), q)
    {
      assert Dated(m, q);
    }
  }

  // ---------------------------------------------------------------- the loop

  /** A candidate as the listing gives it. */
  datatype Seen = Seen(row: Row, updated: int)

  /** The candidates were listed at moment m, and hold since. */
  ghost predicate Holds(now: Moment, m: Moment, x: Seen) {
    x.row in m.rows && SinceListed(now, x.row, x.updated, m.clock)
  }

  ghost predicate PageHolds(now: Moment, m: Moment, page: seq<Seen>) {
    forall i | 0 <= i < |page| :: Holds(now, m, page[i])
  }

  predicate PageInOrder(page: seq<Seen>) {
    forall i, j | 0 <= i < j < |page| :: Past(page[j].row, CursorAt(page[i].row))
  }

  predicate Behind(page: seq<Seen>, goal: Goal, cursor: Cursor) {
    forall i | 0 <= i < |page| :: Past(page[i].row, cursor) && InScope(page[i].row.artifact.namespace, goal.scope)
  }

  function RowsOf(evicted: seq<Eviction>): seq<Row> {
    seq(|evicted|, i requires 0 <= i < |evicted| => evicted[i].row)
  }

  /** All evictions lie before the cursor. */
  predicate Passed(evicted: seq<Eviction>, cursor: Cursor) {
    forall k | 0 <= k < |evicted| :: UpTo(evicted[k].row, cursor)
  }

  predicate UpTo(r: Row, cursor: Cursor) {
    cursor.After? && (r.accessed < cursor.accessed || (r.accessed == cursor.accessed && r.id <= cursor.id))
  }

  // ---------------------------------------------------------------- rows nobody touches

  predicate FreeAt(m: Moment, r: Row, since: int) {
    r in m.rows && r.artifact !in m.locked && r.id in m.updated && m.updated[r.id] <= since
  }

  /** The row could have been evicted at any time since the start: it is in scope and not the one to be
      spared, and it has always been there, unlocked and as it was. */
  ghost predicate Free(history: seq<Moment>, start: nat, goal: Goal, r: Row) {
    start < |history| && InScope(r.artifact.namespace, goal.scope) && goal.exclude != Some(r.artifact) &&
    forall k | start <= k < |history| :: FreeAt(history[k], r, history[start].clock)
  }

  ghost predicate NoneFree(history: seq<Moment>, start: nat, goal: Goal) {
    forall r :: !Free(history, start, goal, r)
  }

  /** The free rows are still to come. */
  ghost predicate FreeAhead(history: seq<Moment>, start: nat, goal: Goal, cursor: Cursor) {
    forall r | Free(history, start, goal, r) :: Past(r, cursor)
  }

  /** The free rows are among the candidates from number n on, or come after the page. */
  ghost predicate FreeFrom(history: seq<Moment>, start: nat, goal: Goal, page: seq<Seen>, n: nat) {
    forall r | Free(history, start, goal, r) :: FreeRowFrom(r, page, n)
  }

  predicate FreeRowFrom(r: Row, page: seq<Seen>, n: nat) {
    (exists j | n <= j < |page| :: page[j].row == r) || (page != [] && Past(r, CursorAt(page[|page| - 1].row)))
  }

  lemma FreeSooner(history: seq<Moment>, later: seq<Moment>, start: nat, goal: Goal, r: Row)
    requires history <= later && start < |history| && Free(later, start, goal, r)
    ensures Free(history, start, goal, r)
  {
    forall k | start <= k < |history|
      ensures FreeAt(history[k], r, history[start].clock)
    {
      assert FreeAt(later[k], r, later[start].clock);
    }
  }

  lemma FreeFromLater(history: seq<Moment>, later: seq<Moment>, start: nat, goal: Goal, page: seq<Seen>, n: nat)
    requires history <= later && start < |history| && FreeFrom(history, start, goal, page, n)
    requires n < |page| && !Free(later, start, goal, page[n].row)
    ensures FreeFrom(later, start, goal, page, n + 1)
  {
    forall r | Free(later, start, goal, r)
      ensures FreeRowFrom(r, page, n + 1)
    {
      FreeSooner(history, later, start, goal, r);
      assert FreeRowFrom(r, page, n);
    }
  }

  /** The clock never goes back. */
  lemma {:induction false} ClockGoesOn(history: seq<Moment>, start: nat, goal: Goal, evicted: seq<Eviction>, n: nat)
    requires Story(history, start, goal, evicted) && start <= n < |history|
    ensures history[start].clock <= history[n].clock
    decreases n
  {
    if n > start {
      ClockGoesOn(history, start, goal, evicted, n - 1);
      assert StepFine(history, evicted, n - 1);
      if !Others(history[n - 1], history[n]) {
        var k :| 0 <= k < |evicted| && IsAt(evicted[k], n - 1);
        assert Happened(history, start, goal, evicted[k]);
      }
    }
  }

  /** The listed page holds the free rows up to its end. */
  lemma FreeListed(history: seq<Moment>, later: seq<Moment>, start: nat, goal: Goal, before: Cursor, page: seq<Seen>)
    requires history <= later && start < |history| && FreeAhead(history, start, goal, before)
    requires var m := later[|later| - 1];
             forall r | r in m.rows && InScope(r.artifact.namespace, goal.scope) && Past(r, before) :: FreeRowFrom(r, page, 0)
    ensures FreeFrom(later, start, goal, page, 0)
    ensures page == [] ==> NoneFree(later, start, goal)
  {
    forall r | Free(later, start, goal, r)
      ensures FreeRowFrom(r, page, 0)
    {
      FreeSooner(history, later, start, goal, r);
      assert FreeAt(later[|later| - 1], r, later[start].clock);
    }
  }

  lemma PageDone(history: seq<Moment>, start: nat, goal: Goal, page: seq<Seen>)
    requires page != [] && FreeFrom(history, start, goal, page, |page|)
    ensures FreeAhead(history, start, goal, CursorAt(page[|page| - 1].row))
  {
    forall r | Free(history, start, goal, r)
      ensures Past(r, CursorAt(page[|page| - 1].row))
    {
      assert FreeRowFrom(r, page, |page|);
    }
  }

  class RacingService {
    /** No database call of a reliable service fails. */
    const reliable: bool
    var now: Moment
    var patience: nat
    ghost var history: seq<Moment>

    ghost predicate Valid()
      reads this
    {
      history != [] && history[|history| - 1] == now && Sound(now)
    }

    /** Others do something, or nothing; they leave a key alone whose lock is held here. */
    method OthersAct(held: Option<Artifact>, ghost start: nat, goal: Goal, ghost evicted: seq<Eviction>)
      requires Valid() && Story(history, start, goal, evicted)
      modifies this
      ensures Valid() && Story(history, start, goal, evicted) && old(history) <= history && patience <= old(patience)
      ensures patience == old(patience) ==> now == old(now)
      ensures now == old(now) || Others(old(now), now)
      ensures now.ledger == old(now).ledger
      ensures held.Some? && held.value !in old(now).locked ==> Respects(old(now), now, held.value)
    {
      var next: Moment := *;
      if patience > 0 && Others(now, next) && (held.None? || Respects(now, next, held.value)) {
        StoryOfOthers(history, start, goal, evicted, next);
        now, patience, history := next, patience - 1, history + [next];
      }
    }

    /** The reload of a candidate by its id. */
    method Reload(id: nat) returns (live: Option<Row>)
      ensures live.Some? ==> live.value in now.rows && live.value.id == id
      ensures live.None? ==> forall r | r in now.rows :: r.id != id
    {
      for i := 0 to |now.rows|
        invariant forall j | 0 <= j < i :: now.rows[j].id != id
      {
        if now.rows[i].id == id {
          return Some(now.rows[i]);
        }
      }
      return None;
    }

    /** The next candidates in the order of the query. */
    method List(goal: Goal, cursor: Cursor) returns (page: seq<Seen>)
      requires Valid()
      ensures PageHolds(now, now, page) && PageInOrder(page) && Behind(page, goal, cursor)
      ensures page == [] ==> Candidates(now.rows, goal.scope, cursor) == []
      ensures forall r | r in now.rows && InScope(r.artifact.namespace, goal.scope) && Past(r, cursor) :: FreeRowFrom(r, page, 0)
    {
      var all := Candidates(now.rows, goal.scope, cursor);
      FilterKeepsOrder(now.rows, Candidate(goal.scope, cursor));
      var rows := if |all| > BATCH_SIZE then all[..BATCH_SIZE] else all;
      assert forall i | 0 <= i < |rows| :: rows[i] in all && rows[i] in now.rows && Dated(now, rows[i]);
      var updated := now.updated;
      page := seq(|rows|, i requires 0 <= i < |rows| => Seen(rows[i], updated[rows[i].id]));
      forall i | 0 <= i < |page|
        ensures Holds(now, now, page[i])
      {
        ListedNow(now, rows[i]);
      }
      forall r | r in now.rows && InScope(r.artifact.namespace, goal.scope) && Past(r, cursor)
        ensures FreeRowFrom(r, page, 0)
      {
        assert r in all;
        var i :| 0 <= i < |all| && all[i] == r;
        if i < |page| {
          assert page[i].row == r;
        } else {
          assert page[|page| - 1].row == all[|page| - 1];
        }
      }
    }

    /** One candidate: its key lock is tried for, the row is read again, and it is evicted only if it is
        still the one that was listed. */
    method Consider(x: Seen, goal: Goal, ghost start: nat, ghost evicted: seq<Eviction>, ghost listed: nat, ghost rest: seq<Seen>)
        returns (ok: bool, taken: bool, ghost gone: seq<Eviction>)
      requires Valid() && Story(history, start, goal, evicted) && IsOver(now, goal) && start <= listed < |history|
      requires Holds(now, history[listed], x) && InScope(x.row.artifact.namespace, goal.scope) && PageHolds(now, history[listed], rest)
      requires forall k | 0 <= k < |evicted| :: Past(x.row, CursorAt(evicted[k].row))
      requires start < |history| && history[start].clock <= history[listed].clock
      modifies this
      ensures Valid() && Story(history, start, goal, gone) && old(history) <= history && patience <= old(patience)
      ensures PageHolds(now, old(history)[listed], rest)
      ensures reliable ==> ok
      ensures ok ==> !Free(history, start, goal, x.row)
      ensures if taken then |gone| == |evicted| + 1 && gone[..|evicted|] == evicted && gone[|evicted|].row == x.row && ok
              else gone == evicted
      ensures now.ledger == if taken then AddTo(old(now).ledger, x.row.artifact.namespace, Weight(x.row).Negated()) else old(now).ledger
      ensures patience == old(patience) ==> forall r | r in now.rows :: r in old(now).rows
    {
      ok, taken, gone := true, false, evicted;
      ghost var m := history[listed];
      if goal.exclude == Some(x.row.artifact) {
        return;
      }
      Wait(None, goal, start, evicted, m, x, rest);
      if x.row.artifact in now.locked {
        assert !FreeAt(history[|history| - 1], x.row, history[start].clock);
        return;
      }
      Wait(Some(x.row.artifact), goal, start, evicted, m, x, rest);
      ok := *;
      ok := ok || reliable;
      if !ok {  // the row can not be read again
        return;
      }
      var live := Reload(x.row.id);
      if live.None? || now.updated[live.value.id] > x.updated || live.value.accessed > x.row.accessed {
        NotFreeAnyMore(now, x, live, m.clock, history[start].clock);
        assert !FreeAt(history[|history| - 1], x.row, history[start].clock);
        return;
      }
      assert StillThat(now, live.value, x.row, x.updated, m.clock);
      Wait(Some(x.row.artifact), goal, start, evicted, m, x, rest);
      ok := *;
      ok := ok || reliable;
      if !ok {  // the transaction fails
        return;
      }
      taken := true;
      gone := Evict(x, goal, start, evicted, listed, rest);
      assert !FreeAt(history[|history| - 1], x.row, history[start].clock);
    }

    /** A candidate found changed, or not found, is not free. */
    lemma NotFreeAnyMore(m: Moment, x: Seen, live: Option<Row>, listed: int, since: int)
      requires Sound(m) && SinceListed(m, x.row, x.updated, listed) && since <= listed
      requires live.Some? ==> live.value in m.rows && live.value.id == x.row.id
      requires live.None? ==> forall r | r in m.rows :: r.id != x.row.id
      requires live.None? || m.updated[live.value.id] > x.updated || live.value.accessed > x.row.accessed
      ensures !FreeAt(m, x.row, since)
    {
      if live.Some? && x.row in m.rows {
        OneRowPerId(m, live.value, x.row);
        assert StillThat(m, live.value, x.row, x.updated, listed);
      }
    }

    /** Others act, and what has been listed holds on. */
    method Wait(held: Option<Artifact>, goal: Goal, ghost start: nat, ghost evicted: seq<Eviction>, ghost m: Moment, ghost x: Seen,
                ghost rest: seq<Seen>)
      requires Valid() && Story(history, start, goal, evicted) && Holds(now, m, x) && PageHolds(now, m, rest)
      modifies this
      ensures Valid() && Story(history, start, goal, evicted) && Holds(now, m, x) && PageHolds(now, m, rest)
      ensures old(history) <= history && patience <= old(patience) && now.ledger == old(now).ledger
      ensures patience == old(patience) ==> now == old(now)
      ensures held.Some? && held.value !in old(now).locked ==> Respects(old(now), now, held.value) || now == old(now)
    {
      ghost var before := now;
      OthersAct(held, start, goal, evicted);
      HoldsLater(before, now, m, x, rest);
    }

    method Evict(x: Seen, goal: Goal, ghost start: nat, ghost evicted: seq<Eviction>, ghost listed: nat, ghost rest: seq<Seen>)
        returns (ghost gone: seq<Eviction>)
      requires Valid() && Story(history, start, goal, evicted) && start <= listed < |history|
      requires x.row in history[listed].rows && MayGo(now, goal, x.row) && IsOver(now, goal) && PageHolds(now, history[listed], rest)
      requires forall k | 0 <= k < |evicted| :: Past(x.row, CursorAt(evicted[k].row))
      modifies this
      ensures Valid() && Story(history, start, goal, gone) && old(history) <= history && patience == old(patience)
      ensures now == AfterEviction(old(now), x.row) && PageHolds(now, old(history)[listed], rest)
      ensures |gone| == |evicted| + 1 && gone[..|evicted|] == evicted && gone[|evicted|].row == x.row
    {
      StoryOfEviction(history, start, goal, evicted, listed, x.row);
      SoundWithout(now, x.row);
      HoldsWithout(now, x.row, history[listed], rest);
      gone := evicted + [Eviction(listed, |history| - 1, x.row)];
      now := AfterEviction(now, x.row);
      history := history + [now];
    }

    /** The candidates of one page, one after the other, as long as there is too much. */
    method EvictPage(page: seq<Seen>, goal: Goal, before: Cursor, ghost start: nat, ghost evicted: seq<Eviction>, ghost listed: nat,
                     report: CleanupResult)
        returns (ok: bool, cursor: Cursor, result: CleanupResult, ghost gone: seq<Eviction>)
      requires start <= listed < |history| && InPage(page, history[listed], goal, before, start, evicted, report)
      requires page != [] && PageInOrder(page) && Behind(page, goal, before) && IsOver(now, goal)
      requires FreeFrom(history, start, goal, page, 0)
      modifies this
      ensures ok && IsOver(now, goal) ==> FreeAhead(history, start, goal, cursor)
      ensures reliable ==> ok
      ensures old(history) <= history && patience <= old(patience) && Between(goal, start, gone, cursor, result)
      ensures patience == old(patience) ==> forall r | r in now.rows :: r in old(now).rows
      ensures UpTo(page[0].row, cursor) && forall r: Row | Past(r, cursor) :: Past(r, before)
    {
      ghost var m := history[listed];
      var i;
      ok, i, cursor, result, gone := ConsiderNext(page, 0, goal, before, start, evicted, listed, report);
      while i < |page| && ok && IsOver(now, goal)
        invariant StandsAfter(page, i, cursor)
        invariant InPage(page, m, goal, cursor, start, gone, result) && old(history) <= history
        invariant patience <= old(patience) && (patience == old(patience) ==> forall r | r in now.rows :: r in old(now).rows)
        invariant (ok ==> FreeFrom(history, start, goal, page, i)) && (reliable ==> ok)
      {
        StandsBefore(page, i, cursor);
        ok, i, cursor, result, gone := ConsiderNext(page, i, goal, cursor, start, gone, listed, result);
      }
      CursorMoved(page, i, cursor, goal, before);
      if ok && IsOver(now, goal) {
        PageDone(history, start, goal, page);
      }
    }

    /** Between two candidates of a page that was listed at moment m. */
    ghost predicate InPage(page: seq<Seen>, m: Moment, goal: Goal, cursor: Cursor, start: nat, gone: seq<Eviction>, result: CleanupResult)
      reads this
    {
      Between(goal, start, gone, cursor, result) && PageHolds(now, m, page) && history[start].clock <= m.clock
    }

    method ConsiderNext(page: seq<Seen>, i: nat, goal: Goal, before: Cursor, ghost start: nat, ghost evicted: seq<Eviction>,
                        ghost listed: nat, report: CleanupResult)
        returns (ok: bool, next: nat, cursor: Cursor, result: CleanupResult, ghost gone: seq<Eviction>)
      requires start <= listed < |history| && InPage(page, history[listed], goal, before, start, evicted, report)
      requires i < |page| && Past(page[i].row, before) && InScope(page[i].row.artifact.namespace, goal.scope) && IsOver(now, goal)
      requires FreeFrom(history, start, goal, page, i)
      modifies this
      ensures ok ==> FreeFrom(history, start, goal, page, next)
      ensures reliable ==> ok
      ensures old(history) <= history && patience <= old(patience) && next == i + 1 && StandsAfter(page, next, cursor)
      ensures InPage(page, old(history)[listed], goal, cursor, start, gone, result)
      ensures patience == old(patience) ==> forall r | r in now.rows :: r in old(now).rows
    {
      assert Holds(now, history[listed], page[i]);
      TurnOf(page[i].row, before, evicted);
      ghost var first := history[start].ledger;
      var taken;
      result, next, cursor := report, i + 1, CursorAt(page[i].row);
      ok, taken, gone := Consider(page[i], goal, start, evicted, listed, page);
      PassedOneMore(evicted, gone, page[i].row, before, taken);
      if ok {
        FreeFromLater(old(history), history, start, goal, page, i);
      }
      if taken {
        TellsOneMore(first, report, evicted, gone, page[i].row);
        result := Reporting(report, page[i].row);
      }
    }

    /** The eviction loop while others work on the table.  It comes to an end once they stop changing it.
        Every step since the start is one of others or one of the evictions; every eviction is of a row
        that was listed before, that is unchanged when it goes, whose lock nobody else has, that is in
        scope and not the one to be spared, and at a time when there was too much; the evictions go on in
        the order of the query; and the report is what the ledger has dropped by.  It is done exactly if
        the usage then fits, and otherwise the last listing had nothing more to offer and every row that
        could have been evicted at any time since the start is gone. */
    method CleanupAmid(goal: Goal) returns (result: CleanupResult, outcome: Outcome, cursor: Cursor, ghost evicted: seq<Eviction>)
      requires Valid()
      modifies this
      ensures Valid() && old(history) <= history && Story(history, |old(history)| - 1, goal, evicted)
      ensures Tells(old(now).ledger, now.ledger, result, evicted) && Passed(evicted, cursor)
      ensures goal.target.bytes < 0 || goal.target.entries < 0 ==>
                outcome.InsufficientStorage? && evicted == [] && now == old(now)
      ensures goal.target.bytes >= 0 && goal.target.entries >= 0 && !outcome.DatabaseError? ==>
                var left := Reading(now.ledger, goal.scope);
                (outcome.Done? <==> left.bytes <= goal.target.bytes && left.entries <= goal.target.entries)
      ensures goal.target.bytes >= 0 && goal.target.entries >= 0 && outcome.InsufficientStorage? ==>
                Candidates(now.rows, goal.scope, cursor) == [] && NoneFree(history, |old(history)| - 1, goal)
      ensures reliable ==> !outcome.DatabaseError?
      ensures !outcome.DatabaseError? ==> result.sizeBytes == now.ledger.total.bytes && result.entries == now.ledger.total.entries
    {
      ghost var start := |history| - 1;
      result, evicted, cursor := CleanupResult(now.ledger.total.bytes, now.ledger.total.entries, 0, 0, []), [], Start;
      if goal.target.bytes < 0 || goal.target.entries < 0 {
        return result, InsufficientStorage, cursor, evicted;
      }
      var ok, more := true, true;
      while more && IsOver(now, goal)
        invariant old(history) <= history && start < |history| && Between(goal, start, evicted, cursor, result)
        invariant ok && (!more ==> Candidates(now.rows, goal.scope, cursor) == [] && NoneFree(history, start, goal))
        invariant IsOver(now, goal) ==> FreeAhead(history, start, goal, cursor)
        decreases more, patience, Ahead(now.rows, cursor)
      {
        ok, more, cursor, result, evicted := NextPage(goal, cursor, start, evicted, result);
        if !ok {
          return result, DatabaseError, cursor, evicted;
        }
      }
      result := result.(sizeBytes := now.ledger.total.bytes, entries := now.ledger.total.entries);
      outcome := if IsOver(now, goal) then InsufficientStorage else Done;
    }

    /** Between two pages. */
    ghost predicate Between(goal: Goal, start: nat, evicted: seq<Eviction>, cursor: Cursor, result: CleanupResult)
      reads this
    {
      Valid() && start < |history| && Story(history, start, goal, evicted) && Passed(evicted, cursor) &&
      Tells(history[start].ledger, now.ledger, result, evicted)
    }

    /** The next page; there is no more if it is empty. */
    method NextPage(goal: Goal, before: Cursor, ghost start: nat, ghost known: seq<Eviction>, report: CleanupResult)
        returns (ok: bool, more: bool, cursor: Cursor, result: CleanupResult, ghost evicted: seq<Eviction>)
      requires Between(goal, start, known, before, report) && IsOver(now, goal) && FreeAhead(history, start, goal, before)
      modifies this
      ensures ok && IsOver(now, goal) ==> FreeAhead(history, start, goal, cursor)
      ensures reliable ==> ok
      ensures old(history) <= history && Between(goal, start, evicted, cursor, result)
      ensures !more && ok ==> Candidates(now.rows, goal.scope, cursor) == [] && NoneFree(history, start, goal)
      ensures more && ok ==>
                patience < old(patience) || (patience == old(patience) && Ahead(now.rows, cursor) < Ahead(old(now).rows, before))
    {
      more, cursor, result, evicted := true, before, report, known;
      ok := *;
      ok := ok || reliable;
      if !ok {  // the page can not be listed
        return;
      }
      OthersAct(None, start, goal, known);
      var page := List(goal, before);
      FreeListed(old(history), history, start, goal, before, page);
      ClockGoesOn(history, start, goal, known, |history| - 1);
      if page == [] {
        more := false;
        return;
      }
      ghost var m := now;
      assert Holds(m, m, page[0]);
      ok, cursor, result, evicted := EvictPage(page, goal, before, start, known, |history| - 1, report);
      if patience == old(patience) {
        LessAhead(old(now).rows, now.rows, before, cursor, page[0].row);
      }
    }
  }

  /** The cursor is that of the last of the first n candidates. */
  predicate StandsAfter(page: seq<Seen>, n: nat, cursor: Cursor) {
    0 < n <= |page| && cursor == CursorAt(page[n - 1].row)
  }

  lemma StandsBefore(page: seq<Seen>, n: nat, cursor: Cursor)
    requires StandsAfter(page, n, cursor) && PageInOrder(page) && n < |page|
    ensures Past(page[n].row, cursor)
  {
  }

  lemma CursorMoved(page: seq<Seen>, n: nat, cursor: Cursor, goal: Goal, before: Cursor)
    requires StandsAfter(page, n, cursor) && PageInOrder(page) && Behind(page, goal, before)
    ensures UpTo(page[0].row, cursor) && forall r: Row | Past(r, cursor) :: Past(r, before)
  {
  }

  lemma LessAhead(rows: seq<Row>, left: seq<Row>, before: Cursor, cursor: Cursor, first: Row)
    requires (forall r | r in left :: r in rows) && first in rows && Past(first, before) && UpTo(first, cursor)
    requires forall r: Row | Past(r, cursor) :: Past(r, before)
    ensures Ahead(left, cursor) < Ahead(rows, before)
  {
    assert first in Ahead(rows, before) && first !in Ahead(left, cursor);
  }

  /** The rows behind a cursor. */
  function Ahead(rows: seq<Row>, cursor: Cursor): set<Row> {
    set r | r in rows && Past(r, cursor)
  }

  /** The report and the ledger agree with what has been evicted. */
  ghost predicate Tells(start: Ledger, now: Ledger, result: CleanupResult, evicted: seq<Eviction>) {
    now == Released(start, RowsOf(evicted)) && Reports(result, RowsOf(evicted))
  }

  lemma TellsOneMore(start: Ledger, result: CleanupResult, evicted: seq<Eviction>, gone: seq<Eviction>, r: Row)
    requires Reports(result, RowsOf(evicted))
    requires |gone| == |evicted| + 1 && gone[..|evicted|] == evicted && gone[|evicted|].row == r
    ensures Reports(Reporting(result, r), RowsOf(gone))
    ensures Released(start, RowsOf(gone)) == AddTo(Released(start, RowsOf(evicted)), r.artifact.namespace, Weight(r).Negated())
  {
    assert RowsOf(gone) == RowsOf(evicted) + [r];
    ReportOneMore(result, RowsOf(evicted), r);
    ReleasedAppend(start, RowsOf(evicted), r);
  }

  lemma TurnOf(r: Row, before: Cursor, evicted: seq<Eviction>)
    requires Past(r, before) && Passed(evicted, before)
    ensures forall k | 0 <= k < |evicted| :: Past(r, CursorAt(evicted[k].row))
  {
    forall k | 0 <= k < |evicted|
      ensures Past(r, CursorAt(evicted[k].row))
    {
      assert UpTo(evicted[k].row, before);
    }
  }

  lemma PassedOneMore(evicted: seq<Eviction>, gone: seq<Eviction>, r: Row, before: Cursor, taken: bool)
    requires Past(r, before) && Passed(evicted, before)
    requires if taken then |gone| == |evicted| + 1 && gone[..|evicted|] == evicted && gone[|evicted|].row == r else gone == evicted
    ensures Passed(gone, CursorAt(r))
  {
    forall k | 0 <= k < |gone|
      ensures UpTo(gone[k].row, CursorAt(r))
    {
      if k < |evicted| {
        assert gone[k] == gone[..|evicted|][k] && UpTo(evicted[k].row, before);
      }
    }
  }

  lemma HoldsLater(a: Moment, b: Moment, m: Moment, x: Seen, rest: seq<Seen>)
    requires Holds(a, m, x) && PageHolds(a, m, rest) && (b == a || Others(a, b))
    ensures Holds(b, m, x) && PageHolds(b, m, rest)
  {
    if b != a {
      ListedLater(a, b, x.row, x.updated, m.clock);
      forall i | 0 <= i < |rest|
        ensures Holds(b, m, rest[i])
      {
        assert Holds(a, m, rest[i]);
        ListedLater(a, b, rest[i].row, rest[i].updated, m.clock);
      }
    }
  }

  lemma HoldsWithout(now: Moment, r: Row, m: Moment, rest: seq<Seen>)
    requires PageHolds(now, m, rest)
    ensures PageHolds(AfterEviction(now, r), m, rest)
  {
    forall i | 0 <= i < |rest|
      ensures Holds(AfterEviction(now, r), m, rest[i])
    {
      assert Holds(now, m, rest[i]);
      ListedAfterEviction(now, r, rest[i].row, rest[i].updated, m.clock);
    }
  }
}

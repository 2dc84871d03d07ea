/** Paginated least-recently-used eviction in the compiler cache and the operations that rest on it
    (internal/compilecache/service.go: cleanupToLocked, reserveCapacity, EnforceLimits).

    The table of entries is kept in the order of its eviction query, by last access and then by id.
    Nobody else changes the table during a run, and the rows that others have locked are given as a set
    of ids; EvictionRaces has the same loop amid changes.  A database call may fail, unless the service
    is given as reliable; a failed transaction has no effect. */
module CompileEviction {
  import opened Wrappers
  import opened CompileLedger

  const BATCH_SIZE := 256

  datatype Artifact = Artifact(protocol: string, namespace: string, key: string)

  datatype Row = Row(id: nat, artifact: Artifact, accessed: int, size: nat, path: string)

  datatype Cursor = Start | After(accessed: int, id: nat)

  datatype Outcome = Done | InsufficientStorage | DatabaseError

  datatype CleanupResult = CleanupResult(sizeBytes: int, entries: int, removedEntries: nat, reclaimedBytes: int, deletionPaths: seq<string>)

  // ---------------------------------------------------------------- the table and its query

  predicate Past(r: Row, cursor: Cursor) {
    cursor.Start? || r.accessed > cursor.accessed || (r.accessed == cursor.accessed && r.id > cursor.id)
  }

  function CursorAt(r: Row): Cursor {
    After(r.accessed, r.id)
  }

  /** A table in query order, with unique ids. */
  predicate InOrder(rows: seq<Row>) {
    forall i, j | 0 <= i < j < |rows| :: Past(rows[j], CursorAt(rows[i])) && rows[i].id != rows[j].id
  }

  function Filter(rows: seq<Row>, keep: Row -> bool): (kept: seq<Row>)
    ensures |kept| <= |rows|
    ensures forall r :: r in kept <==> r in rows && keep(r)
  {
    if rows == [] then []
    else if keep(rows[0]) then [rows[0]] + Filter(rows[1..], keep)
    else Filter(rows[1..], keep)
  }

  function Candidate(scope: Scope, cursor: Cursor): Row -> bool {
    (r: Row) => InScope(r.artifact.namespace, scope) && Past(r, cursor)
  }

  /** The eviction query, before its limit is applied. */
  function Candidates(rows: seq<Row>, scope: Scope, cursor: Cursor): seq<Row> {
    Filter(rows, Candidate(scope, cursor))
  }

  lemma {:induction false} FilterAgrees(rows: seq<Row>, p: Row -> bool, q: Row -> bool)
    requires forall r | r in rows :: p(r) == q(r)
    ensures Filter(rows, p) == Filter(rows, q)
  {
    if rows != [] {
      FilterAgrees(rows[1..], p, q);
    }
  }

  lemma {:induction false} FilterAll(rows: seq<Row>, p: Row -> bool)
    requires forall r | r in rows :: p(r)
    ensures Filter(rows, p) == rows
  {
    if rows != [] {
      FilterAll(rows[1..], p);
    }
  }

  lemma {:induction false} FilterTwice(rows: seq<Row>, p: Row -> bool, q: Row -> bool)
    ensures Filter(Filter(rows, p), q) == Filter(rows, (r: Row) => p(r) && q(r))
  {
    if rows != [] {
      FilterTwice(rows[1..], p, q);
      var tail := Filter(rows[1..], p);
      if p(rows[0]) {
        assert ([rows[0]] + tail)[1..] == tail;
      }
    }
  }

  lemma {:induction false} FilterKeepsOrder(rows: seq<Row>, p: Row -> bool)
    requires InOrder(rows)
    ensures InOrder(Filter(rows, p))
  {
    if rows != [] {
      FilterKeepsOrder(rows[1..], p);
      var tail := Filter(rows[1..], p);
      forall r | r in tail
        ensures Past(r, CursorAt(rows[0])) && r.id != rows[0].id
      {
        assert r in rows[1..];
      }
    }
  }

  /** Moving the cursor to the first candidate leaves the other candidates, whether or not that
      candidate is deleted. */
  lemma CursorAdvances(rows: seq<Row>, scope: Scope, cursor: Cursor)
    requires InOrder(rows) && Candidates(rows, scope, cursor) != []
    ensures var all := Candidates(rows, scope, cursor);
            Candidates(rows, scope, CursorAt(all[0])) == all[1..] &&
            Candidates(Filter(rows, Other(all[0])), scope, CursorAt(all[0])) == all[1..]
  {
    var all := Candidates(rows, scope, cursor);
    var first, now, next := all[0], Candidate(scope, cursor), Candidate(scope, CursorAt(all[0]));
    FilterKeepsOrder(rows, now);
    FilterTwice(rows, now, next);
    assert now(first) by { assert first in all; }
    FilterAgrees(rows, next, (r: Row) => now(r) && next(r));
    FilterAll(all[1..], next) by {
      forall r | r in all[1..]
        ensures next(r)
      {
        assert r in all && now(r);
      }
    }
    FilterTwice(rows, Other(first), next);
    forall r | r in rows
      ensures next(r) ==> r.id != first.id
    {
      assert first in rows;
    }
    FilterAgrees(rows, next, (r: Row) => Other(first)(r) && next(r));
  }

  function Other(row: Row): Row -> bool {
    (r: Row) => r.id != row.id
  }

  // ---------------------------------------------------------------- sort and drop

  /** What eviction must leave alone: the artifact it makes room for and the rows in use. */
  predicate Spared(r: Row, exclude: Option<Artifact>, busy: set<nat>) {
    exclude == Some(r.artifact) || r.id in busy
  }

  function Weight(r: Row): Usage {
    Usage(r.size, 1)
  }

  function Sum(rows: seq<Row>): Usage {
    if rows == [] then ZERO else Weight(rows[0]).Plus(Sum(rows[1..]))
  }

  /** Candidates in order, each evicted unless spared, until the usage fits. */
  function Victims(all: seq<Row>, exclude: Option<Artifact>, busy: set<nat>, usage: Usage, target: Usage): seq<Row> {
    if all == [] || usage.Within(target) then []
    else if Spared(all[0], exclude, busy) then Victims(all[1..], exclude, busy, usage, target)
    else [all[0]] + Victims(all[1..], exclude, busy, usage.Plus(Weight(all[0]).Negated()), target)
  }

  /** The usage that is left once these rows are gone. */
  function Left(usage: Usage, rows: seq<Row>): Usage
    decreases |rows|
  {
    if rows == [] then usage else Left(usage.Plus(Weight(rows[0]).Negated()), rows[1..])
  }

  lemma {:induction false} LeftIsTheRest(usage: Usage, rows: seq<Row>)
    ensures usage == Left(usage, rows).Plus(Sum(rows))
    decreases |rows|
  {
    if rows != [] {
      LeftIsTheRest(usage.Plus(Weight(rows[0]).Negated()), rows[1..]);
    }
  }

  /** The victims are the shortest prefix of the candidates that may be evicted, least recently used
      first, that brings the usage to the target; all of them when no prefix does. */
  lemma {:induction false} VictimsAreTheShortestPrefix(
      all: seq<Row>, exclude: Option<Artifact>, busy: set<nat>, usage: Usage, target: Usage)
    ensures var evictable := Filter(all, (r: Row) => !Spared(r, exclude, busy));
            var victims := Victims(all, exclude, busy, usage, target);
            victims <= evictable &&
            (forall k | 0 <= k < |victims| :: !Left(usage, victims[..k]).Within(target)) &&
            (|victims| < |evictable| ==> Left(usage, victims).Within(target))
  {
    if all == [] || usage.Within(target) {
      assert Victims(all, exclude, busy, usage, target) == [];
    } else if Spared(all[0], exclude, busy) {
      VictimsAreTheShortestPrefix(all[1..], exclude, busy, usage, target);
    } else {
      var after := usage.Plus(Weight(all[0]).Negated());
      VictimsAreTheShortestPrefix(all[1..], exclude, busy, after, target);
      var tail := Victims(all[1..], exclude, busy, after, target);
      var victims := [all[0]] + tail;
      assert victims[1..] == tail;
      forall k | 0 <= k < |victims|
        ensures !Left(usage, victims[..k]).Within(target)
      {
        if k > 0 {
          assert victims[..k][1..] == tail[..k - 1];
        }
      }
    }
  }

  lemma {:induction false} SumAppend(rows: seq<Row>, r: Row)
    ensures Sum(rows + [r]) == Sum(rows).Plus(Weight(r))
  {
    if rows != [] {
      assert (rows + [r])[1..] == rows[1..] + [r];
      SumAppend(rows[1..], r);
    } else {
      assert (rows + [r])[1..] == [];
    }
  }

  // ---------------------------------------------------------------- the ledger after evictions

  /** The ledger once the capacity of these rows has been given back. */
  function Released(l: Ledger, rows: seq<Row>): Ledger {
    if rows == [] then l
    else
      var last := rows[|rows| - 1];
      AddTo(Released(l, rows[..|rows| - 1]), last.artifact.namespace, Weight(last).Negated())
  }

  lemma ReleasedAppend(l: Ledger, rows: seq<Row>, r: Row)
    ensures Released(l, rows + [r]) == AddTo(Released(l, rows), r.artifact.namespace, Weight(r).Negated())
  {
    assert (rows + [r])[..|rows + [r]| - 1] == rows;
  }

  lemma SplitLast(rows: seq<Row>)
    requires rows != []
    ensures rows == rows[..|rows| - 1] + [rows[|rows| - 1]]
  {
  }

  lemma PlusZero(a: Usage)
    ensures a.Plus(ZERO) == a && ZERO.Plus(a) == a && a.Plus(ZERO.Negated()) == a
  {
  }

  /** Every reading drops by the rows in its scope, and by nothing else. */
  lemma {:induction false} ReadingAfterRelease(l: Ledger, rows: seq<Row>, scope: Scope)
    ensures Reading(l, scope) == Reading(Released(l, rows), scope).Plus(Sum(Filter(rows, Candidate(scope, Start))))
    decreases |rows|
  {
    if rows != [] {
      var front, last := rows[..|rows| - 1], rows[|rows| - 1];
      var kept := Filter(front, Candidate(scope, Start));
      ReadingAfterRelease(l, front, scope);
      ReadingAfterAdd(Released(l, front), last.artifact.namespace, Weight(last).Negated(), scope);
      FilterLast(rows, scope);
      if InScope(last.artifact.namespace, scope) {
        SumAppend(kept, last);
        TakeAway(Reading(l, scope), Reading(Released(l, front), scope), Sum(kept), Weight(last));
      } else {
        PlusZero(Reading(Released(l, front), scope));
      }
    }
  }

  lemma TakeAway(all: Usage, left: Usage, taken: Usage, more: Usage)
    requires all == left.Plus(taken)
    ensures all == left.Plus(more.Negated()).Plus(taken.Plus(more))
  {
  }

  lemma FilterLast(rows: seq<Row>, scope: Scope)
    requires rows != []
    ensures var front, last := rows[..|rows| - 1], rows[|rows| - 1];
            Filter(rows, Candidate(scope, Start))
              == (if InScope(last.artifact.namespace, scope) then Filter(front, Candidate(scope, Start)) + [last]
                  else Filter(front, Candidate(scope, Start)))
  {
    var front, last := rows[..|rows| - 1], rows[|rows| - 1];
    FilterAppend(front, last, Candidate(scope, Start));
    SplitLast(rows);
  }

  lemma {:induction false} FilterAppend(rows: seq<Row>, r: Row, p: Row -> bool)
    ensures Filter(rows + [r], p) == Filter(rows, p) + (if p(r) then [r] else [])
  {
    if rows == [] {
      assert [r][1..] == [];
    } else {
      assert (rows + [r])[1..] == rows[1..] + [r];
      FilterAppend(rows[1..], r, p);
    }
  }

  lemma {:induction false} ReleaseKeepsTidy(l: Ledger, rows: seq<Row>)
    requires Tidy(l)
    ensures Tidy(Released(l, rows))
    decreases |rows|
  {
    if rows != [] {
      var front, last := rows[..|rows| - 1], rows[|rows| - 1];
      ReleaseKeepsTidy(l, front);
      AddKeepsTidy(Released(l, front), last.artifact.namespace, Weight(last).Negated());
    }
  }

  // ---------------------------------------------------------------- the service

  predicate AllIn(rows: seq<Row>, scope: Scope) {
    forall r | r in rows :: InScope(r.artifact.namespace, scope)
  }

  /** The ids of these rows are gone from the table, and nothing else is. */
  predicate Without(before: seq<Row>, after: seq<Row>, removed: seq<Row>) {
    after == Filter(before, Remaining(removed))
  }

  function Remaining(removed: seq<Row>): Row -> bool {
    (r: Row) => forall x | x in removed :: r.id != x.id
  }

  function Paths(rows: seq<Row>): seq<string> {
    seq(|rows|, i requires 0 <= i < |rows| => rows[i].path)
  }

  lemma EvictedReading(l: Ledger, row: Row, scope: Scope)
    requires InScope(row.artifact.namespace, scope)
    ensures Reading(AddTo(l, row.artifact.namespace, Weight(row).Negated()), scope)
         == Reading(l, scope).Plus(Weight(row).Negated())
  {
    ReadingAfterAdd(l, row.artifact.namespace, Weight(row).Negated(), scope);
  }

  lemma ProgressOfOutbox(outbox: set<string>, removed: seq<Row>, row: Row)
    ensures outbox + (set r | r in removed :: r.path) + {row.path} == outbox + (set r | r in removed + [row] :: r.path)
  {
    var after := set r | r in removed + [row] :: r.path;
    assert row in removed + [row];
    assert forall r | r in removed :: r in removed + [row];
    assert row.path in after;
  }

  lemma OneMoreRemoved(before: seq<Row>, after: seq<Row>, removed: seq<Row>, row: Row)
    requires Without(before, after, removed)
    ensures Without(before, Filter(after, Other(row)), removed + [row])
  {
    FilterTwice(before, Remaining(removed), Other(row));
    FilterAgrees(before, (r: Row) => Remaining(removed)(r) && Other(row)(r), Remaining(removed + [row]));
  }

  /** After releasing rows of a scope, its reading has dropped by their sum. */
  lemma ScopeReadingAfterRelease(l: Ledger, rows: seq<Row>, scope: Scope)
    requires AllIn(rows, scope)
    ensures Reading(l, scope) == Reading(Released(l, rows), scope).Plus(Sum(rows))
  {
    ReadingAfterRelease(l, rows, scope);
    FilterAll(rows, Candidate(scope, Start));
  }

  /** What eviction changes. */
  datatype Tables = Tables(rows: seq<Row>, outbox: set<string>, ledger: Ledger)

  /** What an eviction run is asked to do. */
  datatype Order = Order(target: Usage, scope: Scope, exclude: Option<Artifact>, busy: set<nat>)

  function VictimsOf(all: seq<Row>, order: Order, usage: Usage): seq<Row> {
    Victims(all, order.exclude, order.busy, usage, order.target)
  }

  /** A run in progress: the tables are in order, and while the usage is over the target the cursor
      stands before the candidates not yet dealt with. */
  ghost predicate Standing(start: Tables, now: Tables, order: Order, all: seq<Row>, n: nat, removed: seq<Row>, cursor: Cursor) {
    ValidTables(now) && Progress(start, now, order, all, n, removed) &&
    (Exceeds(now, order) ==> CursorBefore(now, order, cursor, all[n..]))
  }

  predicate Exceeds(t: Tables, order: Order) {
    !Reading(t.ledger, order.scope).Within(order.target)
  }

  /** The outcome of a run: it evicts exactly the victims, unless a database error cuts it short, and
      it is done exactly if the usage then fits. */
  predicate Evicted(start: Tables, now: Tables, order: Order, removed: seq<Row>, outcome: Outcome) {
    if !ZERO.Within(order.target) then removed == [] && outcome == InsufficientStorage
    else
      var victims := VictimsOf(Candidates(start.rows, order.scope, Start), order, Reading(start.ledger, order.scope));
      removed <= victims &&
      (!outcome.DatabaseError? ==> removed == victims && (outcome.Done? <==> !Exceeds(now, order)))
  }

  /** A run that stops with candidates left and the usage too high has been cut short. */
  lemma RunEnds(start: Tables, now: Tables, order: Order, all: seq<Row>, n: nat, removed: seq<Row>, cursor: Cursor, outcome: Outcome)
    requires all == Candidates(start.rows, order.scope, Start) && ZERO.Within(order.target)
    requires Standing(start, now, order, all, n, removed, cursor)
    requires outcome.DatabaseError? ||
             ((!Exceeds(now, order) || all[n..] == []) && (outcome.Done? <==> !Exceeds(now, order)))
    ensures Evicted(start, now, order, removed, outcome)
  {
  }

  /** Removing these rows, in this order, leads from one state of the tables to the other. */
  predicate Leads(start: Tables, now: Tables, removed: seq<Row>) {
    Without(start.rows, now.rows, removed) && now.ledger == Released(start.ledger, removed) &&
    now.outbox == start.outbox + (set r | r in removed :: r.path)
  }

  /** The first n candidates are dealt with: what is evicted so far and what is yet to be evicted
      are together the victims. */
  predicate Progress(start: Tables, now: Tables, order: Order, all: seq<Row>, n: nat, removed: seq<Row>) {
    n <= |all| && Leads(start, now, removed) &&
    removed + VictimsOf(all[n..], order, Reading(now.ledger, order.scope))
      == VictimsOf(all, order, Reading(start.ledger, order.scope))
  }

  /** The cursor stands right before the candidates not yet dealt with. */
  predicate CursorBefore(now: Tables, order: Order, cursor: Cursor, left: seq<Row>) {
    Candidates(now.rows, order.scope, cursor) == left
  }

  ghost predicate ValidTables(t: Tables) {
    InOrder(t.rows) && Tidy(t.ledger)
  }

  function Deleted(t: Tables, row: Row): Tables {
    Tables(Filter(t.rows, Other(row)), t.outbox + {row.path},
           AddTo(t.ledger, row.artifact.namespace, Weight(row).Negated()))
  }

  predicate Reports(result: CleanupResult, removed: seq<Row>) {
    result.removedEntries == |removed| && result.reclaimedBytes == Bytes(removed) &&
    result.deletionPaths == Paths(removed)
  }

  /** What a run reports is what the usage in its scope has dropped by. */
  lemma ReportIsTheDrop(start: Tables, now: Tables, result: CleanupResult, removed: seq<Row>, scope: Scope)
    requires Leads(start, now, removed) && Reports(result, removed) && AllIn(removed, scope)
    ensures Reading(start.ledger, scope)
         == Reading(now.ledger, scope).Plus(Usage(result.reclaimedBytes, result.removedEntries))
  {
    ScopeReadingAfterRelease(start.ledger, removed, scope);
    SumOfWeights(removed);
  }

  lemma {:induction false} SumOfWeights(rows: seq<Row>)
    ensures Sum(rows) == Usage(Bytes(rows), |rows|)
  {
    if rows != [] {
      SumOfWeights(rows[1..]);
    }
  }

  lemma NothingRemoved(t: Tables)
    ensures Leads(t, t, []) && Reports(CleanupResult(t.ledger.total.bytes, t.ledger.total.entries, 0, 0, []), [])
  {
    FilterAll(t.rows, Remaining([]));
  }

  lemma OneMoreLeads(start: Tables, now: Tables, removed: seq<Row>, row: Row)
    requires Leads(start, now, removed)
    ensures Leads(start, Deleted(now, row), removed + [row])
  {
    OneMoreRemoved(start.rows, now.rows, removed, row);
    ReleasedAppend(start.ledger, removed, row);
    ProgressOfOutbox(start.outbox, removed, row);
  }

  function Reporting(result: CleanupResult, row: Row): CleanupResult {
    result.(removedEntries := result.removedEntries + 1, reclaimedBytes := result.reclaimedBytes + row.size,
            deletionPaths := result.deletionPaths + [row.path])
  }

  predicate SameTotals(a: CleanupResult, b: CleanupResult) {
    a.sizeBytes == b.sizeBytes && a.entries == b.entries
  }

  lemma ReportOneMore(result: CleanupResult, removed: seq<Row>, row: Row)
    requires Reports(result, removed)
    ensures Reports(Reporting(result, row), removed + [row])
  {
    SumAppend(removed, row);
  }

  /** Passing over a spared candidate makes progress. */
  lemma ProgressBySparing(start: Tables, now: Tables, order: Order, all: seq<Row>, n: nat, removed: seq<Row>, cursor: Cursor)
    requires ValidTables(now) && Progress(start, now, order, all, n, removed) && n < |all|
    requires !Reading(now.ledger, order.scope).Within(order.target) && Spared(all[n], order.exclude, order.busy)
    requires CursorBefore(now, order, cursor, all[n..])
    ensures Progress(start, now, order, all, n + 1, removed) && CursorBefore(now, order, CursorAt(all[n]), all[n + 1..])
  {
    CursorAdvances(now.rows, order.scope, cursor);
    assert all[n..][1..] == all[n + 1..];
  }

  /** So does evicting one that is not. */
  lemma ProgressByEviction(start: Tables, now: Tables, order: Order, all: seq<Row>, n: nat, removed: seq<Row>, cursor: Cursor)
    requires ValidTables(now) && Progress(start, now, order, all, n, removed) && n < |all|
    requires !Reading(now.ledger, order.scope).Within(order.target) && !Spared(all[n], order.exclude, order.busy)
    requires CursorBefore(now, order, cursor, all[n..])
    ensures var later := Deleted(now, all[n]);
            ValidTables(later) && Progress(start, later, order, all, n + 1, removed + [all[n]]) &&
            CursorBefore(later, order, CursorAt(all[n]), all[n + 1..])
  {
    var row := all[n];
    CursorAdvances(now.rows, order.scope, cursor);
    EvictedReading(now.ledger, row, order.scope) by {
      assert row in Candidates(now.rows, order.scope, cursor);
    }
    FilterKeepsOrder(now.rows, Other(row));
    AddKeepsTidy(now.ledger, row.artifact.namespace, Weight(row).Negated());
    OneMoreLeads(start, now, removed, row);
    NextVictim(all, n, removed, order, Reading(now.ledger, order.scope));
  }

  lemma NextVictim(all: seq<Row>, n: nat, removed: seq<Row>, order: Order, usage: Usage)
    requires n < |all| && !usage.Within(order.target) && !Spared(all[n], order.exclude, order.busy)
    ensures all[n..][1..] == all[n + 1..]
    ensures removed + VictimsOf(all[n..], order, usage)
         == removed + [all[n]] + VictimsOf(all[n + 1..], order, usage.Plus(Weight(all[n]).Negated()))
  {
    assert all[n..][1..] == all[n + 1..];
  }

  /** A run that ends with the usage still too high has left nothing in its scope that it may evict. */
  lemma OnlySparedAreLeft(start: Tables, now: Tables, order: Order, removed: seq<Row>)
    requires Leads(start, now, removed) && Exceeds(now, order)
    requires removed == VictimsOf(Candidates(start.rows, order.scope, Start), order, Reading(start.ledger, order.scope))
    ensures forall r | r in now.rows && InScope(r.artifact.namespace, order.scope) :: Spared(r, order.exclude, order.busy)
  {
    var all, usage := Candidates(start.rows, order.scope, Start), Reading(start.ledger, order.scope);
    var evictable := Filter(all, (r: Row) => !Spared(r, order.exclude, order.busy));
    VictimsAreTheShortestPrefix(all, order.exclude, order.busy, usage, order.target);
    assert forall r | r in removed :: r in evictable && r in all;
    LeftIsTheRest(usage, removed);
    ScopeReadingAfterRelease(start.ledger, removed, order.scope);
    assert Left(usage, removed) == Reading(now.ledger, order.scope);
    assert removed == evictable;
    forall r | r in now.rows && InScope(r.artifact.namespace, order.scope)
      ensures Spared(r, order.exclude, order.busy)
    {
      assert r in start.rows && r in all && Remaining(removed)(r);
    }
  }

  function Min(a: int, b: int): int {
    if a < b then a else b
  }

  /** There is no room for the amount beside what there is: a namespace has its own limit and that of the
      whole cache. */
  predicate OverIn(l: Ledger, scope: Scope, limits: Limits, amount: Usage) {
    var u := Reading(l, scope);
    match scope
    case Everything => u.bytes + amount.bytes > limits.max.bytes || u.entries + amount.entries > limits.max.entries
    case Only(_) =>
      u.bytes + amount.bytes > Min(limits.namespaceMax.bytes, limits.max.bytes) ||
      u.entries + amount.entries > Min(limits.namespaceMax.entries, limits.max.entries)
  }

  /** Each of these rows went while there was too much in its namespace, or in all. */
  predicate GoneForRoom(l: Ledger, removed: seq<Row>, limits: Limits, amount: Usage) {
    forall k | 0 <= k < |removed| :: GoneForRoomAt(l, removed, limits, amount, k)
  }

  predicate GoneForRoomAt(l: Ledger, removed: seq<Row>, limits: Limits, amount: Usage, k: nat)
    requires k < |removed|
  {
    OverIn(Released(l, removed[..k]), Only(removed[k].artifact.namespace), limits, amount) ||
    OverIn(Released(l, removed[..k]), Everything, limits, amount)
  }

  /** The target of a run that is to make room for an amount in a scope. */
  function TargetFor(limits: Limits, scope: Scope, amount: Usage): Usage {
    limits.For(scope).Plus(amount.Negated())
  }

  lemma TargetMeansOver(l: Ledger, limits: Limits, scope: Scope, amount: Usage)
    ensures Reading(l, scope).Within(TargetFor(limits, scope, amount)) <==> !OverIn(l, scope, limits, amount)
  {
  }

  lemma LimitIsNotNegative(limits: Limits, scope: Scope)
    requires limits.max.bytes >= 0 && limits.max.entries >= 0 && limits.namespaceMax.bytes >= 0 && limits.namespaceMax.entries >= 0
    ensures limits.For(scope).bytes >= 0 && limits.For(scope).entries >= 0
  {
    var own := limits.ForNamespace();
    assert own.bytes == limits.namespaceMax.bytes || own.bytes == limits.max.bytes;
    assert own.entries == limits.namespaceMax.entries || own.entries == limits.max.entries;
  }

  /** The rows a run evicts go for room. */
  lemma VictimsGoForRoom(start: Tables, order: Order, removed: seq<Row>, limits: Limits, amount: Usage)
    requires order.target == TargetFor(limits, order.scope, amount)
    requires removed <= VictimsOf(Candidates(start.rows, order.scope, Start), order, Reading(start.ledger, order.scope))
    ensures GoneForRoom(start.ledger, removed, limits, amount)
  {
    var all, usage := Candidates(start.rows, order.scope, Start), Reading(start.ledger, order.scope);
    VictimsAreTheShortestPrefix(all, order.exclude, order.busy, usage, order.target);
    VictimsAreNotSpared(all, order, usage);
    var victims := VictimsOf(all, order, usage);
    forall k | 0 <= k < |removed|
      ensures GoneForRoomAt(start.ledger, removed, limits, amount, k)
    {
      var sofar := removed[..k];
      assert sofar == victims[..k] && forall r | r in removed :: r in victims && r in all;
      assert AllIn(sofar, order.scope) by {
        forall r | r in sofar
          ensures InScope(r.artifact.namespace, order.scope)
        {
          assert r in removed && r in all;
        }
      }
      LeftIsTheRest(usage, sofar);
      ScopeReadingAfterRelease(start.ledger, sofar, order.scope);
      assert Left(usage, sofar) == Reading(Released(start.ledger, sofar), order.scope);
      TargetMeansOver(Released(start.ledger, sofar), limits, order.scope, amount);
      assert removed[k] in removed && removed[k] in all;
    }
  }

  lemma BothGoForRoom(l: Ledger, first: seq<Row>, second: seq<Row>, limits: Limits, amount: Usage)
    requires GoneForRoom(l, first, limits, amount) && GoneForRoom(Released(l, first), second, limits, amount)
    ensures GoneForRoom(l, first + second, limits, amount)
  {
    forall k | 0 <= k < |first + second|
      ensures GoneForRoomAt(l, first + second, limits, amount, k)
    {
      if k < |first| {
        assert (first + second)[..k] == first[..k];
        assert GoneForRoomAt(l, first, limits, amount, k);
      } else {
        var n := k - |first|;
        assert (first + second)[..k] == first + second[..n];
        ReleasedConcat(l, first, second[..n]);
        assert GoneForRoomAt(Released(l, first), second, limits, amount, n);
      }
    }
  }

  datatype Limits = Limits(max: Usage, namespaceMax: Usage) {
    function ForNamespace(): Usage {
      Usage(if namespaceMax.bytes < max.bytes then namespaceMax.bytes else max.bytes,
            if namespaceMax.entries < max.entries then namespaceMax.entries else max.entries)
    }

    function For(scope: Scope): Usage {
      if scope.Everything? then max else ForNamespace()
    }
  }

  /** Two runs in a row are a run. */
  lemma LeadsOn(a: Tables, b: Tables, c: Tables, first: seq<Row>, second: seq<Row>)
    requires Leads(a, b, first) && Leads(b, c, second)
    ensures Leads(a, c, first + second)
  {
    FilterTwice(a.rows, Remaining(first), Remaining(second));
    FilterAgrees(a.rows, (r: Row) => Remaining(first)(r) && Remaining(second)(r), Remaining(first + second));
    ReleasedConcat(a.ledger, first, second);
    assert (set r | r in first + second :: r.path) == (set r | r in first :: r.path) + (set r | r in second :: r.path) by {
      PathsOfBoth(first, second);
    }
  }

  lemma PathsOfBoth(first: seq<Row>, second: seq<Row>)
    ensures (set r | r in first + second :: r.path) == (set r | r in first :: r.path) + (set r | r in second :: r.path)
  {
    forall r | r in first || r in second
      ensures r in first + second
    {
    }
  }

  lemma {:induction false} ReleasedConcat(l: Ledger, first: seq<Row>, second: seq<Row>)
    ensures Released(l, first + second) == Released(Released(l, first), second)
    decreases |second|
  {
    if second == [] {
      assert first + second == first;
    } else {
      var front := second[..|second| - 1];
      assert (first + second)[..|first + second| - 1] == first + front;
      ReleasedConcat(l, first, front);
    }
  }

  function Bytes(rows: seq<Row>): int {
    Sum(rows).bytes
  }

  lemma Regroup(a: Usage, b: Usage, c: Usage)
    ensures a.Plus(b).Plus(c) == a.Plus(b.Plus(c))
  {
  }

  function Merged(report: CleanupResult, partial: CleanupResult): CleanupResult {
    report.(removedEntries := report.removedEntries + partial.removedEntries,
            reclaimedBytes := report.reclaimedBytes + partial.reclaimedBytes,
            deletionPaths := report.deletionPaths + partial.deletionPaths)
  }

  lemma MergedReports(report: CleanupResult, gone: seq<Row>, partial: CleanupResult, more: seq<Row>)
    requires Reports(report, gone) && Reports(partial, more)
    ensures Reports(Merged(report, partial), gone + more)
  {
    PathsConcat(gone, more);
    BytesConcat(gone, more);
  }

  lemma BytesConcat(first: seq<Row>, second: seq<Row>)
    ensures Bytes(first + second) == Bytes(first) + Bytes(second)
  {
    SumConcat(first, second);
    PlusBytes(Sum(first), Sum(second));
  }

  lemma PlusBytes(a: Usage, b: Usage)
    ensures a.Plus(b).bytes == a.bytes + b.bytes
  {
  }

  lemma PathsConcat(first: seq<Row>, second: seq<Row>)
    ensures Paths(first + second) == Paths(first) + Paths(second)
  {
  }

  lemma {:induction false} SumConcat(first: seq<Row>, second: seq<Row>)
    ensures Sum(first + second) == Sum(first).Plus(Sum(second))
  {
    if first == [] {
      assert first + second == second;
      PlusZero(Sum(second));
    } else {
      assert (first + second)[1..] == first[1..] + second;
      SumConcat(first[1..], second);
      Regroup(Weight(first[0]), Sum(first[1..]), Sum(second));
    }
  }

  lemma {:induction false} SumIsNotNegative(rows: seq<Row>)
    ensures Sum(rows).bytes >= 0 && Sum(rows).entries >= 0
  {
    if rows != [] {
      SumIsNotNegative(rows[1..]);
    }
  }

  lemma ReleaseOnlyLowers(l: Ledger, rows: seq<Row>, scope: Scope)
    ensures Reading(Released(l, rows), scope).Within(Reading(l, scope))
  {
    ReadingAfterRelease(l, rows, scope);
    SumIsNotNegative(Filter(rows, Candidate(scope, Start)));
  }

  lemma {:induction false} VictimsAreNotSpared(all: seq<Row>, order: Order, usage: Usage)
    ensures forall r | r in VictimsOf(all, order, usage) :: r in all && !Spared(r, order.exclude, order.busy)
  {
    if all != [] && !usage.Within(order.target) {
      VictimsAreNotSpared(all[1..], order, usage);
      VictimsAreNotSpared(all[1..], order, usage.Plus(Weight(all[0]).Negated()));
    }
  }

  /** What one more run adds to what has been evicted to make room. */
  lemma RoomMade(start: Tables, before: Tables, now: Tables, order: Order, limits: Limits, amount: Usage,
                 gone: seq<Row>, more: seq<Row>)
    requires order.target == TargetFor(limits, order.scope, amount)
    requires Leads(start, before, gone) && Leads(before, now, more)
    requires more <= VictimsOf(Candidates(before.rows, order.scope, Start), order, Reading(before.ledger, order.scope))
    requires GoneForRoom(start.ledger, gone, limits, amount)
    ensures Leads(start, now, gone + more) && GoneForRoom(start.ledger, gone + more, limits, amount)
    ensures forall r | r in more :: order.exclude != Some(r.artifact)
    ensures forall other :: !OverIn(before.ledger, other, limits, amount) ==> !OverIn(now.ledger, other, limits, amount)
  {
    LeadsOn(start, before, now, gone, more);
    VictimsGoForRoom(before, order, more, limits, amount);
    BothGoForRoom(start.ledger, gone, more, limits, amount);
    var victims := VictimsOf(Candidates(before.rows, order.scope, Start), order, Reading(before.ledger, order.scope));
    VictimsAreNotSpared(Candidates(before.rows, order.scope, Start), order, Reading(before.ledger, order.scope));
    forall r | r in more
      ensures order.exclude != Some(r.artifact)
    {
      assert r in victims;
    }
    forall other
      ensures !OverIn(before.ledger, other, limits, amount) ==> !OverIn(now.ledger, other, limits, amount)
    {
      ReleaseOnlyLowers(before.ledger, more, other);
    }
  }

  class Service {
    /** No database call of a reliable service fails. */
    const reliable: bool
    var rows: seq<Row>
    var outbox: set<string>
    var usage: int
    var entries: int
    var namespaceUsage: map<string, Usage>
    var namespaces: int

    function Ledger(): CompileLedger.Ledger
      reads this
    {
      CompileLedger.Ledger(Usage(usage, entries), namespaceUsage, namespaces)
    }

    function Now(): Tables
      reads this
    {
      Tables(rows, outbox, Ledger())
    }

    /** addCapacityLocked */
    method AddCapacity(namespace: string, amount: Usage)
      modifies `usage, `entries, `namespaceUsage, `namespaces
      ensures Ledger() == AddTo(old(Ledger()), namespace, amount)
    {
      var current := if namespace in namespaceUsage then namespaceUsage[namespace] else ZERO;
      assert current == Reading(Ledger(), Only(namespace));
      var wasEmpty := current.bytes == 0 && current.entries == 0;
      assert wasEmpty <==> current == ZERO;
      current := current.Plus(amount);
      if current.bytes == 0 && current.entries == 0 {
        assert current == ZERO;
        namespaceUsage := namespaceUsage - {namespace};
        if !wasEmpty {
          namespaces := namespaces - 1;
        }
      } else {
        namespaceUsage := namespaceUsage[namespace := current];
        if wasEmpty {
          namespaces := namespaces + 1;
        }
      }
      usage := usage + amount.bytes;
      entries := entries + amount.entries;
    }

    function Current(scope: Scope): Usage
      reads this
    {
      Reading(Ledger(), scope)
    }

    /** The eviction transaction of one row: queue its object, delete it, give its capacity back. */
    method Evict(row: Row)
      modifies this
      ensures Now() == Deleted(old(Now()), row)
    {
      outbox := outbox + {row.path};
      rows := Filter(rows, Other(row));
      AddCapacity(row.artifact.namespace, Weight(row).Negated());
    }

    /** One candidate: passed over when it is spared, evicted otherwise. */
    method Consider(candidate: Row, order: Order, report: CleanupResult, ghost start: Tables, ghost all: seq<Row>,
                    ghost n: nat, ghost gone: seq<Row>, before: Cursor)
        returns (ok: bool, result: CleanupResult, cursor: Cursor, ghost next: nat, ghost removed: seq<Row>)
      requires Standing(start, Now(), order, all, n, gone, before) && Reports(report, gone) && Exceeds(Now(), order)
      requires n < |all| && candidate == all[n]
      modifies this
      ensures Reports(result, removed) && SameTotals(result, report)
      ensures Standing(start, Now(), order, all, next, removed, cursor)
      ensures if ok then next == n + 1 && cursor == CursorAt(candidate) else next == n && cursor == before
      ensures reliable ==> ok
    {
      ok, result, removed, next, cursor := true, report, gone, n + 1, CursorAt(candidate);
      if order.exclude == Some(candidate.artifact) || candidate.id in order.busy {
        ProgressBySparing(start, Now(), order, all, n, removed, before);
        return;
      }
      ok := *;
      ok := ok || reliable;
      if !ok {
        next, cursor := n, before;
        return;
      }
      ProgressByEviction(start, Now(), order, all, n, removed, before);
      Evict(candidate);
      removed := removed + [candidate];
      ReportOneMore(report, gone, candidate);
      result := Reporting(report, candidate);
    }

    /** The candidates of one page, from the one the cursor stands before. */
    method EvictPage(page: seq<Row>, order: Order, report: CleanupResult, ghost start: Tables, ghost all: seq<Row>,
                     ghost first: nat, ghost gone: seq<Row>, before: Cursor)
        returns (ok: bool, result: CleanupResult, cursor: Cursor, ghost n: nat, ghost removed: seq<Row>)
      requires Standing(start, Now(), order, all, first, gone, before) && Reports(report, gone) && Exceeds(Now(), order)
      requires 0 < |page| <= |all| - first && forall i | 0 <= i < |page| :: page[i] == all[first + i]
      modifies this
      ensures Reports(result, removed) && SameTotals(result, report)
      ensures Standing(start, Now(), order, all, n, removed, cursor) && (ok ==> n > first)
      ensures reliable ==> ok
    {
      ok, result, cursor, n, removed := Consider(page[0], order, report, start, all, first, gone, before);
      var i := 1;
      while i < |page| && ok && Exceeds(Now(), order)
        invariant 1 <= i <= |page| && (ok ==> n == first + i)
        invariant Reports(result, removed) && SameTotals(result, report)
        invariant Standing(start, Now(), order, all, n, removed, cursor)
        invariant reliable ==> ok
      {
        ok, result, cursor, n, removed := Consider(page[i], order, result, start, all, n, removed, cursor);
        i := i + 1;
      }
    }

    /** cleanupToLocked.  removed lists the evicted rows; a database error leaves a prefix of the
        victims evicted and the report's totals as they were at the start. */
    method CleanupTo(order: Order) returns (result: CleanupResult, outcome: Outcome, ghost removed: seq<Row>)
      requires ValidTables(Now())
      modifies this
      ensures ValidTables(Now()) && Leads(old(Now()), Now(), removed) && Reports(result, removed)
      ensures Evicted(old(Now()), Now(), order, removed, outcome)
      ensures order.target.bytes < 0 || order.target.entries < 0 ==> outcome.InsufficientStorage? && removed == []
      ensures order.target.bytes >= 0 && order.target.entries >= 0 && !outcome.DatabaseError? ==>
                (outcome.Done? <==> Current(order.scope).bytes <= order.target.bytes &&
                                    Current(order.scope).entries <= order.target.entries)
      ensures order.target.bytes >= 0 && order.target.entries >= 0 && outcome.InsufficientStorage? ==>
                forall r | r in rows && InScope(r.artifact.namespace, order.scope) ::
                  order.exclude == Some(r.artifact) || r.id in order.busy
      ensures reliable ==> !outcome.DatabaseError?
      ensures if outcome.DatabaseError? then result.sizeBytes == old(usage) && result.entries == old(entries)
              else result.sizeBytes == usage && result.entries == entries
    {
      result := CleanupResult(usage, entries, 0, 0, []);
      removed := [];
      NothingRemoved(Now());
      if order.target.bytes < 0 || order.target.entries < 0 {
        return result, InsufficientStorage, removed;
      }
      if Current(order.scope).Within(order.target) {
        return result, Done, removed;
      }
      ghost var all, n := Candidates(rows, order.scope, Start), 0;
      var cursor := Start;
      assert all[n..] == all;
      while Exceeds(Now(), order)
        invariant Standing(old(Now()), Now(), order, all, n, removed, cursor)
        invariant Reports(result, removed) && result.sizeBytes == old(usage) && result.entries == old(entries)
        decreases |all| - n
      {
        var listed: bool := *;
        if !listed && !reliable {
          RunEnds(old(Now()), Now(), order, all, n, removed, cursor, DatabaseError);
          return result, DatabaseError, removed;
        }
        var page := Candidates(rows, order.scope, cursor);
        page := if |page| > BATCH_SIZE then page[..BATCH_SIZE] else page;
        if page == [] {
          break;
        }
        var ok;
        ok, result, cursor, n, removed := EvictPage(page, order, result, old(Now()), all, n, removed, cursor);
        if !ok {
          RunEnds(old(Now()), Now(), order, all, n, removed, cursor, DatabaseError);
          return result, DatabaseError, removed;
        }
      }
      result := result.(sizeBytes := usage, entries := entries);
      outcome := if Current(order.scope).Within(order.target) then Done else InsufficientStorage;
      RunEnds(old(Now()), Now(), order, all, n, removed, cursor, outcome);
      if outcome.InsufficientStorage? {
        OnlySparedAreLeft(old(Now()), Now(), order, removed);
      }
    }

    /** There is no room for the amount in this scope: it alone is over the limit, or nothing is left
        that could be evicted for it. */
    predicate NoRoom(scope: Scope, limits: Limits, amount: Usage, artifact: Artifact, busy: set<nat>)
      reads this
    {
      OverIn(EMPTY, scope, limits, amount) ||
      (OverIn(Ledger(), scope, limits, amount) &&
       forall r | r in rows && InScope(r.artifact.namespace, scope) :: r.artifact == artifact || r.id in busy)
    }

    /** reserveCapacity: room is made in the namespace, then overall, and only then taken.  The
        artifact being stored is never evicted to make room for itself, nothing is evicted that need
        not be, and the reservation is refused only when there is no room to be made. */
    method ReserveCapacity(limits: Limits, amount: Usage, artifact: Artifact, busy: set<nat>)
        returns (outcome: Outcome, deletionPaths: seq<string>, evicted: nat, ghost removed: seq<Row>)
      requires ValidTables(Now()) && amount.bytes >= 0 && amount.entries >= 0
      modifies this
      ensures InOrder(rows) && Tidy(Ledger())
      ensures Leads(old(Now()), Now().(ledger := Released(old(Ledger()), removed)), removed)
      ensures Ledger() == (if outcome.Done? && amount != ZERO then AddTo(Released(old(Ledger()), removed), artifact.namespace, amount)
                           else Released(old(Ledger()), removed))
      ensures outcome.Done? && amount != ZERO ==>
                var own, all := Current(Only(artifact.namespace)), Current(Everything);
                own.bytes <= limits.namespaceMax.bytes && own.bytes <= limits.max.bytes && all.bytes <= limits.max.bytes &&
                own.entries <= limits.namespaceMax.entries && own.entries <= limits.max.entries && all.entries <= limits.max.entries
      ensures amount == ZERO ==> outcome.Done? && removed == []
      ensures GoneForRoom(old(Ledger()), removed, limits, amount)
      ensures outcome.InsufficientStorage? ==>
                NoRoom(Only(artifact.namespace), limits, amount, artifact, busy) || NoRoom(Everything, limits, amount, artifact, busy)
      ensures reliable ==> !outcome.DatabaseError?
      ensures forall r | r in removed :: r.artifact != artifact
      ensures evicted == |removed| && deletionPaths == Paths(removed)
    {
      NothingRemoved(Now());
      outcome, deletionPaths, evicted, removed := Done, [], 0, [];
      if amount == ZERO {
        return;
      }
      outcome, deletionPaths, evicted, removed :=
        MakeRoom(Only(artifact.namespace), limits, amount, artifact, busy, deletionPaths, evicted, old(Now()), removed);
      if !outcome.Done? {
        return;
      }
      outcome, deletionPaths, evicted, removed :=
        MakeRoom(Everything, limits, amount, artifact, busy, deletionPaths, evicted, old(Now()), removed);
      if !outcome.Done? {
        return;
      }
      var own := Only(artifact.namespace);
      TargetMeansOver(Ledger(), limits, own, amount);
      TargetMeansOver(Ledger(), limits, Everything, amount);
      if !Current(own).Plus(amount).Within(limits.ForNamespace()) || !Current(Everything).Plus(amount).Within(limits.max) {
        outcome := InsufficientStorage;
      } else {
        ReadingAfterAdd(Ledger(), artifact.namespace, amount, own);
        ReadingAfterAdd(Ledger(), artifact.namespace, amount, Everything);
        AddKeepsTidy(Ledger(), artifact.namespace, amount);
        AddCapacity(artifact.namespace, amount);
      }
    }

    /** One eviction run on behalf of a reservation, if the amount does not fit as it is. */
    method MakeRoom(scope: Scope, limits: Limits, amount: Usage, artifact: Artifact, busy: set<nat>,
                    paths: seq<string>, count: nat, ghost start: Tables, ghost gone: seq<Row>)
        returns (outcome: Outcome, deletionPaths: seq<string>, evicted: nat, ghost removed: seq<Row>)
      requires ValidTables(Now()) && Leads(start, Now(), gone) && count == |gone| && paths == Paths(gone)
      requires GoneForRoom(start.ledger, gone, limits, amount) && forall r | r in gone :: r.artifact != artifact
      modifies this
      ensures ValidTables(Now()) && Leads(start, Now(), removed) && evicted == |removed| && deletionPaths == Paths(removed)
      ensures GoneForRoom(start.ledger, removed, limits, amount) && forall r | r in removed :: r.artifact != artifact
      ensures outcome.Done? ==> !OverIn(Ledger(), scope, limits, amount)
      ensures outcome.InsufficientStorage? ==> NoRoom(scope, limits, amount, artifact, busy)
      ensures reliable ==> !outcome.DatabaseError?
      ensures forall other :: !OverIn(old(Ledger()), other, limits, amount) ==> !OverIn(Ledger(), other, limits, amount)
    {
      outcome, deletionPaths, evicted, removed := Done, paths, count, gone;
      var limit := limits.For(scope);
      TargetMeansOver(Ledger(), limits, scope, amount);
      if Current(scope).Plus(amount).Within(limit) {
        return;
      }
      var order := Order(limit.Plus(amount.Negated()), scope, Some(artifact), busy);
      var result;
      ghost var more;
      ghost var before := Now();
      result, outcome, more := CleanupTo(order);
      TargetMeansOver(Ledger(), limits, scope, amount);
      RoomMade(start, before, Now(), order, limits, amount, gone, more);
      removed := gone + more;
      evicted := count + result.removedEntries;
      deletionPaths := paths + result.deletionPaths;
      PathsConcat(gone, more);
    }

    /** Too much in this scope, and everything in it is in use. */
    predicate Stuck(scope: Scope, limits: Limits, busy: set<nat>)
      reads this
    {
      OverIn(Ledger(), scope, limits, ZERO) && forall r | r in rows && InScope(r.artifact.namespace, scope) :: r.id in busy
    }

    predicate NamespaceFits(limits: Limits, namespace: string)
      reads this
    {
      !OverIn(Ledger(), Only(namespace), limits, ZERO)
    }

    /** EnforceLimits: when it succeeds, every namespace and the whole cache are within the limits; it evicts
        only what it has to, and gives up only when all that is left in some scope is in use. */
    method EnforceLimits(limits: Limits, busy: set<nat>) returns (result: CleanupResult, outcome: Outcome, ghost removed: seq<Row>)
      requires ValidTables(Now())
      requires limits.max.bytes >= 0 && limits.max.entries >= 0 && limits.namespaceMax.bytes >= 0 && limits.namespaceMax.entries >= 0
      modifies this
      ensures ValidTables(Now()) && Leads(old(Now()), Now(), removed) && Reports(result, removed)
      ensures result.sizeBytes == usage && result.entries == entries
      ensures outcome.Done? ==> usage <= limits.max.bytes && entries <= limits.max.entries
      ensures outcome.Done? ==>
                forall namespace ::
                  var own := Current(Only(namespace));
                  own.bytes <= limits.namespaceMax.bytes && own.bytes <= limits.max.bytes &&
                  own.entries <= limits.namespaceMax.entries && own.entries <= limits.max.entries
      ensures GoneForRoom(old(Ledger()), removed, limits, ZERO)
      ensures outcome.InsufficientStorage? ==> exists scope :: Stuck(scope, limits, busy)
      ensures reliable ==> !outcome.DatabaseError?
    {
      result, outcome, removed := CleanupResult(usage, entries, 0, 0, []), Done, [];
      NothingRemoved(Now());
      var todo := namespaceUsage.Keys;
      while todo != {} && outcome.Done?
        invariant ValidTables(Now()) && Leads(old(Now()), Now(), removed) && Reports(result, removed)
        invariant GoneForRoom(old(Ledger()), removed, limits, ZERO)
        invariant outcome.Done? ==> forall namespace | namespace !in todo :: NamespaceFits(limits, namespace)
        invariant outcome.InsufficientStorage? ==> exists scope :: Stuck(scope, limits, busy)
        invariant reliable ==> !outcome.DatabaseError?
        decreases todo, outcome.Done?
      {
        var namespace :| namespace in todo;
        result, outcome, removed := BringDown(Only(namespace), limits, busy, result, old(Now()), removed);
        todo := todo - {namespace};
      }
      if outcome.Done? {
        result, outcome, removed := BringDown(Everything, limits, busy, result, old(Now()), removed);
      }
      forall namespace | outcome.Done?
        ensures !OverIn(Ledger(), Only(namespace), limits, ZERO)
      {
        assert NamespaceFits(limits, namespace);
      }
      result := result.(sizeBytes := usage, entries := entries);
    }

    /** One eviction run, if the scope is over its limit; its report is added to those of the runs before. */
    method BringDown(scope: Scope, limits: Limits, busy: set<nat>, report: CleanupResult, ghost start: Tables, ghost gone: seq<Row>)
        returns (result: CleanupResult, outcome: Outcome, ghost removed: seq<Row>)
      requires ValidTables(Now()) && Leads(start, Now(), gone) && Reports(report, gone)
      requires GoneForRoom(start.ledger, gone, limits, ZERO)
      requires limits.max.bytes >= 0 && limits.max.entries >= 0 && limits.namespaceMax.bytes >= 0 && limits.namespaceMax.entries >= 0
      modifies this
      ensures ValidTables(Now()) && Leads(start, Now(), removed) && Reports(result, removed)
      ensures GoneForRoom(start.ledger, removed, limits, ZERO)
      ensures outcome.Done? ==> !OverIn(Ledger(), scope, limits, ZERO)
      ensures outcome.InsufficientStorage? ==> Stuck(scope, limits, busy)
      ensures reliable ==> !outcome.DatabaseError?
      ensures forall namespace :: old(NamespaceFits(limits, namespace)) ==> NamespaceFits(limits, namespace)
    {
      result, outcome, removed := report, Done, gone;
      var limit := limits.For(scope);
      LimitIsNotNegative(limits, scope);
      PlusZero(limit);
      TargetMeansOver(Ledger(), limits, scope, ZERO);
      if Current(scope).Within(limit) {
        return;
      }
      var order := Order(limit, scope, None, busy);
      ghost var more;
      ghost var before := Now();
      var partial;
      partial, outcome, more := CleanupTo(order);
      TargetMeansOver(Ledger(), limits, scope, ZERO);
      RoomMade(start, before, Now(), order, limits, ZERO, gone, more);
      removed := gone + more;
      MergedReports(report, gone, partial, more);
      result := Merged(report, partial);
    }
  }
}

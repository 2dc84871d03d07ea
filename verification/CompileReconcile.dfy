/** Reconcile (internal/compilecache/service.go): what it does to the rows, the objects and the ledger
    when the service starts over a store that an earlier process has left behind.

    Every operation of it is an event of CompileProtocol, any of them may fail, and between any two of
    them late uploads land, objects are damaged from outside and time passes. */
module CompileReconcile {
  import opened Wrappers
  import opened CompileLedger
  import opened CompileEviction
  import opened CompileProtocol
  import opened CompileObjects
  import opened CompileBooks

  const PAGE := 512

  type Rows = map<Artifact, Entry>
  type Listing = map<Path, nat>

  // ---------------------------------------------------------------- what is to be left

  /** The row has an object of its size in the listing. */
  predicate Good(rows: Rows, listed: Listing, a: Artifact) {
    a in rows && rows[a].size > 0 && PathOf(a, rows[a].generation) in listed &&
    listed[PathOf(a, rows[a].generation)] == rows[a].size
  }

  /** The path is that of one of these rows. */
  predicate ByRow(rows: Rows, done: set<Artifact>, path: Path) {
    !path.temporary && path.artifact in done && path.artifact in rows && rows[path.artifact].generation == path.generation
  }

  /** The rows that are left once those in done have been looked at, and those of them that are kept. */
  function LeftRows(rows: Rows, listed: Listing, done: set<Artifact>): Rows {
    map a | a in rows && (a in done ==> Good(rows, listed, a)) :: rows[a]
  }

  function Kept(rows: Rows, listed: Listing, done: set<Artifact>): Rows {
    map a | a in rows && a in done && Good(rows, listed, a) :: rows[a]
  }

  /** The listed objects that belong to none of the rows looked at, and those of the rows given up. */
  function Unclaimed(rows: Rows, listed: Listing, done: set<Artifact>): Listing {
    map path | path in listed && !ByRow(rows, done, path) :: listed[path]
  }

  function GivenUp(rows: Rows, listed: Listing, done: set<Artifact>): set<Path> {
    set path | path in listed && ByRow(rows, done, path) && !Good(rows, listed, path.artifact)
  }

  /** The listed objects to be deleted: those of rows that are not good, and those of no row that are old
      enough. */
  function ToDelete(rows: Rows, listed: Listing, young: set<Path>): set<Path> {
    set path | path in listed && if ByRow(rows, rows.Keys, path) then !Good(rows, listed, path.artifact) else path !in young
  }

  function GoodRows(rows: Rows, listed: Listing): Rows {
    map a | a in rows && Good(rows, listed, a) :: rows[a]
  }

  function Elements(artifacts: seq<Artifact>): set<Artifact> {
    set a | a in artifacts
  }

  lemma ElementsOfBoth(xs: seq<Artifact>, ys: seq<Artifact>)
    ensures Elements(xs + ys) == Elements(xs) + Elements(ys)
  {
  }

  lemma ElementsSoFar(xs: seq<Artifact>, i: nat)
    requires i < |xs|
    ensures Elements(xs[..i + 1]) == Elements(xs[..i]) + {xs[i]}
  {
    assert xs[..i + 1] == xs[..i] + [xs[i]];
  }

  /** The table lists each row once. */
  ghost predicate Lists(order: seq<Artifact>, rows: Rows) {
    (forall a :: a in order <==> a in rows) && forall i, j | 0 <= i < j < |order| :: order[i] != order[j]
  }

  predicate NewPage(page: seq<Artifact>, rows: Rows, done: set<Artifact>) {
    (forall i | 0 <= i < |page| :: page[i] in rows && page[i] !in done) &&
    forall i, j | 0 <= i < j < |page| :: page[i] != page[j]
  }

  lemma PageIsNew(order: seq<Artifact>, from: nat, to: nat, rows: Rows)
    requires Lists(order, rows) && from <= to <= |order|
    ensures NewPage(order[from..to], rows, Elements(order[..from]))
    ensures Elements(order[..to]) == Elements(order[..from]) + Elements(order[from..to])
  {
    assert order[..to] == order[..from] + order[from..to];
    ElementsOfBoth(order[..from], order[from..to]);
    forall i | 0 <= i < to - from
      ensures order[from..to][i] in rows && order[from..to][i] !in Elements(order[..from])
    {
      assert order[from + i] in order;
    }
  }

  // ---------------------------------------------------------------- the tally

  /** The figures added up row by row. */
  datatype Tally = Tally(perNamespace: map<string, Usage>, bytes: int, entries: int) {
    function AsLedger(): Ledger {
      Ledger(Usage(bytes, entries), perNamespace, |perNamespace|)
    }

    function Count(namespace: string, size: nat): Tally {
      var current := if namespace in perNamespace then perNamespace[namespace] else ZERO;
      Tally(perNamespace[namespace := current.Plus(Usage(size, 1))], bytes + size, entries + 1)
    }
  }

  lemma SameLedger(x: Ledger, y: Ledger)
    requires Tidy(x) && Tidy(y) && forall scope :: Reading(x, scope) == Reading(y, scope)
    ensures x == y
  {
    assert Reading(x, Everything) == Reading(y, Everything);
    forall n
      ensures n in x.perNamespace <==> n in y.perNamespace
      ensures n in x.perNamespace ==> x.perNamespace[n] == y.perNamespace[n]
    {
      assert Reading(x, Only(n)) == Reading(y, Only(n));
    }
    assert x.perNamespace == y.perNamespace;
  }

  /** The ledger is that of these rows. */
  ghost predicate OfRows(l: Ledger, rows: Rows) {
    Tidy(l) && forall scope :: ReadsRows(l, rows, scope)
  }

  lemma RebuiltIsOfRows(rows: Rows)
    ensures OfRows(Rebuilt(rows), rows)
  {
    RebuiltIsExact(rows);
    forall scope
      ensures ReadsRows(Rebuilt(rows), rows, scope)
    {
      assert RebuiltReads(rows, scope);
    }
  }

  lemma OneLedgerPerRows(l: Ledger, m: Ledger, rows: Rows)
    requires OfRows(l, rows) && OfRows(m, rows)
    ensures l == m
  {
    forall scope
      ensures Reading(l, scope) == Reading(m, scope)
    {
      assert ReadsRows(l, rows, scope) && ReadsRows(m, rows, scope);
    }
    SameLedger(l, m);
  }

  lemma OneMoreReads(l: Ledger, rows: Rows, a: Artifact, e: Entry, scope: Scope)
    requires a !in rows && ReadsRows(l, rows, scope)
    ensures ReadsRows(AddTo(l, a.namespace, Usage(e.size, 1)), rows[a := e], scope)
  {
    ReadingChange(l, a.namespace, Usage(e.size, 1), scope);
    HeldAfterSet(rows, a, e, scope);
    Alike(Reading(AddTo(l, a.namespace, Usage(e.size, 1)), scope), Total(RowCharges(rows[a := e]), scope));
  }

  lemma Alike(x: Usage, y: Usage)
    ensures x.bytes == y.bytes && x.entries == y.entries ==> x == y
  {
  }

  lemma TallyOneMore(t: Tally, rows: Rows, a: Artifact, e: Entry)
    requires OfRows(t.AsLedger(), rows) && a !in rows
    ensures OfRows(t.Count(a.namespace, e.size).AsLedger(), rows[a := e])
  {
    var l := t.AsLedger();
    var more := AddTo(l, a.namespace, Usage(e.size, 1));
    var now := rows[a := e];
    AddKeepsTidy(l, a.namespace, Usage(e.size, 1));
    forall scope
      ensures ReadsRows(more, now, scope)
    {
      assert ReadsRows(l, rows, scope);
      OneMoreReads(l, rows, a, e, scope);
    }
    assert ReadsRows(l, rows, Only(a.namespace));
    EntriesAreNotNegative(rows, Only(a.namespace));
    CountIsAddition(t, a.namespace, e.size);
  }

  lemma EntriesAreNotNegative(rows: Rows, scope: Scope)
    ensures Total(RowCharges(rows), scope).entries >= 0
  {
    TotalBounds(RowCharges(rows), Artifact("", "", ""), scope);
  }

  lemma CountIsAddition(t: Tally, namespace: string, size: nat)
    requires Tidy(t.AsLedger()) && Reading(t.AsLedger(), Only(namespace)).entries >= 0
    ensures t.Count(namespace, size).AsLedger() == AddTo(t.AsLedger(), namespace, Usage(size, 1))
  {
    var next := Reading(t.AsLedger(), Only(namespace)).Plus(Usage(size, 1));
    assert next != ZERO;
    assert t.perNamespace[namespace := next].Keys == t.perNamespace.Keys + {namespace};
  }

  // ---------------------------------------------------------------- what a run has done

  /** The object that an event damages, and the one whose deletion it attempts, if any. */
  function HurtBy(s: State, e: Event): set<Path> {
    if e.Damage? && e.path in s.objects then {e.path} else {}
  }

  function DeletedBy(s: State, p: nat, e: Event): set<Path> {
    if e.Delete? && p in s.procs && s.procs[p].Sweep? && e.path in s.procs[p].doomed then {e.path} else {}
  }

  /** The objects damaged from outside in a run, and those whose deletion was attempted in it. */
  ghost function DamagedIn(s: State, events: seq<(nat, Event)>): set<Path>
    decreases |events|
  {
    if events == [] then {}
    else HurtBy(s, events[0].1) + DamagedIn(Next(s, events[0].0, events[0].1), events[1..])
  }

  ghost function DeletionsIn(s: State, events: seq<(nat, Event)>): set<Path>
    decreases |events|
  {
    if events == [] then {}
    else DeletedBy(s, events[0].0, events[0].1) + DeletionsIn(Next(s, events[0].0, events[0].1), events[1..])
  }

  lemma {:induction false} RunOneMore(s: State, events: seq<(nat, Event)>, p: nat, e: Event)
    ensures Run(s, events + [(p, e)]) == Next(Run(s, events), p, e)
    ensures DamagedIn(s, events + [(p, e)]) == DamagedIn(s, events) + HurtBy(Run(s, events), e)
    ensures DeletionsIn(s, events + [(p, e)]) == DeletionsIn(s, events) + DeletedBy(Run(s, events), p, e)
    decreases |events|
  {
    if events == [] {
      OneStepRun(s, p, e);
    } else {
      assert (events + [(p, e)])[1..] == events[1..] + [(p, e)];
      RunOneMore(Next(s, events[0].0, events[0].1), events[1..], p, e);
    }
  }

  lemma OneStepRun(s: State, p: nat, e: Event)
    ensures Run(s, [] + [(p, e)]) == Next(s, p, e)
    ensures DamagedIn(s, [] + [(p, e)]) == HurtBy(s, e) && DeletionsIn(s, [] + [(p, e)]) == DeletedBy(s, p, e)
  {
    var one: seq<(nat, Event)> := [(p, e)];
    assert [] + one == one && one[1..] == [];
    assert Run(s, one) == Run(Next(s, p, e), []);
  }

  // ---------------------------------------------------------------- the listing and what happens meanwhile

  /** What the listing says of a row is still so, unless its object has been damaged since. */
  predicate StillListed(s: State, listed: Listing, hurt: set<Path>, a: Artifact) {
    a in s.rows ==>
      var path := PathOf(a, s.rows[a].generation);
      (path in s.objects ==> path in listed) &&
      (path in hurt || (path in listed ==> path in s.objects && s.objects[path] == listed[path]))
  }

  ghost predicate ListingHolds(s: State, listed: Listing, hurt: set<Path>) {
    (forall path | path in listed :: path in s.landed) && forall a :: StillListed(s, listed, hurt, a)
  }

  /** A step that takes at most objects that no row refers to, and at most rows. */
  lemma ListingSurvives(s: State, t: State, listed: Listing, hurt: set<Path>)
    requires ListingHolds(s, listed, hurt) && t.landed == s.landed
    requires forall a | a in t.rows :: a in s.rows && t.rows[a] == s.rows[a]
    requires forall path | Referenced(t, path) :: SameAt(s.objects, t.objects, path)
    ensures ListingHolds(t, listed, hurt)
  {
    forall a
      ensures StillListed(t, listed, hurt, a)
    {
      assert StillListed(s, listed, hurt, a);
      if a in t.rows {
        assert Referenced(t, PathOf(a, t.rows[a].generation));
      }
    }
  }

  predicate Meanwhile(e: Event) {
    e.Land? || e.Damage? || e.Tick?
  }

  lemma OutsideKeepsListing(s: State, e: Event, listed: Listing, hurt: set<Path>)
    requires StoreInv(s) && ListingHolds(s, listed, hurt) && Meanwhile(e)
    ensures ListingHolds(Outside(s, e), listed, hurt + HurtBy(s, e))
    ensures var t := Outside(s, e); t.rows == s.rows && t.procs == s.procs && t.ready == s.ready
  {
    var t, now := Outside(s, e), hurt + HurtBy(s, e);
    OutsideTouchesOne(s, e);
    forall a
      ensures StillListed(t, listed, now, a)
    {
      assert StillListed(s, listed, hurt, a);
      if a in s.rows {
        assert PathInv(s, PathOf(a, s.rows[a].generation));
        assert Referenced(s, PathOf(a, s.rows[a].generation));
      }
    }
  }

  /** t has the rows and processes of s, and of what had been written no object more and only these changed. */
  ghost predicate Touches(s: State, t: State, changed: set<Path>) {
    t.rows == s.rows && t.procs == s.procs && t.ready == s.ready && (forall path | path in s.landed :: path in t.landed) &&
    (forall path | path in s.landed && path !in changed :: SameAt(s.objects, t.objects, path)) &&
    (forall path | path in t.objects && path in s.landed :: path in s.objects)
  }

  lemma OutsideTouchesOne(s: State, e: Event)
    requires Meanwhile(e)
    ensures Touches(s, Outside(s, e), HurtBy(s, e))
  {
    if e.Land? {
      LandTouchesNone(s, e.path, e.size);
    } else if e.Damage? {
      DamageTouchesOne(s, e.path, e.left);
    }
  }

  lemma LandTouchesNone(s: State, path: Path, size: nat)
    ensures Touches(s, Outside(s, Land(path, size)), {})
  {
    if path in s.outbox && s.now < s.outbox[path] && path !in s.landed {
      assert Touches(s, s.(objects := s.objects[path := size], landed := s.landed + {path}), {});
    }
  }

  lemma DamageTouchesOne(s: State, path: Path, left: Option<nat>)
    ensures Touches(s, Outside(s, Damage(path, left)), HurtBy(s, Damage(path, left)))
  {
    if path in s.objects {
      var objects := if left.Some? then s.objects[path := left.value] else s.objects - {path};
      assert Touches(s, s.(objects := objects, damaged := s.damaged + {path}), {path});
    }
  }

  // ---------------------------------------------------------------- starting

  /** A row given up, its path, and the number of the worker that is to delete it. */
  datatype Doomed = Doomed(worker: nat, path: Path)

  predicate Waiting(s: State, d: Doomed) {
    d.worker in s.procs && s.procs[d.worker] == Sweep({d.path}, {})
  }

  predicate AllWaiting(s: State, queue: seq<Doomed>) {
    (forall i | 0 <= i < |queue| :: Waiting(s, queue[i])) &&
    (forall i, j | 0 <= i < j < |queue| :: queue[i].worker != queue[j].worker)
  }

  function PathsOf(queue: seq<Doomed>): set<Path> {
    set d | d in queue :: d.path
  }

  /** The walk over the rows so far. */
  ghost predicate Walked(s: State, rows: Rows, listed: Listing, done: set<Artifact>, unclaimed: Listing,
                         queue: seq<Doomed>, tally: Tally) {
    s.rows == LeftRows(rows, listed, done) && unclaimed == Unclaimed(rows, listed, done) &&
    PathsOf(queue) == GivenUp(rows, listed, done) && AllWaiting(s, queue) &&
    OfRows(tally.AsLedger(), Kept(rows, listed, done))
  }

  lemma OneMissing(rows: Rows, listed: Listing, done: set<Artifact>, a: Artifact)
    requires a in rows && a !in done && PathOf(a, rows[a].generation) !in listed
    ensures LeftRows(rows, listed, done + {a}) == LeftRows(rows, listed, done) - {a}
    ensures Kept(rows, listed, done + {a}) == Kept(rows, listed, done)
    ensures Unclaimed(rows, listed, done + {a}) == Unclaimed(rows, listed, done)
    ensures GivenUp(rows, listed, done + {a}) == GivenUp(rows, listed, done)
  {
    OneMorePath(rows, done, a);
  }

  lemma OneGivenUp(rows: Rows, listed: Listing, done: set<Artifact>, a: Artifact)
    requires a in rows && a !in done && PathOf(a, rows[a].generation) in listed && !Good(rows, listed, a)
    ensures LeftRows(rows, listed, done + {a}) == LeftRows(rows, listed, done) - {a}
    ensures Kept(rows, listed, done + {a}) == Kept(rows, listed, done)
    ensures Unclaimed(rows, listed, done + {a}) == Unclaimed(rows, listed, done) - {PathOf(a, rows[a].generation)}
    ensures GivenUp(rows, listed, done + {a}) == GivenUp(rows, listed, done) + {PathOf(a, rows[a].generation)}
  {
    OneMorePath(rows, done, a);
  }

  lemma OneGood(rows: Rows, listed: Listing, done: set<Artifact>, a: Artifact)
    requires a !in done && Good(rows, listed, a)
    ensures LeftRows(rows, listed, done + {a}) == LeftRows(rows, listed, done)
    ensures Kept(rows, listed, done + {a}) == Kept(rows, listed, done)[a := rows[a]]
    ensures Unclaimed(rows, listed, done + {a}) == Unclaimed(rows, listed, done) - {PathOf(a, rows[a].generation)}
    ensures GivenUp(rows, listed, done + {a}) == GivenUp(rows, listed, done)
  {
    OneMorePath(rows, done, a);
  }

  lemma OneMorePath(rows: Rows, done: set<Artifact>, a: Artifact)
    requires a in rows && a !in done
    ensures forall p :: ByRow(rows, done + {a}, p) <==> ByRow(rows, done, p) || p == PathOf(a, rows[a].generation)
    ensures !ByRow(rows, done, PathOf(a, rows[a].generation))
  {
  }

  lemma OneMoreWaiting(s: State, t: State, queue: seq<Doomed>, worker: nat, path: Path)
    requires AllWaiting(s, queue) && worker !in s.procs && t.procs == s.procs[worker := Sweep({path}, {})]
    ensures AllWaiting(t, queue + [Doomed(worker, path)]) && PathsOf(queue + [Doomed(worker, path)]) == PathsOf(queue) + {path}
  {
    var more := queue + [Doomed(worker, path)];
    forall i | 0 <= i < |more|
      ensures Waiting(t, more[i]) && (i < |queue| ==> more[i].worker != worker)
    {
      if i < |queue| {
        assert Waiting(s, queue[i]);
      }
    }
    assert more[|queue|] in more;
    forall d | d in queue
      ensures d in more
    {
    }
  }

  lemma SameWaiting(s: State, t: State, queue: seq<Doomed>)
    requires AllWaiting(s, queue) && t.procs == s.procs
    ensures AllWaiting(t, queue)
  {
    forall i | 0 <= i < |queue|
      ensures Waiting(t, queue[i])
    {
      assert Waiting(s, queue[i]);
    }
  }

  lemma RowMissing(s: State, t: State, rows: Rows, listed: Listing, done: set<Artifact>, unclaimed: Listing,
                   queue: seq<Doomed>, tally: Tally, a: Artifact)
    requires Walked(s, rows, listed, done, unclaimed, queue, tally) && a in rows && a !in done
    requires PathOf(a, rows[a].generation) !in listed && t.rows == s.rows - {a} && t.procs == s.procs
    ensures Walked(t, rows, listed, done + {a}, unclaimed, queue, tally)
  {
    OneMissing(rows, listed, done, a);
    SameWaiting(s, t, queue);
  }

  lemma RowGivenUp(s: State, t: State, rows: Rows, listed: Listing, done: set<Artifact>, unclaimed: Listing,
                   queue: seq<Doomed>, tally: Tally, a: Artifact, worker: nat)
    requires Walked(s, rows, listed, done, unclaimed, queue, tally) && a in rows && a !in done
    requires PathOf(a, rows[a].generation) in listed && !Good(rows, listed, a)
    requires worker !in s.procs && t.rows == s.rows - {a}
    requires t.procs == s.procs[worker := Sweep({PathOf(a, rows[a].generation)}, {})]
    ensures var path := PathOf(a, rows[a].generation);
            Walked(t, rows, listed, done + {a}, unclaimed - {path}, queue + [Doomed(worker, path)], tally)
  {
    OneGivenUp(rows, listed, done, a);
    OneMoreWaiting(s, t, queue, worker, PathOf(a, rows[a].generation));
  }

  lemma RowCounted(s: State, rows: Rows, listed: Listing, done: set<Artifact>, unclaimed: Listing,
                   queue: seq<Doomed>, tally: Tally, a: Artifact)
    requires Walked(s, rows, listed, done, unclaimed, queue, tally) && a !in done && Good(rows, listed, a)
    ensures Walked(s, rows, listed, done + {a}, unclaimed - {PathOf(a, rows[a].generation)}, queue,
                   tally.Count(a.namespace, rows[a].size))
  {
    OneGood(rows, listed, done, a);
    TallyOneMore(tally, Kept(rows, listed, done), a, rows[a]);
  }

  class Startup {
    /** With reliable databases and stores nothing fails. */
    const reliable: bool
    var s: State
    var workers: nat
    ghost var origin: State
    ghost var trace: seq<(nat, Event)>
    ghost var hurt: set<Path>
    ghost var attempted: set<Path>

    /** The state is where the recorded run leads; hurt and attempted are read off that run. */
    ghost predicate Recorded()
      reads this
    {
      s == Run(origin, trace) && hurt == DamagedIn(origin, trace) && attempted == DeletionsIn(origin, trace) &&
      StoreInv(s) && Books(s)
    }

    ghost predicate Valid()
      reads this
    {
      Recorded() && !s.ready && forall p | p in s.procs :: p < workers
    }

    constructor (left: State, reliable: bool)
      requires StoreInv(left) && Books(left) && !left.ready && left.procs == map[]
      ensures Valid() && s == left && origin == left && trace == [] && this.reliable == reliable
    {
      this.reliable := reliable;
      s, workers, origin, trace, hurt, attempted := left, 0, left, [], {}, {};
    }

    /** Records an event of the machine that the class has just carried out. */
    ghost method Record(before: State, p: nat, e: Event)
      requires before == Run(origin, trace) && hurt == DamagedIn(origin, trace) && attempted == DeletionsIn(origin, trace)
      requires StoreInv(before) && Books(before) && s == Next(before, p, e)
      modifies `trace, `hurt, `attempted
      ensures Recorded() && trace == old(trace) + [(p, e)]
      ensures hurt == old(hurt) + HurtBy(before, e) && attempted == old(attempted) + DeletedBy(before, p, e)
      ensures (!e.Damage? ==> hurt == old(hurt)) && (!e.Delete? ==> attempted == old(attempted))
    {
      RunOneMore(origin, trace, p, e);
      NextKeepsStore(before, p, e);
      NextKeepsBooks(before, p, e);
      trace, hurt, attempted := trace + [(p, e)], hurt + HurtBy(before, e), attempted + DeletedBy(before, p, e);
    }

    /** The same for an event that takes at most rows, and objects that no row refers to. */
    ghost method RecordAmid(before: State, p: nat, e: Event, listed: Listing)
      requires before == Run(origin, trace) && hurt == DamagedIn(origin, trace) && attempted == DeletionsIn(origin, trace)
      requires StoreInv(before) && Books(before) && s == Next(before, p, e) && !e.Damage?
      requires ListingHolds(before, listed, hurt) && s.landed == before.landed
      requires forall a | a in s.rows :: a in before.rows && s.rows[a] == before.rows[a]
      requires forall path | Referenced(s, path) :: SameAt(before.objects, s.objects, path)
      modifies `trace, `hurt, `attempted
      ensures Recorded() && old(trace) <= trace && hurt == old(hurt) && ListingHolds(s, listed, hurt)
      ensures attempted == old(attempted) + DeletedBy(before, p, e) && (!e.Delete? ==> attempted == old(attempted))
    {
      Record(before, p, e);
      ListingSurvives(before, s, listed, hurt);
    }

    /** Late uploads land, objects are damaged from outside, time passes. */
    method Interfere(ghost listed: Listing)
      requires Valid() && ListingHolds(s, listed, hurt)
      modifies `s, `trace, `hurt, `attempted
      ensures Valid() && ListingHolds(s, listed, hurt) && old(trace) <= trace
      ensures s.rows == old(s).rows && s.procs == old(s).procs && s.ledger == old(s).ledger && attempted == old(attempted)
    {
      var n: nat := *;
      while n > 0
        invariant Valid() && ListingHolds(s, listed, hurt) && old(trace) <= trace
        invariant s.rows == old(s).rows && s.procs == old(s).procs && s.ledger == old(s).ledger && attempted == old(attempted)
      {
        var e: Event := *;
        if Meanwhile(e) {
          ghost var before := s;
          OutsideKeepsListing(s, e, listed, hurt);
          s := Outside(s, e);
          Record(before, 0, e);
        }
        n := n - 1;
      }
    }

    /** The transaction that gives a row up; it fails without effect. */
    method GiveRowUp(a: Artifact, queued: bool, ghost listed: Listing) returns (ok: bool, worker: nat)
      requires Valid() && ListingHolds(s, listed, hurt) && a in s.rows
      requires queued <==> PathOf(a, s.rows[a].generation) in listed
      modifies `s, `trace, `hurt, `attempted, `workers
      ensures Valid() && ListingHolds(s, listed, hurt) && old(trace) <= trace
      ensures s.ledger == old(s).ledger && attempted == old(attempted) && (!ok ==> s == old(s) && workers == old(workers))
      ensures ok ==> s.rows == old(s).rows - {a} && worker == old(workers) && worker !in old(s).procs
      ensures ok ==> s.procs == (if queued then old(s).procs[worker := Sweep({PathOf(a, old(s).rows[a].generation)}, {})]
                                 else old(s).procs)
      ensures reliable ==> ok
    {
      ok, worker := *, workers;
      ok := ok || reliable;
      if !ok {
        return;
      }
      assert StillListed(s, listed, hurt, a);
      ghost var before := s;
      var path := PathOf(a, s.rows[a].generation);
      s := s.(rows := s.rows - {a},
              outbox := if queued then Enqueue(s.outbox, path, s.now) else s.outbox,
              procs := if queued then s.procs[worker := Sweep({path}, {})] else s.procs);
      workers := workers + 1;
      assert s == ReconcileStep(before, worker, DropRow(a, queued));
      RecordAmid(before, worker, DropRow(a, queued), listed);
    }

    /** The record of an object nobody refers to; the write may fail. */
    method QueueOrphan(path: Path, ghost listed: Listing) returns (ok: bool, worker: nat)
      requires Valid() && ListingHolds(s, listed, hurt) && path in listed && !Referenced(s, path)
      modifies `s, `trace, `hurt, `attempted, `workers
      ensures Valid() && ListingHolds(s, listed, hurt) && old(trace) <= trace
      ensures s.rows == old(s).rows && s.ledger == old(s).ledger && attempted == old(attempted) && (!ok ==> s == old(s))
      ensures ok ==> worker !in old(s).procs && s.procs == old(s).procs[worker := Sweep({path}, {})]
      ensures reliable ==> ok
    {
      ok, worker := *, workers;
      ok := ok || reliable;
      if !ok {
        return;
      }
      ghost var before := s;
      s := s.(outbox := Enqueue(s.outbox, path, s.now), procs := s.procs[worker := Sweep({path}, {})]);
      workers := workers + 1;
      assert s == ReconcileStep(before, worker, DropOrphan(path));
      RecordAmid(before, worker, DropOrphan(path), listed);
    }

    /** processDeletionPath: the delete may fail, with or without effect, and so may forgetting the
        record. */
    method ProcessDeletionPath(d: Doomed, ghost listed: Listing)
      requires Valid() && ListingHolds(s, listed, hurt) && Waiting(s, d)
      modifies `s, `trace, `hurt, `attempted
      ensures Valid() && ListingHolds(s, listed, hurt) && old(trace) <= trace && attempted == old(attempted) + {d.path}
      ensures s.rows == old(s).rows && s.procs == old(s).procs - {d.worker} && s.ledger == old(s).ledger
    {
      var ok: bool, effect: bool, forgotten: bool := *, *, *;
      Deletion(d, ok, effect, listed);
      if ok && forgotten {
        Forget(d, listed);
      }
      Retire(d.worker, listed);
    }

    method Deletion(d: Doomed, ok: bool, effect: bool, ghost listed: Listing)
      requires Valid() && ListingHolds(s, listed, hurt) && Waiting(s, d)
      modifies `s, `trace, `hurt, `attempted
      ensures Valid() && ListingHolds(s, listed, hurt) && old(trace) <= trace && s.rows == old(s).rows
      ensures s.procs == old(s).procs[d.worker := if ok then Sweep({d.path}, {d.path}) else Sweep({}, {})]
      ensures s.ledger == old(s).ledger && attempted == old(attempted) + {d.path}
    {
      ghost var before := s;
      assert ProcInv(s, d.worker) && SweptInv(s, s.procs[d.worker], d.path);
      var objects := if ok || effect then s.objects - {d.path} else s.objects;
      var w := if ok then Sweep({d.path}, {d.path}) else Sweep({}, {});
      s := s.(objects := objects, procs := s.procs[d.worker := w]);
      DeletionStep(before, d, ok, effect);
      RecordAmid(before, d.worker, Delete(d.path, ok, effect), listed);
    }

    method Forget(d: Doomed, ghost listed: Listing)
      requires Valid() && ListingHolds(s, listed, hurt) && d.worker in s.procs && s.procs[d.worker] == Sweep({d.path}, {d.path})
      modifies `s, `trace, `hurt, `attempted
      ensures Valid() && ListingHolds(s, listed, hurt) && old(trace) <= trace && s.rows == old(s).rows
      ensures s.procs == old(s).procs[d.worker := Sweep({}, {})]
      ensures s.ledger == old(s).ledger && attempted == old(attempted)
    {
      ghost var before := s;
      s := s.(outbox := s.outbox - {d.path}, procs := s.procs[d.worker := Sweep({}, {})]);
      ForgetStep(before, d);
      RecordAmid(before, d.worker, Acknowledge(d.path), listed);
    }

    method Retire(worker: nat, ghost listed: Listing)
      requires Valid() && ListingHolds(s, listed, hurt) && worker in s.procs && s.procs[worker].Sweep?
      modifies `s, `trace, `hurt, `attempted
      ensures Valid() && ListingHolds(s, listed, hurt) && old(trace) <= trace && s.rows == old(s).rows
      ensures s.procs == old(s).procs - {worker} && s.ledger == old(s).ledger && attempted == old(attempted)
    {
      ghost var before := s;
      s := s.(procs := s.procs - {worker});
      assert s == SweepStep(before, worker, before.procs[worker], GiveUp);
      RecordAmid(before, worker, GiveUp, listed);
    }

    /** One row: without an object it goes, with an object of another size it goes and its object is
        queued, and otherwise it is counted. */
    method CheckRow(a: Artifact, ghost rows: Rows, ghost listed: Listing, ghost done: set<Artifact>,
                    objects: Listing, doomed: seq<Doomed>, count: Tally)
        returns (ok: bool, unclaimed: Listing, queue: seq<Doomed>, tally: Tally)
      requires Valid() && ListingHolds(s, listed, hurt) && Walked(s, rows, listed, done, objects, doomed, count)
      requires a in rows && a !in done
      modifies `s, `trace, `hurt, `attempted, `workers
      ensures Valid() && ListingHolds(s, listed, hurt) && old(trace) <= trace
      ensures Walked(s, rows, listed, if ok then done + {a} else done, unclaimed, queue, tally) && attempted == old(attempted)
      ensures reliable ==> ok
    {
      ok, unclaimed, queue, tally := true, objects, doomed, count;
      ghost var start := s;
      Interfere(listed);
      SameWaiting(start, s, doomed);
      ghost var before := s;
      var entry := s.rows[a];
      var path := PathOf(a, entry.generation);
      assert path in objects <==> path in listed;
      var worker;
      if path !in objects {
        ok, worker := GiveRowUp(a, false, listed);
        if ok {
          RowMissing(before, s, rows, listed, done, objects, doomed, count, a);
        }
      } else if entry.size == 0 || objects[path] != entry.size {
        ok, worker := GiveRowUp(a, true, listed);
        if ok {
          RowGivenUp(before, s, rows, listed, done, objects, doomed, count, a, worker);
          queue, unclaimed := doomed + [Doomed(worker, path)], objects - {path};
        }
      } else {
        RowCounted(s, rows, listed, done, objects, doomed, count, a);
        unclaimed, tally := objects - {path}, count.Count(a.namespace, entry.size);
      }
    }

    /** The objects of the rows given up are deleted, or stay queued. */
    method SweepGivenUp(queue: seq<Doomed>, ghost listed: Listing)
      requires Valid() && ListingHolds(s, listed, hurt) && AllWaiting(s, queue)
      modifies `s, `trace, `hurt, `attempted
      ensures Valid() && ListingHolds(s, listed, hurt) && old(trace) <= trace
      ensures s.rows == old(s).rows && s.ledger == old(s).ledger && attempted == old(attempted) + PathsOf(queue)
    {
      for i := 0 to |queue|
        invariant Valid() && ListingHolds(s, listed, hurt) && old(trace) <= trace
        invariant AllWaiting(s, queue[i..])
        invariant s.rows == old(s).rows && s.ledger == old(s).ledger && attempted == old(attempted) + PathsOf(queue[..i])
      {
        ghost var before := s;
        Interfere(listed);
        assert Waiting(before, queue[i..][0]) && queue[i..][1..] == queue[i + 1..];
        ghost var now := s;
        ProcessDeletionPath(queue[i], listed);
        StillWaiting(now, s, queue[i..]);
        assert queue[..i + 1] == queue[..i] + [queue[i]];
      }
      assert queue[..|queue|] == queue;
    }

    /** The objects nobody refers to are queued and deleted, but for those too young to be given up. */
    method SweepOrphans(unclaimed: Listing, young: set<Path>, ghost listed: Listing) returns (ok: bool)
      requires Valid() && ListingHolds(s, listed, hurt)
      requires forall path | path in unclaimed :: path in listed && !Referenced(s, path)
      modifies `s, `trace, `hurt, `attempted, `workers
      ensures Valid() && ListingHolds(s, listed, hurt) && old(trace) <= trace
      ensures s.rows == old(s).rows && s.ledger == old(s).ledger
      ensures if ok then attempted == old(attempted) + (unclaimed.Keys - young)
              else attempted <= old(attempted) + (unclaimed.Keys - young)
      ensures reliable ==> ok
    {
      ok := true;
      var todo := unclaimed.Keys;
      ghost var before := attempted;
      while todo != {}
        invariant Valid() && ListingHolds(s, listed, hurt) && old(trace) <= trace
        invariant s.rows == old(s).rows && s.ledger == old(s).ledger
        invariant ok && todo <= unclaimed.Keys && attempted == before + (unclaimed.Keys - todo - young)
        decreases todo
      {
        var path :| path in todo;
        OneLess(unclaimed.Keys, todo, young, path);
        ok := SweepOrphan(path, young, listed);
        if !ok {
          return;
        }
        todo := todo - {path};
      }
    }

    method SweepOrphan(path: Path, young: set<Path>, ghost listed: Listing) returns (ok: bool)
      requires Valid() && ListingHolds(s, listed, hurt) && path in listed && !Referenced(s, path)
      modifies `s, `trace, `hurt, `attempted, `workers
      ensures Valid() && ListingHolds(s, listed, hurt) && old(trace) <= trace
      ensures s.rows == old(s).rows && s.ledger == old(s).ledger
      ensures attempted == old(attempted) + (if !ok || path in young then {} else {path})
      ensures reliable ==> ok
    {
      if path in young {
        return true;
      }
      Interfere(listed);
      var worker;
      ok, worker := QueueOrphan(path, listed);
      if ok {
        ProcessDeletionPath(Doomed(worker, path), listed);
      }
    }

    /** One page of rows, in the order of their ids. */
    method CheckPage(page: seq<Artifact>, ghost rows: Rows, ghost listed: Listing, ghost done: set<Artifact>,
                     objects: Listing, doomed: seq<Doomed>, count: Tally)
        returns (ok: bool, unclaimed: Listing, queue: seq<Doomed>, tally: Tally, ghost seen: set<Artifact>)
      requires Valid() && ListingHolds(s, listed, hurt) && Walked(s, rows, listed, done, objects, doomed, count)
      requires NewPage(page, rows, done)
      modifies `s, `trace, `hurt, `attempted, `workers
      ensures Valid() && ListingHolds(s, listed, hurt) && old(trace) <= trace
      ensures Walked(s, rows, listed, seen, unclaimed, queue, tally) && attempted == old(attempted)
      ensures ok ==> seen == done + Elements(page)
      ensures reliable ==> ok
    {
      ok, unclaimed, queue, tally, seen := true, objects, doomed, count, done;
      for i := 0 to |page|
        invariant Valid() && ListingHolds(s, listed, hurt) && old(trace) <= trace
        invariant Walked(s, rows, listed, seen, unclaimed, queue, tally) && attempted == old(attempted)
        invariant ok && seen == done + Elements(page[..i]) && forall k | i <= k < |page| :: page[k] !in seen
      {
        ElementsSoFar(page, i);
        ok, unclaimed, queue, tally := CheckRow(page[i], rows, listed, seen, unclaimed, queue, tally);
        if !ok {
          return;
        }
        seen := seen + {page[i]};
      }
      assert page[..|page|] == page;
    }

    /** The ledger is set to what has been counted. */
    method SetLedger(tally: Tally, ghost listed: Listing)
      requires Valid() && ListingHolds(s, listed, hurt) && OfRows(tally.AsLedger(), s.rows)
      modifies `s, `trace, `hurt, `attempted
      ensures Valid() && ListingHolds(s, listed, hurt) && old(trace) <= trace && attempted == old(attempted)
      ensures s.rows == old(s).rows && s.procs == old(s).procs && s.ledger == tally.AsLedger()
    {
      ghost var before := s;
      RebuiltIsOfRows(s.rows);
      OneLedgerPerRows(tally.AsLedger(), Rebuilt(s.rows), s.rows);
      s := s.(ledger := tally.AsLedger());
      assert s == ReconcileStep(before, workers, Recount);
      RecordAmid(before, workers, Recount, listed);
    }

    /** The service is up. */
    method Start(ghost listed: Listing)
      requires Valid() && ListingHolds(s, listed, hurt) && OfRows(s.ledger, s.rows)
      modifies `s, `trace, `hurt, `attempted
      ensures Recorded() && old(trace) <= trace && s.ready && ListingHolds(s, listed, hurt) && attempted == old(attempted)
      ensures s.rows == old(s).rows && s.ledger == old(s).ledger
    {
      ghost var before := s;
      RebuiltIsOfRows(s.rows);
      OneLedgerPerRows(s.ledger, Rebuilt(s.rows), s.rows);
      s := s.(ready := true);
      assert s == ReconcileStep(before, workers, Event.Start);
      RecordAmid(before, workers, Event.Start, listed);
    }

    /** The page behind the cursor, which may not be readable. */
    method CheckNextPage(order: seq<Artifact>, cursor: nat, ghost rows: Rows, ghost listed: Listing, ghost done: set<Artifact>,
                         objects: Listing, doomed: seq<Doomed>, count: Tally)
        returns (ok: bool, next: nat, unclaimed: Listing, queue: seq<Doomed>, tally: Tally, ghost seen: set<Artifact>)
      requires Valid() && ListingHolds(s, listed, hurt) && Walked(s, rows, listed, done, objects, doomed, count)
      requires Lists(order, rows) && cursor < |order| && done == Elements(order[..cursor])
      modifies `s, `trace, `hurt, `attempted, `workers
      ensures Valid() && ListingHolds(s, listed, hurt) && old(trace) <= trace
      ensures Walked(s, rows, listed, seen, unclaimed, queue, tally) && attempted == old(attempted)
      ensures ok ==> cursor < next <= |order| && seen == Elements(order[..next])
      ensures reliable ==> ok
    {
      next := if cursor + PAGE < |order| then cursor + PAGE else |order|;
      unclaimed, queue, tally, seen := objects, doomed, count, done;
      ok := *;
      ok := ok || reliable;
      if ok {
        PageIsNew(order, cursor, next, rows);
        ok, unclaimed, queue, tally, seen := CheckPage(order[cursor..next], rows, listed, done, objects, doomed, count);
      }
    }

    /** All rows, page by page. */
    method CheckRows(order: seq<Artifact>, ghost rows: Rows, ghost listed: Listing, objects: Listing)
        returns (ok: bool, unclaimed: Listing, queue: seq<Doomed>, tally: Tally, ghost seen: set<Artifact>)
      requires Valid() && ListingHolds(s, listed, hurt) && s.rows == rows && objects == listed
      requires Lists(order, rows)
      modifies `s, `trace, `hurt, `attempted, `workers
      ensures Valid() && ListingHolds(s, listed, hurt) && old(trace) <= trace
      ensures Walked(s, rows, listed, seen, unclaimed, queue, tally) && attempted == old(attempted)
      ensures ok ==> seen == rows.Keys
      ensures reliable ==> ok
    {
      ok, unclaimed, queue, tally, seen := true, objects, [], Tally(map[], 0, 0), {};
      NothingDone(s, rows, listed);
      var cursor := 0;
      while cursor < |order|
        invariant Valid() && ListingHolds(s, listed, hurt) && old(trace) <= trace
        invariant 0 <= cursor <= |order| && seen == Elements(order[..cursor])
        invariant Walked(s, rows, listed, seen, unclaimed, queue, tally) && attempted == old(attempted)
      {
        ok, cursor, unclaimed, queue, tally, seen := CheckNextPage(order, cursor, rows, listed, seen, unclaimed, queue, tally);
        if !ok {
          return;
        }
      }
      ok := true;
      assert order[..cursor] == order;
    }

    method SweepAll(unclaimed: Listing, queue: seq<Doomed>, young: set<Path>, ghost listed: Listing) returns (ok: bool)
      requires Valid() && ListingHolds(s, listed, hurt) && attempted == {} && AllWaiting(s, queue)
      requires forall path | path in unclaimed :: path in listed && !Referenced(s, path)
      modifies `s, `trace, `hurt, `attempted, `workers
      ensures Valid() && ListingHolds(s, listed, hurt) && old(trace) <= trace
      ensures s.rows == old(s).rows && s.ledger == old(s).ledger
      ensures var all := PathsOf(queue) + (unclaimed.Keys - young); if ok then attempted == all else attempted <= all
      ensures reliable ==> ok
    {
      SweepGivenUp(queue, listed);
      ok := SweepOrphans(unclaimed, young, listed);
    }

    /** What follows the walk over the rows. */
    method Complete(unclaimed: Listing, queue: seq<Doomed>, tally: Tally, young: set<Path>, ghost rows: Rows, ghost listed: Listing)
        returns (ok: bool)
      requires Valid() && ListingHolds(s, listed, hurt) && attempted == {}
      requires WalkedAll(s, rows, listed, unclaimed, queue, tally, young)
      modifies `s, `trace, `hurt, `attempted, `workers
      ensures Recorded() && old(trace) <= trace && s.ready == ok && ListingHolds(s, listed, hurt)
      ensures s.rows == old(s).rows && OfRows(s.ledger, s.rows)
      ensures if ok then attempted == ToDelete(rows, listed, young) else attempted <= ToDelete(rows, listed, young)
      ensures reliable ==> ok
    {
      SetLedger(tally, listed);
      SameWaiting(old(s), s, queue);
      ok := SweepAll(unclaimed, queue, young, listed);
      if ok {
        Start(listed);
      }
    }

    /** Reconcile, recorded from its first to its last step as a run of the machine.  When it gets through
        the service is up: exactly the rows that had an object of their size when it listed the objects
        are left, with a ledger of exactly these rows; each of them still has that object unless the run
        has damaged it; and the run has attempted to delete exactly the other objects of the listing, but
        for orphans that are too young.  When it fails, no such row has been given up and nothing else
        has been deleted; with nothing failing, it gets through. */
    method Reconcile(order: seq<Artifact>, young: set<Path>) returns (ok: bool)
      requires Valid() && Lists(order, s.rows)
      modifies this
      ensures origin == old(s) && s == Run(origin, trace) && StoreInv(s) && Books(s) && s.ready == ok
      ensures ok ==> s.rows == GoodRows(old(s).rows, old(s).objects) && OfRows(s.ledger, s.rows)
      ensures forall a | Good(old(s).rows, old(s).objects, a) :: a in s.rows && s.rows[a] == old(s).rows[a]
      ensures ok ==> forall a | a in s.rows :: HasItsObject(s, DamagedIn(old(s), trace), a)
      ensures var due := ToDelete(old(s).rows, old(s).objects, young);
              if ok then DeletionsIn(old(s), trace) == due else DeletionsIn(old(s), trace) <= due
      ensures reliable ==> ok
    {
      ghost var rows, listed := s.rows, s.objects;
      origin, trace, hurt, attempted := s, [], {}, {};
      var readable: bool := *;
      if !readable && !reliable {
        return false;
      }
      Listed();
      var unclaimed, queue, tally;
      ghost var seen;
      ok, unclaimed, queue, tally, seen := CheckRows(order, rows, listed, s.objects);
      if !ok {
        return;
      }
      WalkEnds(s, rows, listed, unclaimed, queue, tally, young);
      ok := Complete(unclaimed, queue, tally, young, rows, listed);
      ObjectsAreThere(s, rows, listed, hurt);
    }

    lemma Listed()
      requires Valid()
      ensures ListingHolds(s, s.objects, {})
    {
      forall path | path in s.objects
        ensures path in s.landed
      {
        assert PathInv(s, path);
      }
    }
  }

  /** The row has an object of its size, or had it until that was damaged. */
  predicate HasItsObject(s: State, hurt: set<Path>, a: Artifact) {
    a in s.rows && s.rows[a].size > 0 &&
    var path := PathOf(a, s.rows[a].generation);
    path in hurt || (path in s.objects && s.objects[path] == s.rows[a].size)
  }

  lemma ObjectsAreThere(s: State, rows: Rows, listed: Listing, hurt: set<Path>)
    requires ListingHolds(s, listed, hurt) && s.rows == GoodRows(rows, listed)
    ensures forall a | a in s.rows :: HasItsObject(s, hurt, a)
  {
    forall a | a in s.rows
      ensures HasItsObject(s, hurt, a)
    {
      assert StillListed(s, listed, hurt, a) && Good(rows, listed, a);
    }
  }

  lemma NothingDone(s: State, rows: Rows, listed: Listing)
    requires s.rows == rows
    ensures Walked(s, rows, listed, {}, listed, [], Tally(map[], 0, 0))
  {
    assert LeftRows(rows, listed, {}) == rows && Kept(rows, listed, {}) == map[];
    RebuiltIsOfRows(map[]);
  }

  lemma EverythingDone(rows: Rows, listed: Listing, seen: set<Artifact>, young: set<Path>)
    requires seen == rows.Keys
    ensures Kept(rows, listed, seen) == LeftRows(rows, listed, seen) == GoodRows(rows, listed)
    ensures GivenUp(rows, listed, seen) + (Unclaimed(rows, listed, seen).Keys - young) == ToDelete(rows, listed, young)
  {
  }

  /** The walk is over: what is left are the good rows, counted; what waits or is unclaimed is the rest. */
  ghost predicate WalkedAll(s: State, rows: Rows, listed: Listing, unclaimed: Listing, queue: seq<Doomed>, tally: Tally,
                            young: set<Path>) {
    s.rows == GoodRows(rows, listed) && AllWaiting(s, queue) && OfRows(tally.AsLedger(), s.rows) &&
    PathsOf(queue) + (unclaimed.Keys - young) == ToDelete(rows, listed, young) &&
    forall path | path in unclaimed :: path in listed && !Referenced(s, path)
  }

  lemma WalkEnds(s: State, rows: Rows, listed: Listing, unclaimed: Listing, queue: seq<Doomed>, tally: Tally, young: set<Path>)
    requires Walked(s, rows, listed, rows.Keys, unclaimed, queue, tally)
    ensures WalkedAll(s, rows, listed, unclaimed, queue, tally, young)
  {
    EverythingDone(rows, listed, rows.Keys, young);
    UnclaimedIsUnreferenced(s, rows, listed);
  }

  lemma UnclaimedIsUnreferenced(s: State, rows: Rows, listed: Listing)
    requires s.rows == GoodRows(rows, listed)
    ensures forall path | path in Unclaimed(rows, listed, rows.Keys) :: path in listed && !Referenced(s, path)
  {
  }

  lemma OneLess(all: set<Path>, todo: set<Path>, young: set<Path>, path: Path)
    requires path in todo && todo <= all
    ensures all - (todo - {path}) - young == (all - todo - young) + (if path in young then {} else {path})
  {
  }

  lemma StillWaiting(s: State, t: State, queue: seq<Doomed>)
    requires queue != [] && AllWaiting(s, queue) && t.procs == s.procs - {queue[0].worker}
    ensures AllWaiting(t, queue[1..])
  {
    forall i | 0 <= i < |queue[1..]|
      ensures Waiting(t, queue[1..][i])
    {
      assert Waiting(s, queue[i + 1]) && queue[i + 1].worker != queue[0].worker;
    }
  }

  lemma DeletionStep(s: State, d: Doomed, ok: bool, effect: bool)
    requires Waiting(s, d)
    ensures Next(s, d.worker, Delete(d.path, ok, effect)) ==
              s.(objects := if ok || effect then s.objects - {d.path} else s.objects,
                 procs := s.procs[d.worker := if ok then Sweep({d.path}, {d.path}) else Sweep({}, {})])
  {
    var w := s.procs[d.worker];
    var none: set<Path> := {};
    assert w.doomed - {d.path} == none && w.deleted - {d.path} == none && w.deleted + {d.path} == {d.path};
  }

  lemma ForgetStep(s: State, d: Doomed)
    requires d.worker in s.procs && s.procs[d.worker] == Sweep({d.path}, {d.path})
    ensures Next(s, d.worker, Acknowledge(d.path)) ==
              s.(outbox := s.outbox - {d.path}, procs := s.procs[d.worker := Sweep({}, {})])
  {
    var w := s.procs[d.worker];
    var none: set<Path> := {};
    assert w.doomed - {d.path} == none && w.deleted - {d.path} == none;
  }
}

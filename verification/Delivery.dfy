/** Resumable pagination over the join of two independently growing logs
    (internal/api/onboarding_delivery.go).

    Rows of either log are added with ids above every id it ever had, and retention may take any rows
    away, at any time between two reads.  Text that is not an encoded cursor is one value. */
module Delivery {
  import opened Wrappers

  const PAGE_SIZE := 64
  const MAX_ID := 9007199254740991  // 2^53 - 1
  const MAX_CURSOR_LENGTH := 1024

  datatype AuditRow = AuditRow(id: nat, requestId: string, ecosystem: string, packageName: string, action: string, createdAt: int)

  datatype AccessRow = AccessRow(id: nat, requestId: string, adapterType: string, packageName: string)

  /** A joined delivery, by the ids of its two rows. */
  datatype Pair = Pair(audit: nat, access: nat)

  datatype Cursor = Cursor(
    version: int, auditAfter: nat, accessAfter: nat, paging: bool,
    auditThrough: nat, accessThrough: nat, lastAudit: nat, lastAccess: nat)

  function Max(a: nat, b: nat): nat {
    if a > b then a else b
  }

  // ---------------------------------------------------------------- cursors as text

  datatype Text = Encoded(cursor: Cursor) | OtherText(length: nat)

  function Digits(n: nat): nat {
    if n < 10 then 1 else 1 + Digits(n / 10)
  }

  /** The length of a JSON field with its comma; zero fields are left out. */
  function FieldLength(name: nat, n: nat): nat {
    if n == 0 then 0 else 1 + name + 3 + Digits(n)
  }

  function JsonLength(c: Cursor): nat {
    2 + 4 + Digits(if c.version < 0 then -c.version else c.version) + (if c.version < 0 then 1 else 0) +
    5 + Digits(c.auditAfter) + 5 + Digits(c.accessAfter) + (if c.paging then 9 else 0) +
    FieldLength(2, c.auditThrough) + FieldLength(2, c.accessThrough) + FieldLength(2, c.lastAudit) + FieldLength(2, c.lastAccess)
  }

  /** The length of the unpadded base64 text of n bytes. */
  function TextLength(text: Text): nat {
    match text
    case Encoded(c) => (JsonLength(c) * 4 + 2) / 3
    case OtherText(length) => length
  }

  predicate IdsFit(c: Cursor) {
    c.auditAfter <= MAX_ID && c.accessAfter <= MAX_ID && c.auditThrough <= MAX_ID && c.accessThrough <= MAX_ID &&
    c.lastAudit <= MAX_ID && c.lastAccess <= MAX_ID
  }

  /** A cursor that stands inside a round stands past what earlier rounds delivered and within the
      round's bounds; between rounds it carries nothing but the two watermarks. */
  predicate WellFormed(c: Cursor) {
    c.version == 1 && IdsFit(c) &&
    if c.paging then
      c.auditThrough >= c.auditAfter && c.accessThrough >= c.accessAfter && c.lastAudit != 0 && c.lastAccess != 0 &&
      c.lastAudit <= c.auditThrough && c.lastAccess <= c.accessThrough &&
      (c.lastAudit > c.auditAfter || c.lastAccess > c.accessAfter)
    else c.auditThrough == 0 && c.accessThrough == 0 && c.lastAudit == 0 && c.lastAccess == 0
  }

  /** parseOnboardingDeliveryCursor */
  method Parse(raw: Text) returns (cursor: Option<Cursor>)
    ensures cursor == (if raw.Encoded? && TextLength(raw) <= MAX_CURSOR_LENGTH && WellFormed(raw.cursor) then Some(raw.cursor) else None)
  {
    if TextLength(raw) == 0 || TextLength(raw) > MAX_CURSOR_LENGTH {
      return None;
    }
    if raw.OtherText? || raw.cursor.version != 1 {
      return None;
    }
    var c := raw.cursor;
    var ids := [c.auditAfter, c.accessAfter, c.auditThrough, c.accessThrough, c.lastAudit, c.lastAccess];
    for i := 0 to 6
      invariant forall j | 0 <= j < i :: ids[j] <= MAX_ID
    {
      if ids[i] > MAX_ID {
        return None;
      }
    }
    assert ids[0] <= MAX_ID && ids[1] <= MAX_ID && ids[2] <= MAX_ID && ids[3] <= MAX_ID && ids[4] <= MAX_ID && ids[5] <= MAX_ID;
    if c.paging {
      if c.auditThrough < c.auditAfter || c.accessThrough < c.accessAfter || c.lastAudit == 0 || c.lastAccess == 0 ||
         c.lastAudit > c.auditThrough || c.lastAccess > c.accessThrough ||
         (c.lastAudit <= c.auditAfter && c.lastAccess <= c.accessAfter) {
        return None;
      }
    } else if c.auditThrough != 0 || c.accessThrough != 0 || c.lastAudit != 0 || c.lastAccess != 0 {
      return None;
    }
    return Some(c);
  }

  lemma {:induction false} DigitsBound(n: nat, k: nat)
    requires n < Power10(k) && k > 0
    ensures Digits(n) <= k
    decreases k
  {
    if n >= 10 {
      DigitsBound(n / 10, k - 1);
    }
  }

  function Power10(k: nat): nat {
    if k == 0 then 1 else 10 * Power10(k - 1)
  }

  /** Every well-formed cursor is short enough to be accepted back. */
  lemma WellFormedIsShort(c: Cursor)
    requires WellFormed(c)
    ensures 0 < TextLength(Encoded(c)) <= MAX_CURSOR_LENGTH
  {
    assert Power10(16) == 10000000000000000 by {
      assert Power10(4) == 10000;
      assert Power10(8) == 10000 * Power10(4);
      assert Power10(12) == 10000 * Power10(8);
      assert Power10(16) == 10000 * Power10(12);
    }
    DigitsBound(c.auditAfter, 16);
    DigitsBound(c.accessAfter, 16);
    DigitsBound(c.auditThrough, 16);
    DigitsBound(c.accessThrough, 16);
    DigitsBound(c.lastAudit, 16);
    DigitsBound(c.lastAccess, 16);
  }

  // ---------------------------------------------------------------- the join

  datatype Logs = Logs(audit: seq<AuditRow>, access: seq<AccessRow>)

  predicate Joins(a: AuditRow, x: AccessRow, startedAt: int) {
    x.requestId == a.requestId && x.adapterType == a.ecosystem && x.packageName == a.packageName &&
    a.requestId != "" && a.packageName != "" && (a.action == "metadata" || a.action == "download") && a.createdAt >= startedAt
  }

  predicate IsPair(logs: Logs, startedAt: int, p: Pair) {
    exists a | a in logs.audit :: PairsWith(a, logs.access, startedAt, p)
  }

  predicate PairsWith(a: AuditRow, access: seq<AccessRow>, startedAt: int, p: Pair) {
    a.id == p.audit && exists x | x in access :: x.id == p.access && Joins(a, x, startedAt)
  }

  predicate Increasing(logs: Logs) {
    (forall i, j | 0 <= i < j < |logs.audit| :: logs.audit[i].id < logs.audit[j].id) &&
    (forall i, j | 0 <= i < j < |logs.access| :: logs.access[i].id < logs.access[j].id)
  }

  predicate Before(p: Pair, q: Pair) {
    p.audit < q.audit || (p.audit == q.audit && p.access < q.access)
  }

  ghost predicate Sorted(pairs: seq<Pair>) {
    forall i, j | 0 <= i < j < |pairs| :: Before(pairs[i], pairs[j])
  }

  function PairsOf(a: AuditRow, access: seq<AccessRow>, startedAt: int): seq<Pair> {
    if access == [] then []
    else (if Joins(a, access[0], startedAt) then [Pair(a.id, access[0].id)] else []) + PairsOf(a, access[1..], startedAt)
  }

  /** The join in the order of the query. */
  function Joined(audit: seq<AuditRow>, access: seq<AccessRow>, startedAt: int): seq<Pair> {
    if audit == [] then [] else PairsOf(audit[0], access, startedAt) + Joined(audit[1..], access, startedAt)
  }

  /** The join condition, field by field: both rows are of one request for one package of one ecosystem, the
      audited action is about metadata or a download, and it is not from before the start. */
  lemma JoinedInFields(audit: seq<AuditRow>, access: seq<AccessRow>, startedAt: int, p: Pair)
    requires Increasing(Logs(audit, access))
    ensures p in Joined(audit, access, startedAt) <==>
              exists a, x | a in audit && x in access ::
                a.id == p.audit && x.id == p.access && x.requestId == a.requestId && a.requestId != "" &&
                x.packageName == a.packageName && a.packageName != "" && x.adapterType == a.ecosystem &&
                a.action in {"metadata", "download"} && a.createdAt >= startedAt
  {
    JoinedIsExact(audit, access, startedAt);
    assert p in Joined(audit, access, startedAt) <==> IsPair(Logs(audit, access), startedAt, p);
    if IsPair(Logs(audit, access), startedAt, p) {
      var a :| a in audit && PairsWith(a, access, startedAt, p);
      var x :| x in access && x.id == p.access && Joins(a, x, startedAt);
    }
    if a, x :| a in audit && x in access &&
               a.id == p.audit && x.id == p.access && x.requestId == a.requestId && a.requestId != "" &&
               x.packageName == a.packageName && a.packageName != "" && x.adapterType == a.ecosystem &&
               a.action in {"metadata", "download"} && a.createdAt >= startedAt {
      assert Joins(a, x, startedAt) && PairsWith(a, access, startedAt, p);
    }
  }

  lemma {:induction false} PairsOfOne(a: AuditRow, access: seq<AccessRow>, startedAt: int)
    requires forall i, j | 0 <= i < j < |access| :: access[i].id < access[j].id
    ensures Sorted(PairsOf(a, access, startedAt))
    ensures forall p :: p in PairsOf(a, access, startedAt) <==>
              PairsWith(a, access, startedAt, p)
  {
    if access != [] {
      PairsOfOne(a, access[1..], startedAt);
      forall p | p in PairsOf(a, access[1..], startedAt)
        ensures Before(Pair(a.id, access[0].id), p)
      {
        var x :| x in access[1..] && x.id == p.access && Joins(a, x, startedAt);
        var i :| 0 <= i < |access[1..]| && access[1..][i] == x;
        assert access[i + 1] == x;
      }
      forall p
        ensures p in PairsOf(a, access, startedAt) <==> PairsWith(a, access, startedAt, p)
      {
        SplitAccess(a, access, startedAt, p);
      }
    }
  }

  lemma SplitAccess(a: AuditRow, access: seq<AccessRow>, startedAt: int, p: Pair)
    requires access != []
    ensures PairsWith(a, access, startedAt, p) <==>
              (p == Pair(a.id, access[0].id) && Joins(a, access[0], startedAt)) || PairsWith(a, access[1..], startedAt, p)
  {
    assert access == [access[0]] + access[1..];
  }

  lemma {:induction false} JoinedIsExact(audit: seq<AuditRow>, access: seq<AccessRow>, startedAt: int)
    requires Increasing(Logs(audit, access))
    ensures Sorted(Joined(audit, access, startedAt))
    ensures forall p :: p in Joined(audit, access, startedAt) <==> IsPair(Logs(audit, access), startedAt, p)
  {
    if audit != [] {
      var rest := audit[1..];
      JoinedIsExact(rest, access, startedAt);
      PairsOfOne(audit[0], access, startedAt);
      forall p
        ensures p in Joined(audit, access, startedAt) <==> IsPair(Logs(audit, access), startedAt, p)
      {
        SplitPair(audit, access, startedAt, p);
      }
      forall p, q | p in PairsOf(audit[0], access, startedAt) && q in Joined(rest, access, startedAt)
        ensures Before(p, q)
      {
        var a :| a in rest && PairsWith(a, access, startedAt, q);
      }
    }
  }

  lemma SplitPair(audit: seq<AuditRow>, access: seq<AccessRow>, startedAt: int, p: Pair)
    requires audit != []
    ensures IsPair(Logs(audit, access), startedAt, p) <==>
              PairsWith(audit[0], access, startedAt, p) || IsPair(Logs(audit[1..], access), startedAt, p)
  {
    var rest := audit[1..];
    if IsPair(Logs(audit, access), startedAt, p) {
      var a :| a in audit && PairsWith(a, access, startedAt, p);
      if a != audit[0] {
        assert a in rest;
      }
    }
    if PairsWith(audit[0], access, startedAt, p) {
      assert audit[0] in Logs(audit, access).audit;
    }
  }

  // ---------------------------------------------------------------- windows

  /** The where clauses of the query. */
  predicate InWindow(c: Cursor, p: Pair) {
    p.audit <= c.auditThrough && p.access <= c.accessThrough && (p.audit > c.auditAfter || p.access > c.accessAfter) &&
    (c.paging ==> p.audit > c.lastAudit || (p.audit == c.lastAudit && p.access > c.lastAccess))
  }

  function Select(pairs: seq<Pair>, c: Cursor): seq<Pair> {
    if pairs == [] then []
    else (if InWindow(c, pairs[0]) then [pairs[0]] else []) + Select(pairs[1..], c)
  }

  lemma {:induction false} SelectIsExact(pairs: seq<Pair>, c: Cursor)
    requires Sorted(pairs)
    ensures Sorted(Select(pairs, c)) && forall p :: p in Select(pairs, c) <==> p in pairs && InWindow(c, p)
  {
    if pairs != [] {
      SelectIsExact(pairs[1..], c);
      assert pairs == [pairs[0]] + pairs[1..];
      forall p | p in Select(pairs[1..], c)
        ensures Before(pairs[0], p)
      {
        var i :| 0 <= i < |pairs[1..]| && pairs[1..][i] == p;
        assert pairs[i + 1] == p;
      }
    }
  }

  /** What a client that holds this cursor has been given. */
  predicate Delivered(c: Cursor, p: Pair) {
    (p.audit <= c.auditAfter && p.access <= c.accessAfter) ||
    (c.paging && p.audit <= c.auditThrough && p.access <= c.accessThrough &&
     (p.audit < c.lastAudit || (p.audit == c.lastAudit && p.access <= c.lastAccess)))
  }

  /** The cursor after a page. */
  function NextCursor(c: Cursor, page: seq<Pair>, hasMore: bool): Cursor
    requires hasMore ==> page != []
  {
    if hasMore then c.(paging := true, lastAudit := page[|page| - 1].audit, lastAccess := page[|page| - 1].access)
    else Cursor(1, c.auditThrough, c.accessThrough, false, 0, 0, 0, 0)
  }

  // ---------------------------------------------------------------- an observation

  predicate PastStart(auditStart: nat, accessStart: nat, p: Pair) {
    p.audit > auditStart || p.access > accessStart
  }

  ghost predicate Distinct(pairs: seq<Pair>) {
    forall i, j | 0 <= i < j < |pairs| :: pairs[i] != pairs[j]
  }

  /** Everything a client has been given so far, from its starting watermarks on: nothing twice,
      nothing the cursor does not account for, and every pair of the logs that it does account for. */
  ghost predicate ExactlyOnce(logs: Logs, startedAt: int, auditStart: nat, accessStart: nat, c: Cursor, given: seq<Pair>) {
    Distinct(given) &&
    (forall p | p in given :: Delivered(c, p) && PastStart(auditStart, accessStart, p)) &&
    (forall p | IsPair(logs, startedAt, p) && Delivered(c, p) && PastStart(auditStart, accessStart, p) :: p in given)
  }

  /** The logs after other requests have written and retention has run: a row is an old one, or its id
      is above every id there ever was. */
  predicate Evolves(logs: Logs, later: Logs, auditTop: nat, accessTop: nat) {
    (forall a | a in later.audit :: a in logs.audit || a.id > auditTop) &&
    (forall x | x in later.access :: x in logs.access || x.id > accessTop)
  }

  ghost predicate CursorInv(c: Cursor, auditStart: nat, accessStart: nat, auditTop: nat, accessTop: nat) {
    auditStart <= c.auditAfter <= auditTop && accessStart <= c.accessAfter <= accessTop &&
    (c.paging ==> c.auditAfter <= c.auditThrough <= auditTop && c.accessAfter <= c.accessThrough <= accessTop)
  }

  /** What has been delivered lies below every bound, so it can not change under the client. */
  lemma GrowthKeepsExactlyOnce(logs: Logs, later: Logs, auditTop: nat, accessTop: nat, startedAt: int,
                               auditStart: nat, accessStart: nat, c: Cursor, given: seq<Pair>)
    requires ExactlyOnce(logs, startedAt, auditStart, accessStart, c, given)
    requires Evolves(logs, later, auditTop, accessTop) && CursorInv(c, auditStart, accessStart, auditTop, accessTop)
    ensures ExactlyOnce(later, startedAt, auditStart, accessStart, c, given)
  {
    forall p | IsPair(later, startedAt, p) && Delivered(c, p)
      ensures IsPair(logs, startedAt, p)
    {
      var a :| a in later.audit && PairsWith(a, later.access, startedAt, p);
      var x :| x in later.access && x.id == p.access && Joins(a, x, startedAt);
      assert a in logs.audit && x in logs.access;
      assert PairsWith(a, logs.access, startedAt, p);
    }
  }

  /** What one page adds to what has been delivered. */
  lemma PageDelivers(selected: seq<Pair>, n: nat, c: Cursor, p: Pair)
    requires n <= |selected| && Sorted(selected) && (n < |selected| ==> n > 0)
    requires forall q | q in selected :: InWindow(c, q)
    requires c.auditAfter <= c.auditThrough && c.accessAfter <= c.accessThrough
    ensures var next := NextCursor(c, selected[..n], n < |selected|);
            (Delivered(c, p) ==> Delivered(next, p)) &&
            (p in selected ==> !Delivered(c, p) && (Delivered(next, p) <==> p in selected[..n])) &&
            (Delivered(next, p) ==> Delivered(c, p) || InWindow(c, p))
  {
    var next := NextCursor(c, selected[..n], n < |selected|);
    if n < |selected| {
      assert selected[..n][n - 1] == selected[n - 1] && selected[n - 1] in selected;
      if p in selected {
        var i :| 0 <= i < |selected| && selected[i] == p;
        if i < n {
          assert selected[..n][i] == p;
        } else {
          assert Before(selected[n - 1], p);
          assert forall j | 0 <= j < n :: selected[..n][j] == selected[j] && Before(selected[j], p);
        }
      }
    } else {
      assert selected[..n] == selected;
    }
  }

  /** A page keeps delivery exactly-once. */
  lemma PageKeepsExactlyOnce(logs: Logs, startedAt: int, auditStart: nat, accessStart: nat, c: Cursor, given: seq<Pair>,
                             selected: seq<Pair>, n: nat)
    requires ExactlyOnce(logs, startedAt, auditStart, accessStart, c, given)
    requires n <= |selected| && Sorted(selected) && (n < |selected| ==> n > 0)
    requires forall p :: p in selected <==> IsPair(logs, startedAt, p) && InWindow(c, p)
    requires auditStart <= c.auditAfter <= c.auditThrough && accessStart <= c.accessAfter <= c.accessThrough
    ensures ExactlyOnce(logs, startedAt, auditStart, accessStart, NextCursor(c, selected[..n], n < |selected|), given + selected[..n])
  {
    var next, page := NextCursor(c, selected[..n], n < |selected|), selected[..n];
    forall p
      ensures p in given ==> Delivered(next, p)
      ensures p in page ==> !Delivered(c, p) && Delivered(next, p) && PastStart(auditStart, accessStart, p)
      ensures IsPair(logs, startedAt, p) && Delivered(next, p) && PastStart(auditStart, accessStart, p) ==> p in given + page
    {
      PageDelivers(selected, n, c, p);
      assert p in page ==> p in selected;
    }
    forall i, j | 0 <= i < j < |given + page|
      ensures (given + page)[i] != (given + page)[j]
    {
      if i >= |given| {
        assert Before(selected[i - |given|], selected[j - |given|]);
      } else if j >= |given| {
        assert page[j - |given|] in page && given[i] in given;
      }
    }
  }

  /** A cursor the server emits parses back to itself exactly if the bounds of its round fit the numbers
      of a browser, 53 bits. */
  lemma EmittedCursorIsWellFormed(c: Cursor, selected: seq<Pair>, n: nat)
    requires n <= |selected| && Sorted(selected) && (n < |selected| ==> n > 0)
    requires forall q | q in selected :: InWindow(c, q) && q.audit > 0 && q.access > 0
    requires c.version == 1 && c.auditAfter <= c.auditThrough && c.accessAfter <= c.accessThrough
    ensures var next := NextCursor(c, selected[..n], n < |selected|);
            (WellFormed(next) <==> c.auditThrough <= MAX_ID && c.accessThrough <= MAX_ID) &&
            next.auditAfter >= c.auditAfter && next.accessAfter >= c.accessAfter
  {
    if n < |selected| {
      assert selected[..n][n - 1] == selected[n - 1] && selected[n - 1] in selected;
    }
  }

  /** The first id that does not fit: at the end of a round with this bound the server emits a cursor that
      it refuses, whatever the client has been given. */
  lemma SomeCursorIsRefused(c: Cursor)
    requires c.version == 1 && c.auditAfter <= c.auditThrough && c.accessAfter <= c.accessThrough
    requires c.auditThrough == MAX_ID + 1
    ensures !WellFormed(NextCursor(c, [], false)) && NextCursor(c, [], false).auditAfter == 0x20_0000_0000_0000
  {
    EmittedCursorIsWellFormed(c, [], 0);
  }

  /** The cursor with the bounds of its round: those it carries, or those a new round takes. */
  function InRound(c: Cursor, auditMax: nat, accessMax: nat): Cursor {
    if c.paging then c
    else c.(auditThrough := Max(c.auditAfter, auditMax), accessThrough := Max(c.accessAfter, accessMax))
  }

  /** Every pair within these bounds that the client is owed has been given. */
  ghost predicate AllGiven(logs: Logs, startedAt: int, auditStart: nat, accessStart: nat, given: seq<Pair>, audit: nat, access: nat) {
    forall p | IsPair(logs, startedAt, p) && p.audit <= audit && p.access <= access && PastStart(auditStart, accessStart, p) ::
      p in given
  }

  /** The pages of a round under way are in order, and the cursor stands at the last pair of them. */
  ghost predicate RoundInv(c: Cursor, round: seq<Pair>) {
    Sorted(round) && (c.paging ==> round != [] && round[|round| - 1] == Pair(c.lastAudit, c.lastAccess))
  }

  lemma RoundGoesOn(round: seq<Pair>, page: seq<Pair>)
    requires Sorted(round) && Sorted(page)
    requires round != [] ==> forall p | p in page :: Before(round[|round| - 1], p)
    ensures Sorted(round + page)
  {
    var all := round + page;
    forall i, j | 0 <= i < j < |all|
      ensures Before(all[i], all[j])
    {
      if i < |round| <= j {
        assert all[j] in page && Before(round[|round| - 1], all[j]);
      }
    }
  }

  /** An observation: the logs with the highest id each ever gave out, the cursor the client holds, what
      it has been given, and how much of that in the round under way or last ended. */
  class Observation {
    const startedAt: int
    var logs: Logs
    var cursor: Cursor
    var auditTop: nat
    var accessTop: nat
    ghost const auditStart: nat
    ghost const accessStart: nat
    ghost var given: seq<Pair>
    ghost var round: seq<Pair>

    ghost predicate LogsInv()
      reads this
    {
      Increasing(logs) && auditTop <= MAX_ID && accessTop <= MAX_ID &&
      (forall a | a in logs.audit :: 0 < a.id <= auditTop) && (forall x | x in logs.access :: 0 < x.id <= accessTop)
    }

    ghost predicate Valid()
      reads this
    {
      LogsInv() && WellFormed(cursor) && CursorInv(cursor, auditStart, accessStart, auditTop, accessTop) &&
      ExactlyOnce(logs, startedAt, auditStart, accessStart, cursor, given) && RoundInv(cursor, round)
    }

    /** The first request of a client: it is given nothing, and a cursor at the present ends. */
    constructor (now: Logs, started: int, auditMax: nat, audit: nat, access: nat)
      requires Increasing(now) && auditMax <= audit <= MAX_ID && access <= MAX_ID
      requires forall a | a in now.audit :: 0 < a.id <= audit
      requires forall x | x in now.access :: 0 < x.id <= access
      ensures Valid() && given == [] && logs == now && startedAt == started
      ensures auditStart == auditMax && accessStart == MaxAccessId(now.access)
    {
      startedAt, logs, auditTop, accessTop := started, now, audit, access;
      cursor := Cursor(1, auditMax, MaxAccessId(now.access), false, 0, 0, 0, 0);
      auditStart, accessStart := auditMax, MaxAccessId(now.access);
      given, round := [], [];
      new;
      forall p | IsPair(logs, startedAt, p) && Delivered(cursor, p)
        ensures !PastStart(auditStart, accessStart, p)
      {
      }
    }

    /** Other requests write and retention runs. */
    method Evolve(later: Logs, audit: nat, access: nat)
      requires Valid() && Increasing(later) && Evolves(logs, later, auditTop, accessTop)
      requires auditTop <= audit <= MAX_ID && accessTop <= access <= MAX_ID
      requires forall a | a in later.audit :: 0 < a.id <= audit
      requires forall x | x in later.access :: 0 < x.id <= access
      modifies `logs, `auditTop, `accessTop
      ensures Valid() && logs == later && auditTop == audit && accessTop == access
    {
      GrowthKeepsExactlyOnce(logs, later, auditTop, accessTop, startedAt, auditStart, accessStart, cursor, given);
      logs, auditTop, accessTop := later, audit, access;
    }

    /** deliveryPage, for the cursor the client holds; the two maxima were read earlier in the request. */
    method DeliveryPage(auditMax: nat, accessMax: nat) returns (page: seq<Pair>, next: Cursor, hasMore: bool)
      requires Valid() && auditMax <= auditTop && accessMax <= accessTop
      modifies `cursor, `given, `round
      ensures Valid() && given == old(given) + page && next == cursor && WellFormed(next)
      ensures round == (if old(cursor).paging then old(round) else []) + page && Sorted(round)
      ensures next.auditAfter >= old(cursor).auditAfter && next.accessAfter >= old(cursor).accessAfter
      ensures var c := InRound(old(cursor), auditMax, accessMax);
              (forall p | p in page :: IsPair(logs, startedAt, p) && InWindow(c, p)) &&
              if hasMore then
                |page| == PAGE_SIZE && next.paging && next == NextCursor(c, page, true)
              else
                |page| <= PAGE_SIZE && next == Cursor(1, c.auditThrough, c.accessThrough, false, 0, 0, 0, 0) &&
                AllGiven(logs, startedAt, auditStart, accessStart, given, c.auditThrough, c.accessThrough)
    {
      var c := cursor;
      if !c.paging {  // a round's bounds are taken when it starts, and never below the watermarks
        c := c.(auditThrough := Max(c.auditAfter, auditMax), accessThrough := Max(c.accessAfter, accessMax));
      }
      SelectedIsExact(logs, startedAt, c);
      var selected := Selected(logs, startedAt, c);
      var rows := if |selected| > PAGE_SIZE + 1 then selected[..PAGE_SIZE + 1] else selected;
      hasMore := |rows| > PAGE_SIZE;
      var n := if hasMore then PAGE_SIZE else |selected|;
      page := rows[..n];
      assert page == selected[..n];
      next := NextCursor(c, page, hasMore);
      RoundIsServed(logs, startedAt, auditStart, accessStart, auditTop, accessTop, cursor, c, given, selected, n);
      RoundGoesOn(if cursor.paging then round else [], page);
      round := (if cursor.paging then round else []) + page;
      cursor, given := next, given + page;
    }
  }

  function Selected(logs: Logs, startedAt: int, c: Cursor): seq<Pair> {
    Select(Joined(logs.audit, logs.access, startedAt), c)
  }

  lemma SelectedIsExact(logs: Logs, startedAt: int, c: Cursor)
    requires Increasing(logs)
    ensures Sorted(Selected(logs, startedAt, c))
    ensures forall p :: p in Selected(logs, startedAt, c) <==> IsPair(logs, startedAt, p) && InWindow(c, p)
  {
    JoinedIsExact(logs.audit, logs.access, startedAt);
    SelectIsExact(Joined(logs.audit, logs.access, startedAt), c);
  }

  /** Serving one page of a round whose bounds have been taken. */
  lemma RoundIsServed(logs: Logs, startedAt: int, auditStart: nat, accessStart: nat, auditTop: nat, accessTop: nat,
                      before: Cursor, c: Cursor, given: seq<Pair>, selected: seq<Pair>, n: nat)
    requires WellFormed(before) && CursorInv(before, auditStart, accessStart, auditTop, accessTop)
    requires ExactlyOnce(logs, startedAt, auditStart, accessStart, before, given)
    requires before.paging ==> c == before
    requires !before.paging ==> c == before.(auditThrough := c.auditThrough, accessThrough := c.accessThrough)
    requires c.auditAfter <= c.auditThrough <= auditTop <= MAX_ID && c.accessAfter <= c.accessThrough <= accessTop <= MAX_ID
    requires n <= |selected| && Sorted(selected) && (n < |selected| ==> n > 0)
    requires forall p :: p in selected <==> IsPair(logs, startedAt, p) && InWindow(c, p)
    requires forall a | a in logs.audit :: 0 < a.id <= auditTop
    requires forall x | x in logs.access :: 0 < x.id <= accessTop
    ensures var page := selected[..n];
            var next := NextCursor(c, page, n < |selected|);
            WellFormed(next) && CursorInv(next, auditStart, accessStart, auditTop, accessTop) &&
            ExactlyOnce(logs, startedAt, auditStart, accessStart, next, given + page) && Sorted(page) &&
            next.auditAfter >= before.auditAfter && next.accessAfter >= before.accessAfter &&
            (before.paging ==> forall p | p in page :: Before(Pair(before.lastAudit, before.lastAccess), p))
  {
    BoundedDeliversTheSame(before, c);
    forall p | p in selected
      ensures p.audit > 0 && p.access > 0 && InWindow(c, p)
    {
      var a :| a in logs.audit && PairsWith(a, logs.access, startedAt, p);
    }
    PageKeepsExactlyOnce(logs, startedAt, auditStart, accessStart, c, given, selected, n);
    EmittedCursorIsWellFormed(c, selected, n);
    forall p | p in selected[..n]
      ensures p in selected
    {
    }
  }

  lemma BoundedDeliversTheSame(c: Cursor, bounded: Cursor)
    requires bounded == c || (!c.paging && bounded == c.(auditThrough := bounded.auditThrough, accessThrough := bounded.accessThrough))
    ensures forall p :: Delivered(c, p) == Delivered(bounded, p)
  {
  }

  function MaxAuditId(rows: seq<AuditRow>): (m: nat)
    ensures forall a | a in rows :: a.id <= m
    ensures rows == [] ==> m == 0
    ensures rows != [] ==> exists a | a in rows :: a.id == m
  {
    if rows == [] then 0 else if |rows| == 1 then rows[0].id else Max(rows[0].id, MaxAuditId(rows[1..]))
  }

  function MaxAccessId(rows: seq<AccessRow>): (m: nat)
    ensures forall x | x in rows :: x.id <= m
    ensures rows == [] ==> m == 0
    ensures rows != [] ==> exists x | x in rows :: x.id == m
  {
    if rows == [] then 0 else if |rows| == 1 then rows[0].id else Max(rows[0].id, MaxAccessId(rows[1..]))
  }

  // ---------------------------------------------------------------- whole runs

  /** Every pair of rows with ids up to these bounds that is there has been given. */
  ghost predicate AllUpTo(o: Observation, audit: nat, access: nat)
    reads o
  {
    AllGiven(o.logs, o.startedAt, o.auditStart, o.accessStart, o.given, audit, access)
  }

  /** The round of this cursor takes in every pair of these logs with ids up to these bounds. */
  ghost predicate Covers(c: Cursor, logs: Logs, startedAt: int, audit: nat, access: nat) {
    forall p | IsPair(logs, startedAt, p) && p.audit <= audit && p.access <= access ::
      p.audit <= c.auditThrough && p.access <= c.accessThrough
  }

  /** Rows with ids up to the highest ids there ever were are not added any more. */
  lemma WasAPair(logs: Logs, later: Logs, auditTop: nat, accessTop: nat, startedAt: int, p: Pair)
    requires Evolves(logs, later, auditTop, accessTop) && p.audit <= auditTop && p.access <= accessTop
    requires IsPair(later, startedAt, p)
    ensures IsPair(logs, startedAt, p)
  {
    var a :| a in later.audit && PairsWith(a, later.access, startedAt, p);
    var x :| x in later.access && x.id == p.access && Joins(a, x, startedAt);
    assert PairsWith(a, logs.access, startedAt, p);
  }

  lemma CoversLater(c: Cursor, logs: Logs, later: Logs, auditTop: nat, accessTop: nat, startedAt: int, audit: nat, access: nat)
    requires Evolves(logs, later, auditTop, accessTop) && audit <= auditTop && access <= accessTop
    requires Covers(c, logs, startedAt, audit, access)
    ensures Covers(c, later, startedAt, audit, access)
  {
    forall p | IsPair(later, startedAt, p) && p.audit <= audit && p.access <= access
      ensures p.audit <= c.auditThrough && p.access <= c.accessThrough
    {
      WasAPair(logs, later, auditTop, accessTop, startedAt, p);
    }
  }

  lemma GivenLater(logs: Logs, later: Logs, auditTop: nat, accessTop: nat, startedAt: int, auditStart: nat, accessStart: nat,
                   given: seq<Pair>, more: seq<Pair>, audit: nat, access: nat)
    requires Evolves(logs, later, auditTop, accessTop) && audit <= auditTop && access <= accessTop
    requires AllGiven(logs, startedAt, auditStart, accessStart, given, audit, access)
    ensures AllGiven(later, startedAt, auditStart, accessStart, given + more, audit, access)
  {
    forall p | IsPair(later, startedAt, p) && p.audit <= audit && p.access <= access && PastStart(auditStart, accessStart, p)
      ensures p in given + more
    {
      WasAPair(logs, later, auditTop, accessTop, startedAt, p);
    }
  }

  lemma EvolvesTwice(a: Logs, b: Logs, c: Logs, auditTop: nat, accessTop: nat, auditNow: nat, accessNow: nat)
    requires Evolves(a, b, auditTop, accessTop) && Evolves(b, c, auditNow, accessNow)
    requires auditTop <= auditNow && accessTop <= accessNow
    ensures Evolves(a, c, auditTop, accessTop)
  {
  }

  /** How much of the round under way is still to be given. */
  ghost function Remaining(o: Observation): nat
    reads o
  {
    |Selected(o.logs, o.startedAt, o.cursor)|
  }

  /** One poll: the two reads of the maxima, and the page, with other requests in between.  A round that
      it begins takes in every pair that was there at the start; a round that it continues keeps its
      bounds and has less left; and a round that it ends has given everything within its bounds. */
  method Request(o: Observation) returns (page: seq<Pair>, hasMore: bool)
    requires o.Valid()
    modifies o
    ensures o.Valid() && o.given == old(o.given) + page && (hasMore <==> o.cursor.paging) && (hasMore ==> |page| == PAGE_SIZE)
    ensures o.cursor.auditAfter >= old(o.cursor).auditAfter && o.cursor.accessAfter >= old(o.cursor).accessAfter
    ensures Evolves(old(o.logs), o.logs, old(o.auditTop), old(o.accessTop))
    ensures o.auditTop >= old(o.auditTop) && o.accessTop >= old(o.accessTop)
    ensures old(o.cursor).paging ==>
              if hasMore then
                o.cursor.auditThrough == old(o.cursor).auditThrough && o.cursor.accessThrough == old(o.cursor).accessThrough &&
                Remaining(o) < old(Remaining(o))
              else AllUpTo(o, old(o.cursor).auditThrough, old(o.cursor).accessThrough)
    ensures !old(o.cursor).paging ==>
              if hasMore then Covers(o.cursor, o.logs, o.startedAt, old(o.auditTop), old(o.accessTop))
              else AllUpTo(o, old(o.auditTop), old(o.accessTop))
  {
    ghost var before, auditTop, accessTop := o.logs, o.auditTop, o.accessTop;
    var auditMax := MaxAuditId(o.logs.audit);
    OthersWrite(o);
    ghost var between := o.logs;
    var accessMax := MaxAccessId(o.logs.access);
    OthersWrite(o);
    WellFormedIsShort(o.cursor);
    var parsed := Parse(Encoded(o.cursor));
    assert parsed == Some(o.cursor);
    ghost var c := InRound(o.cursor, auditMax, accessMax);
    EvolvesTwice(before, between, o.logs, auditTop, accessTop, auditTop, accessTop);
    if !o.cursor.paging {
      BoundsAreTaken(before, between, o.logs, auditTop, accessTop, o.startedAt, o.cursor, auditMax, accessMax);
    }
    var next;
    page, next, hasMore := o.DeliveryPage(auditMax, accessMax);
    if hasMore && c.paging {
      LessRemains(before, o.logs, auditTop, accessTop, o.startedAt, c, page);
    }
  }

  /** The maxima that a round takes as its bounds, read one after the other, take in what was there before. */
  lemma BoundsAreTaken(before: Logs, between: Logs, now: Logs, auditTop: nat, accessTop: nat, startedAt: int, c: Cursor,
                       auditMax: nat, accessMax: nat)
    requires Evolves(before, now, auditTop, accessTop) && Evolves(between, now, auditTop, accessTop) && !c.paging
    requires (forall a | a in before.audit :: a.id <= auditMax) && (forall x | x in between.access :: x.id <= accessMax)
    ensures Covers(InRound(c, auditMax, accessMax), now, startedAt, auditTop, accessTop)
  {
    forall p | IsPair(now, startedAt, p) && p.audit <= auditTop && p.access <= accessTop
      ensures p.audit <= auditMax && p.access <= accessMax
    {
      var a :| a in now.audit && PairsWith(a, now.access, startedAt, p);
    }
  }

  function Elements(pairs: seq<Pair>): set<Pair> {
    set p | p in pairs
  }

  lemma {:induction false} SortedSize(pairs: seq<Pair>)
    requires Sorted(pairs)
    ensures |Elements(pairs)| == |pairs|
  {
    if pairs != [] {
      SortedSize(pairs[1..]);
      assert Elements(pairs) == Elements(pairs[1..]) + {pairs[0]};
    }
  }

  lemma SubsetSize(a: set<Pair>, b: set<Pair>)
    requires a <= b
    ensures |a| <= |b|
  {
    if a != {} {
      var x :| x in a;
      SubsetSize(a - {x}, b - {x});
    }
  }

  /** A page leaves less of its round, and what others write in the meantime adds nothing to it. */
  lemma LessRemains(before: Logs, now: Logs, auditTop: nat, accessTop: nat, startedAt: int, c: Cursor, page: seq<Pair>)
    requires Increasing(before) && Increasing(now) && Evolves(before, now, auditTop, accessTop)
    requires c.paging && c.auditThrough <= auditTop && c.accessThrough <= accessTop
    requires page != [] && forall p | p in page :: IsPair(now, startedAt, p) && InWindow(c, p)
    ensures |Selected(now, startedAt, NextCursor(c, page, true))| < |Selected(before, startedAt, c)|
  {
    var next, last := NextCursor(c, page, true), page[|page| - 1];
    var left, earlier := Selected(now, startedAt, next), Selected(before, startedAt, c);
    SelectedIsExact(now, startedAt, next);
    SelectedIsExact(before, startedAt, c);
    assert last in page;
    WasAPair(before, now, auditTop, accessTop, startedAt, last);
    forall p | p in left
      ensures p in earlier && p != last
    {
      assert InWindow(next, p) && Before(last, p) && Before(Pair(c.lastAudit, c.lastAccess), last);
      WasAPair(before, now, auditTop, accessTop, startedAt, p);
    }
    SortedSize(left);
    SortedSize(earlier);
    SubsetSize(Elements(left) + {last}, Elements(earlier));
  }

  /** What one poll does to the claims about pairs with ids up to these bounds. */
  lemma RoundsSoFar(o: Observation, before: Logs, cursor: Cursor, given: seq<Pair>, page: seq<Pair>, auditTop: nat, accessTop: nat,
                    audit: nat, access: nat, begun: bool, done: bool)
    requires Evolves(before, o.logs, auditTop, accessTop) && audit <= auditTop && access <= accessTop && o.given == given + page
    requires cursor.paging && o.cursor.paging ==>
               o.cursor.auditThrough == cursor.auditThrough && o.cursor.accessThrough == cursor.accessThrough
    requires cursor.paging && !o.cursor.paging ==> AllUpTo(o, cursor.auditThrough, cursor.accessThrough)
    requires !cursor.paging && o.cursor.paging ==> Covers(o.cursor, o.logs, o.startedAt, auditTop, accessTop)
    requires !cursor.paging && !o.cursor.paging ==> AllUpTo(o, auditTop, accessTop)
    requires cursor.paging && begun ==> Covers(cursor, before, o.startedAt, audit, access)
    requires done ==> AllGiven(before, o.startedAt, o.auditStart, o.accessStart, given, audit, access)
    ensures o.cursor.paging && (begun || !cursor.paging) ==> Covers(o.cursor, o.logs, o.startedAt, audit, access)
    ensures done || (!o.cursor.paging && (begun || !cursor.paging)) ==> AllUpTo(o, audit, access)
  {
    if done {
      GivenLater(before, o.logs, auditTop, accessTop, o.startedAt, o.auditStart, o.accessStart, given, page, audit, access);
    }
    if cursor.paging && begun {
      CoversLater(cursor, before, o.logs, auditTop, accessTop, o.startedAt, audit, access);
    }
  }

  lemma OldPairsAreLow(logs: Logs, auditTop: nat, accessTop: nat, startedAt: int)
    requires (forall a | a in logs.audit :: a.id <= auditTop) && (forall x | x in logs.access :: x.id <= accessTop)
    ensures forall p | IsPair(logs, startedAt, p) :: p.audit <= auditTop && p.access <= accessTop
  {
    forall p | IsPair(logs, startedAt, p)
      ensures p.audit <= auditTop && p.access <= accessTop
    {
      var a :| a in logs.audit && PairsWith(a, logs.access, startedAt, p);
    }
  }

  /** One poll, and what it does to the claims about pairs with ids up to these bounds. */
  method PollOnce(o: Observation, ghost audit: nat, ghost access: nat, begun: bool, done: bool)
      returns (page: seq<Pair>, hasMore: bool)
    requires o.Valid() && audit <= o.auditTop && access <= o.accessTop
    requires o.cursor.paging && begun ==> Covers(o.cursor, o.logs, o.startedAt, audit, access)
    requires done ==> AllUpTo(o, audit, access)
    modifies o
    ensures o.Valid() && o.given == old(o.given) + page && audit <= o.auditTop && access <= o.accessTop
    ensures o.cursor.auditAfter >= old(o.cursor).auditAfter && o.cursor.accessAfter >= old(o.cursor).accessAfter
    ensures hasMore <==> o.cursor.paging
    ensures o.cursor.paging && (begun || !old(o.cursor).paging) ==> Covers(o.cursor, o.logs, o.startedAt, audit, access)
    ensures done || (!o.cursor.paging && (begun || !old(o.cursor).paging)) ==> AllUpTo(o, audit, access)
  {
    ghost var before, cursor, given, auditTop, accessTop := o.logs, o.cursor, o.given, o.auditTop, o.accessTop;
    page, hasMore := Request(o);
    RoundsSoFar(o, before, cursor, given, page, auditTop, accessTop, audit, access, begun, done);
  }

  /** Any number of polls, over logs that change between and during them.  Nothing is given twice; and as
      soon as one round, of however many pages, has been begun and ended, every pair that was there at
      the start and still is has been given. */
  method Poll(o: Observation, polls: nat) returns (received: seq<Pair>, whole: nat)
    requires o.Valid()
    modifies o
    ensures o.Valid() && o.given == old(o.given) + received && Distinct(o.given)
    ensures o.cursor.auditAfter >= old(o.cursor).auditAfter && o.cursor.accessAfter >= old(o.cursor).accessAfter
    ensures polls > 0 && !old(o.cursor).paging && !o.cursor.paging ==> whole > 0
    ensures whole > 0 ==>
              forall p | IsPair(old(o.logs), o.startedAt, p) && IsPair(o.logs, o.startedAt, p) &&
                         PastStart(o.auditStart, o.accessStart, p) :: p in o.given
  {
    received, whole := [], 0;
    ghost var audit, access := o.auditTop, o.accessTop;
    var begun := !o.cursor.paging;
    for i := 0 to polls
      invariant o.Valid() && o.given == old(o.given) + received && audit <= o.auditTop && access <= o.accessTop
      invariant o.cursor.auditAfter >= old(o.cursor).auditAfter && o.cursor.accessAfter >= old(o.cursor).accessAfter
      invariant o.cursor.paging && begun ==> Covers(o.cursor, o.logs, o.startedAt, audit, access)
      invariant !o.cursor.paging ==> begun
      invariant i > 0 && !old(o.cursor).paging && !o.cursor.paging ==> whole > 0
      invariant !old(o.cursor).paging ==> begun
      invariant whole > 0 ==> AllUpTo(o, audit, access)
    {
      var page, hasMore := PollOnce(o, audit, access, begun, whole > 0);
      var ended := !hasMore;
      received := received + page;
      if ended && begun {
        whole := whole + 1;
      }
      begun := begun || ended;
    }
    OldPairsAreLow(old(o.logs), audit, access, o.startedAt);
  }

  /** A client that catches up: it ends the round under way, and then begins and ends one more.  It always
      comes to an end, whatever others write, and then every pair that was there at the start and still
      is has been given. */
  method CatchUp(o: Observation) returns (received: seq<Pair>)
    requires o.Valid()
    modifies o
    ensures o.Valid() && o.given == old(o.given) + received && Distinct(o.given) && !o.cursor.paging
    ensures forall p | IsPair(old(o.logs), o.startedAt, p) && IsPair(o.logs, o.startedAt, p) &&
                       PastStart(o.auditStart, o.accessStart, p) :: p in o.given
  {
    received := [];
    ghost var audit, access := o.auditTop, o.accessTop;
    var page: seq<Pair>, hasMore := [], o.cursor.paging;
    while hasMore
      invariant o.Valid() && o.given == old(o.given) + received && audit <= o.auditTop && access <= o.accessTop
      invariant hasMore <==> o.cursor.paging
      decreases hasMore, Remaining(o)
    {
      page, hasMore := Request(o);
      received := received + page;
    }
    page, hasMore := EndRound(o, audit, access);
    received := received + page;
    OldPairsAreLow(old(o.logs), audit, access, o.startedAt);
  }

  /** A round begun and ended. */
  method EndRound(o: Observation, ghost audit: nat, ghost access: nat) returns (received: seq<Pair>, hasMore: bool)
    requires o.Valid() && !o.cursor.paging && audit <= o.auditTop && access <= o.accessTop
    modifies o
    ensures o.Valid() && o.given == old(o.given) + received && !hasMore && !o.cursor.paging && AllUpTo(o, audit, access)
  {
    ghost var before, cursor, given, auditTop, accessTop := o.logs, o.cursor, o.given, o.auditTop, o.accessTop;
    received, hasMore := Request(o);
    RoundsSoFar(o, before, cursor, given, received, auditTop, accessTop, audit, access, false, false);
    while hasMore
      invariant o.Valid() && o.given == old(o.given) + received && audit <= o.auditTop && access <= o.accessTop
      invariant hasMore <==> o.cursor.paging
      invariant if hasMore then Covers(o.cursor, o.logs, o.startedAt, audit, access) else AllUpTo(o, audit, access)
      decreases hasMore, Remaining(o)
    {
      var page;
      page, hasMore := NextPage(o, audit, access);
      received := received + page;
    }
  }

  /** One more page of a round. */
  method NextPage(o: Observation, ghost audit: nat, ghost access: nat) returns (page: seq<Pair>, hasMore: bool)
    requires o.Valid() && o.cursor.paging && audit <= o.auditTop && access <= o.accessTop
    requires Covers(o.cursor, o.logs, o.startedAt, audit, access)
    modifies o
    ensures o.Valid() && o.given == old(o.given) + page && (hasMore <==> o.cursor.paging)
    ensures audit <= o.auditTop && access <= o.accessTop && (hasMore ==> Remaining(o) < old(Remaining(o)))
    ensures if hasMore then Covers(o.cursor, o.logs, o.startedAt, audit, access) else AllUpTo(o, audit, access)
  {
    ghost var before, cursor, given, auditTop, accessTop := o.logs, o.cursor, o.given, o.auditTop, o.accessTop;
    page, hasMore := Request(o);
    RoundsSoFar(o, before, cursor, given, page, auditTop, accessTop, audit, access, true, false);
  }

  /** Any change of the logs that other requests and retention can make. */
  method OthersWrite(o: Observation)
    requires o.Valid()
    modifies o
    ensures o.Valid() && o.cursor == old(o.cursor) && o.given == old(o.given) && o.round == old(o.round)
    ensures o.auditTop >= old(o.auditTop) && o.accessTop >= old(o.accessTop)
    ensures Evolves(old(o.logs), o.logs, old(o.auditTop), old(o.accessTop))
  {
    var later: Logs, audit: nat, access: nat := *, *, *;
    if Increasing(later) && Evolves(o.logs, later, o.auditTop, o.accessTop) &&
       o.auditTop <= audit <= MAX_ID && o.accessTop <= access <= MAX_ID &&
       (forall a | a in later.audit :: 0 < a.id <= audit) && (forall x | x in later.access :: 0 < x.id <= access) {
      o.Evolve(later, audit, access);
    }
  }
}

/** The hash chain over the audit log and the checkpoints that pin it
    (internal/audit/chain.go, internal/audit/anchor.go).

    A chain hash is an injective function of the previous hash and the row's content, and is never
    empty; a stored hash may be any text.  Other writers append between any two steps of an append. */
module AuditChain {
  import opened Wrappers

  /** What a row says.  The id and the row's own hashes are not part of it; createdAt is the instant. */
  datatype Content = Content(
    ecosystem: string, packageName: string, version: string, action: string, cacheResult: string,
    clientIP: string, userAgent: string, upstreamURL: string,
    latencyMs: int, bytesSent: int, statusCode: int, createdAt: int, requestID: string)

  /** A stored hash: the empty text, a chain hash, or any other text. */
  datatype Hash = Empty | Digest(prev: Hash, content: Content) | Text(text: string)

  datatype Row = Row(id: nat, content: Content, prev: Option<Hash>, hash: Hash)

  /** ComputeAuditHash */
  function ComputeHash(prev: Hash, content: Content): Hash {
    Digest(prev, content)
  }

  function PrevOf(r: Row): Hash {
    if r.prev.None? then Empty else r.prev.value
  }

  function HeadHash(rows: seq<Row>): Hash {
    if rows == [] then Empty else rows[|rows| - 1].hash
  }

  // ---------------------------------------------------------------- a well-chained table

  predicate Unchained(rows: seq<Row>) {
    forall r | r in rows :: r.hash == Empty
  }

  /** From row start on every row links to the row before it and carries its own hash; the rows before
      start were written before the chain existed. */
  ghost predicate ChainedFrom(rows: seq<Row>, start: nat) {
    start <= |rows| && Unchained(rows[..start]) &&
    forall i | start <= i < |rows| :: ChainedAt(rows, i, start)
  }

  ghost predicate WellChained(rows: seq<Row>) {
    exists start: nat :: ChainedFrom(rows, start)
  }

  predicate ChainedAt(rows: seq<Row>, i: nat, start: nat)
    requires start <= i < |rows|
  {
    var prev := if i == start then Empty else rows[i - 1].hash;
    PrevOf(rows[i]) == prev && rows[i].hash == ComputeHash(prev, rows[i].content)
  }

  /** The contents that a chain hash commits to, oldest first. */
  function History(h: Hash): seq<Content> {
    match h
    case Empty => []
    case Digest(prev, content) => History(prev) + [content]
    case Text(_) => []
  }

  function Contents(rows: seq<Row>): seq<Content> {
    seq(|rows|, i requires 0 <= i < |rows| => rows[i].content)
  }

  /** The hash of a chained row commits to the content of every chained row up to it, in order. */
  lemma {:induction false} HashCommitsToHistory(rows: seq<Row>, start: nat, i: nat)
    requires ChainedFrom(rows, start) && start <= i < |rows|
    ensures History(rows[i].hash) == Contents(rows[start..i + 1]) && rows[i].hash.Digest?
    decreases i
  {
    assert ChainedAt(rows, i, start);
    if i > start {
      HashCommitsToHistory(rows, start, i - 1);
      assert rows[start..i + 1] == rows[start..i] + [rows[i]];
    }
  }

  /** The hashes begin at the first chained row, and nowhere before it. */
  lemma HashesBegin(rows: seq<Row>, start: nat)
    requires ChainedFrom(rows, start)
    ensures start < |rows| ==> rows[start].hash != Empty
    ensures forall i | 0 <= i < start :: rows[i].hash == Empty
  {
    if start < |rows| {
      assert ChainedAt(rows, start, start);
    }
    forall i | 0 <= i < start
      ensures rows[i].hash == Empty
    {
      assert rows[..start][i] == rows[i];
    }
  }

  /** So a table is well chained from one place only. */
  lemma ChainStartIsUnique(rows: seq<Row>, a: nat, b: nat)
    requires ChainedFrom(rows, a) && ChainedFrom(rows, b)
    ensures a == b
  {
    HashesBegin(rows, a);
    HashesBegin(rows, b);
  }

  // ---------------------------------------------------------------- verification

  datatype Reason = Fine | NotChained | BadLink | BadHash

  datatype ChainReport = ChainReport(ok: bool, rowsScanned: nat, chainedRows: nat, unchainedRows: nat, firstChainedId: nat,
                                     headId: nat, headHash: Hash, brokenAtId: nat, reason: Reason)

  /** What is wrong with a row that does not continue the chain of those before it: it is not chained though
      a row before it is, it links to something else than the head, or its hash is not its own. */
  predicate Blames(front: seq<Row>, row: Row, reason: Reason) {
    match reason
    case Fine => false
    case NotChained => row.hash == Empty && exists r | r in front :: r.hash != Empty
    case BadLink => row.hash != Empty && PrevOf(row) != HeadHash(front)
    case BadHash => row.hash != Empty && PrevOf(row) == HeadHash(front) && row.hash != ComputeHash(HeadHash(front), row.content)
  }

  /** VerifyChain, over the pages that a query in id order returns. */
  method VerifyChain(rows: seq<Row>, requestedBatch: int) returns (report: ChainReport)
    requires forall r | r in rows :: r.id > 0
    ensures report.ok <==> WellChained(rows)
    ensures report.ok ==>
              ChainedFrom(rows, report.unchainedRows) && report.rowsScanned == |rows| &&
              report.chainedRows == |rows| - report.unchainedRows
    ensures report.ok && report.chainedRows > 0 ==>
              report.headId == rows[|rows| - 1].id && report.headHash == HeadHash(rows) &&
              report.firstChainedId == rows[report.unchainedRows].id
    ensures !report.ok ==>
              0 < report.rowsScanned <= |rows| && report.brokenAtId == rows[report.rowsScanned - 1].id &&
              WellChained(rows[..report.rowsScanned - 1]) && !WellChained(rows[..report.rowsScanned])
    ensures !report.ok ==> Blames(rows[..report.rowsScanned - 1], rows[report.rowsScanned - 1], report.reason)
    ensures report.ok ==> report.reason == Fine
  {
    var batchSize := if requestedBatch <= 0 then 1000 else requestedBatch;
    report := ChainReport(true, 0, 0, 0, 0, 0, Empty, 0, Fine);
    var prev, started := Empty, false;
    var offset := 0;
    while offset < |rows|
      invariant 0 <= offset <= |rows| && report.brokenAtId == 0
      invariant Progress(rows, offset, report, prev, started)
    {
      var end := if offset + batchSize < |rows| then offset + batchSize else |rows|;
      var i := offset;
      while i < end && report.brokenAtId == 0
        invariant offset <= i <= end
        invariant Progress(rows, i, report, prev, started)
      {
        report, prev, started := VerifyRow(rows, i, report, prev, started);
        i := i + 1;
      }
      if report.brokenAtId != 0 {
        NoChainOnceBroken(rows, report.rowsScanned);
        return;
      }
      offset := end;
    }
    assert rows[..|rows|] == rows;
    assert ChainedFrom(rows, report.unchainedRows);
  }

  /** Where the walk stands after the first n rows. */
  ghost predicate Progress(rows: seq<Row>, n: nat, report: ChainReport, prev: Hash, started: bool) {
    n <= |rows| &&
    if report.brokenAtId != 0 then
      !report.ok && 0 < report.rowsScanned <= n && report.brokenAtId == rows[report.rowsScanned - 1].id &&
      WellChained(rows[..report.rowsScanned - 1]) && !WellChained(rows[..report.rowsScanned]) &&
      Blames(rows[..report.rowsScanned - 1], rows[report.rowsScanned - 1], report.reason)
    else
      report.ok && report.reason == Fine && report.rowsScanned == n && ChainedFrom(rows[..n], report.unchainedRows) &&
      report.chainedRows == n - report.unchainedRows && (started <==> report.chainedRows > 0) &&
      prev == HeadHash(rows[..n]) &&
      (started ==> report.headId == rows[n - 1].id && report.headHash == prev && report.firstChainedId == rows[report.unchainedRows].id)
  }

  method VerifyRow(rows: seq<Row>, i: nat, before: ChainReport, prevHash: Hash, startedBefore: bool)
      returns (report: ChainReport, prev: Hash, started: bool)
    requires i < |rows| && rows[i].id > 0 && before.brokenAtId == 0 && Progress(rows, i, before, prevHash, startedBefore)
    ensures Progress(rows, i + 1, report, prev, started)
  {
    var row := rows[i];
    report, prev, started := before.(rowsScanned := before.rowsScanned + 1), prevHash, startedBefore;
    NextRow(rows, i, before.unchainedRows);
    if row.hash == Empty {
      if started {
        SomeRowIsChained(rows[..i], before.unchainedRows);
        report := report.(ok := false, brokenAtId := row.id, reason := NotChained);
        return;
      }
      report := report.(unchainedRows := report.unchainedRows + 1);
      return;
    }
    if !started {
      started := true;
      report := report.(firstChainedId := row.id);
    }
    var rowPrev := if row.prev.Some? then row.prev.value else Empty;
    if rowPrev != prev {
      report := report.(ok := false, brokenAtId := row.id, reason := BadLink);
      return;
    }
    if ComputeHash(prev, row.content) != row.hash {
      report := report.(ok := false, brokenAtId := row.id, reason := BadHash);
      return;
    }
    report := report.(chainedRows := report.chainedRows + 1, headId := row.id, headHash := row.hash);
    prev := row.hash;
  }

  lemma SomeRowIsChained(rows: seq<Row>, start: nat)
    requires ChainedFrom(rows, start) && start < |rows|
    ensures exists r | r in rows :: r.hash != Empty
  {
    HashesBegin(rows, start);
    assert rows[start] in rows;
  }

  /** When a table that is well chained stays so with one more row. */
  lemma NextRow(rows: seq<Row>, i: nat, start: nat)
    requires i < |rows| && ChainedFrom(rows[..i], start)
    ensures var head := HeadHash(rows[..i]);
            var chained := rows[i].hash == ComputeHash(head, rows[i].content) && PrevOf(rows[i]) == head;
            (chained ==> ChainedFrom(rows[..i + 1], start)) &&
            (rows[i].hash == Empty && start == i ==> ChainedFrom(rows[..i + 1], i + 1)) &&
            (!chained && !(rows[i].hash == Empty && start == i) ==> !WellChained(rows[..i + 1]))
  {
    var front, all := rows[..i], rows[..i + 1];
    assert all == front + [rows[i]];
    if start < i {
      assert ChainedAt(front, i - 1, start);
    } else if i > 0 {
      assert front[..start][i - 1] == front[i - 1];
    }
    forall j | start <= j < i
      ensures ChainedAt(all, j, start)
    {
      assert ChainedAt(front, j, start);
    }
    assert all[..start] == front[..start];
    forall other: nat | ChainedFrom(all, other)
      ensures OneMoreRow(front, rows[i], start)
    {
      if other <= i {
        ChainedPrefix(all, other, i);
        assert all[..i] == front;
        ChainStartIsUnique(front, other, start);
        assert ChainedAt(all, i, other);
      } else {
        HashesBegin(all, other);
        assert forall j | 0 <= j < i :: all[j] == front[j];
        HashesBegin(front, start);
      }
    }
  }

  /** What the walk checks of the row after a well-chained table. */
  predicate OneMoreRow(front: seq<Row>, row: Row, start: nat) {
    (row.hash == ComputeHash(HeadHash(front), row.content) && PrevOf(row) == HeadHash(front)) ||
    (row.hash == Empty && start == |front|)
  }

  lemma ChainedPrefix(rows: seq<Row>, start: nat, n: nat)
    requires ChainedFrom(rows, start) && start <= n <= |rows|
    ensures ChainedFrom(rows[..n], start)
  {
    assert rows[..n][..start] == rows[..start];
    forall j | start <= j < n
      ensures ChainedAt(rows[..n], j, start)
    {
      assert ChainedAt(rows, j, start);
    }
  }

  /** A break in a prefix is a break in the table. */
  lemma NoChainOnceBroken(rows: seq<Row>, n: nat)
    requires n <= |rows| && !WellChained(rows[..n])
    ensures !WellChained(rows)
  {
    if WellChained(rows) {
      var start: nat :| ChainedFrom(rows, start);
      if start <= n {
        ChainedPrefix(rows, start, n);
      } else {
        assert rows[..n] == rows[..start][..n];
        assert ChainedFrom(rows[..n], n);
      }
    }
  }

  // ---------------------------------------------------------------- appending

  /** The rows an append builds on a head: every row links to the one before it. */
  function Chain(head: Hash, firstId: nat, contents: seq<Content>): seq<Row>
    decreases |contents|
  {
    if contents == [] then []
    else
      var last := |contents| - 1;
      var front := Chain(head, firstId, contents[..last]);
      var prev := if front == [] then head else front[|front| - 1].hash;
      front + [Row(firstId + last, contents[last], Some(prev), ComputeHash(prev, contents[last]))]
  }

  lemma {:induction false} ChainLength(head: Hash, firstId: nat, contents: seq<Content>)
    ensures |Chain(head, firstId, contents)| == |contents|
    decreases |contents|
  {
    if contents != [] {
      ChainLength(head, firstId, contents[..|contents| - 1]);
    }
  }

  lemma {:induction false} ChainRow(head: Hash, firstId: nat, contents: seq<Content>, i: nat)
    requires i < |contents|
    ensures var rows := Chain(head, firstId, contents);
            |rows| == |contents| && rows[i].id == firstId + i && rows[i].content == contents[i] &&
            (var prev := if i == 0 then head else rows[i - 1].hash;
             rows[i].prev == Some(prev) && rows[i].hash == ComputeHash(prev, contents[i]))
    decreases |contents|
  {
    var last := |contents| - 1;
    ChainLength(head, firstId, contents);
    ChainLength(head, firstId, contents[..last]);
    if i < last {
      ChainRow(head, firstId, contents[..last], i);
    }
  }

  /** A table as the service keeps it: an unchained prefix without links, then the chain. */
  ghost predicate ServiceTable(rows: seq<Row>, start: nat, lastId: nat) {
    ChainedFrom(rows, start) &&
    (forall i | 0 <= i < |rows| :: (rows[i].prev.Some? <==> i >= start) && 0 < rows[i].id <= lastId) &&
    (forall i, j | 0 <= i < j < |rows| :: rows[i].id < rows[j].id)
  }

  /** The unique index on prev_hash, which ignores rows without one. */
  predicate Conflicts(rows: seq<Row>, pending: seq<Row>) {
    exists i, j | 0 <= i < |rows| && 0 <= j < |pending| :: SameLink(rows[i], pending[j])
  }

  predicate SameLink(a: Row, b: Row) {
    a.prev.Some? && a.prev == b.prev
  }

  ghost predicate UniqueLinks(rows: seq<Row>) {
    forall i, j | 0 <= i < j < |rows| :: !SameLink(rows[i], rows[j])
  }

  /** The chain never forks: rows built on a head that is no longer the last row always collide with
      the row that took its place. */
  lemma StaleHeadConflicts(rows: seq<Row>, start: nat, lastId: nat, n: nat, firstId: nat, contents: seq<Content>)
    requires ServiceTable(rows, start, lastId) && start <= n < |rows| && contents != []
    ensures Conflicts(rows, Chain(HeadHash(rows[..n]), firstId, contents))
  {
    ChainRow(HeadHash(rows[..n]), firstId, contents, 0);
    assert ChainedAt(rows, n, start);
    if n == start && n > 0 {
      assert rows[..start][n - 1] == rows[n - 1];
    }
    assert SameLink(rows[n], Chain(HeadHash(rows[..n]), firstId, contents)[0]);
  }

  lemma ChainRows(head: Hash, firstId: nat, contents: seq<Content>, added: seq<Row>)
    requires added == Chain(head, firstId, contents)
    ensures |added| == |contents| && Contents(added) == contents
    ensures forall i | 0 <= i < |added| :: added[i].id == firstId + i && added[i].prev.Some?
  {
    ChainLength(head, firstId, contents);
    forall i | 0 <= i < |added|
      ensures added[i].content == contents[i] && added[i].id == firstId + i && added[i].prev.Some?
    {
      ChainRow(head, firstId, contents, i);
    }
  }

  /** Appending on the current head keeps the table well chained. */
  lemma AppendKeepsTable(rows: seq<Row>, start: nat, lastId: nat, contents: seq<Content>)
    requires ServiceTable(rows, start, lastId)
    ensures var added := Chain(HeadHash(rows), lastId + 1, contents);
            ServiceTable(rows + added, start, lastId + |contents|) && |added| == |contents| && Contents(added) == contents
  {
    var added := Chain(HeadHash(rows), lastId + 1, contents);
    ChainRows(HeadHash(rows), lastId + 1, contents, added);
    AppendKeepsChain(rows, start, added, lastId + 1, contents);
    TableGrows(rows, start, lastId, added);
  }

  lemma TableGrows(rows: seq<Row>, start: nat, lastId: nat, added: seq<Row>)
    requires ServiceTable(rows, start, lastId) && ChainedFrom(rows + added, start)
    requires forall i | 0 <= i < |added| :: added[i].id == lastId + 1 + i && added[i].prev.Some?
    ensures ServiceTable(rows + added, start, lastId + |added|)
  {
    IdsContinue(rows, start, lastId, added);
  }

  lemma IdsContinue(rows: seq<Row>, start: nat, lastId: nat, added: seq<Row>)
    requires ServiceTable(rows, start, lastId)
    requires forall i | 0 <= i < |added| :: added[i].id == lastId + 1 + i && added[i].prev.Some?
    ensures var all := rows + added;
            (forall i | 0 <= i < |all| :: (all[i].prev.Some? <==> i >= start) && 0 < all[i].id <= lastId + |added|) &&
            (forall i, j | 0 <= i < j < |all| :: all[i].id < all[j].id)
  {
  }

  lemma AppendKeepsChain(rows: seq<Row>, start: nat, added: seq<Row>, firstId: nat, contents: seq<Content>)
    requires ChainedFrom(rows, start) && added == Chain(HeadHash(rows), firstId, contents) && |added| == |contents|
    ensures ChainedFrom(rows + added, start)
  {
    var all := rows + added;
    assert all[..start] == rows[..start];
    forall i | start <= i < |all|
      ensures ChainedAt(all, i, start)
    {
      AppendedRow(rows, start, added, firstId, contents, i);
    }
  }

  lemma AppendedRow(rows: seq<Row>, start: nat, added: seq<Row>, firstId: nat, contents: seq<Content>, i: nat)
    requires ChainedFrom(rows, start) && added == Chain(HeadHash(rows), firstId, contents)
    requires |added| == |contents| && start <= i < |rows| + |added|
    ensures ChainedAt(rows + added, i, start)
  {
    if i < |rows| {
      assert ChainedAt(rows, i, start);
    } else {
      ChainRow(HeadHash(rows), firstId, contents, i - |rows|);
      if i == |rows| == start && start > 0 {
        assert rows[..start][start - 1] == rows[start - 1];
      }
    }
  }

  /** The links of a chain are all different, since each commits to one row more than the one before:
      the unique index never refuses an append on the current head. */
  lemma LinksAreUnique(rows: seq<Row>, start: nat, lastId: nat)
    requires ServiceTable(rows, start, lastId)
    ensures UniqueLinks(rows)
  {
    forall i, j | 0 <= i < j < |rows|
      ensures !SameLink(rows[i], rows[j])
    {
      if i >= start {
        assert ChainedAt(rows, i, start) && ChainedAt(rows, j, start);
        HashCommitsToHistory(rows, start, j - 1);
        if i > start {
          HashCommitsToHistory(rows, start, i - 1);
          assert |Contents(rows[start..i])| != |Contents(rows[start..j])|;
        }
      }
    }
  }

  lemma CurrentHeadFits(rows: seq<Row>, start: nat, lastId: nat, contents: seq<Content>)
    requires ServiceTable(rows, start, lastId)
    ensures !Conflicts(rows, Chain(HeadHash(rows), lastId + 1, contents))
  {
    var added := Chain(HeadHash(rows), lastId + 1, contents);
    AppendKeepsTable(rows, start, lastId, contents);
    LinksAreUnique(rows + added, start, lastId + |contents|);
    forall i, j | 0 <= i < |rows| && 0 <= j < |added|
      ensures !SameLink(rows[i], added[j])
    {
      assert (rows + added)[i] == rows[i] && (rows + added)[|rows| + j] == added[j];
    }
  }

  /** The unique index refuses an append exactly when its head is stale. */
  lemma RefusedExactlyWhenStale(rows: seq<Row>, start: nat, lastId: nat, seen: nat, contents: seq<Content>)
    requires ServiceTable(rows, start, lastId) && start <= seen <= |rows| && contents != []
    ensures Conflicts(rows, Chain(HeadHash(rows[..seen]), lastId + 1, contents)) <==> seen < |rows|
  {
    if seen < |rows| {
      StaleHeadConflicts(rows, start, lastId, seen, lastId + 1, contents);
    } else {
      assert rows[..seen] == rows;
      CurrentHeadFits(rows, start, lastId, contents);
    }
  }

  lemma TailOfBoth(rows: seq<Row>, added: seq<Row>)
    ensures (rows + added)[|rows|..] == added
  {
  }

  /** What an insertion leaves, on plain sequences. */
  lemma Inserted(rows: seq<Row>, start: nat, lastId: nat, contents: seq<Content>, mine: seq<bool>, own: bool)
    requires ServiceTable(rows, start, lastId) && |mine| == |rows|
    ensures var added := Chain(HeadHash(rows), lastId + 1, contents);
            var after, marks := rows + added, mine + seq(|contents|, _ => own);
            ServiceTable(after, start, lastId + |contents|) && |marks| == |after| == |rows| + |contents| && mine <= marks &&
            (forall i | |rows| <= i < |after| :: marks[i] == own) && Contents(after[|rows|..]) == contents
  {
    AppendKeepsTable(rows, start, lastId, contents);
    TailOfBoth(rows, Chain(HeadHash(rows), lastId + 1, contents));
    MarksOfBoth(mine, |contents|, own);
  }

  lemma MarksOfBoth(mine: seq<bool>, n: nat, own: bool)
    ensures var marks := mine + seq(n, _ => own);
            |marks| == |mine| + n && mine <= marks && forall i | |mine| <= i < |marks| :: marks[i] == own
  {
  }

  datatype AppendOutcome = Appended | RetriesExhausted | DatabaseError

  class AuditLog {
    /** The database of a reliable log does not fail and is not busy. */
    const reliable: bool
    var rows: seq<Row>
    var lastId: nat
    ghost var start: nat
    ghost var mine: seq<bool>

    ghost predicate Valid()
      reads this
    {
      ServiceTable(rows, start, lastId) && |mine| == |rows|
    }

    /** A database in which rows from before the chain may be left. */
    constructor (legacy: seq<Row>, id: nat, reliable: bool)
      requires Unchained(legacy) && ServiceTable(legacy, |legacy|, id)
      ensures Valid() && this.reliable == reliable && rows == legacy && start == |legacy|
    {
      this.reliable := reliable;
      rows, lastId, start := legacy, id, |legacy|;
      mine := seq(|legacy|, _ => false);
    }

    /** Create, on the head that is current: the database assigns the ids. */
    method Insert(contents: seq<Content>, ghost own: bool)
      requires Valid()
      modifies this
      ensures Valid() && start == old(start) && rows == old(rows) + Chain(HeadHash(old(rows)), old(lastId) + 1, contents)
      ensures old(mine) <= mine && (forall i | |old(rows)| <= i < |rows| :: mine[i] == own)
      ensures |rows| == |old(rows)| + |contents| && Contents(rows[|old(rows)|..]) == contents
    {
      Inserted(rows, start, lastId, contents, mine, own);
      var added := Build(HeadHash(rows), lastId + 1, contents);
      rows, lastId, mine := rows + added, lastId + |contents|, mine + seq(|contents|, _ => own);
    }

    /** Other writers append any number of batches. */
    method OthersAppend()
      requires Valid()
      modifies this
      ensures Valid() && start == old(start) && old(rows) <= rows
      ensures old(mine) <= mine && forall i | |old(mine)| <= i < |mine| :: !mine[i]
    {
      var n: nat := *;
      while n > 0
        invariant Valid() && start == old(start) && old(rows) <= rows
        invariant old(mine) <= mine && forall i | |old(mine)| <= i < |mine| :: !mine[i]
      {
        var contents: seq<Content> := *;
        Insert(contents, false);
        n := n - 1;
      }
    }

    /** The rows to be created, built on the head read while others write. */
    method Draft(contents: seq<Content>) returns (pending: seq<Row>, ghost seen: nat)
      requires Valid()
      modifies this
      ensures Valid() && start == old(start) && old(rows) <= rows && old(mine) <= mine
      ensures forall i | |old(mine)| <= i < |mine| :: !mine[i]
      ensures |old(rows)| <= seen <= |rows| && start <= seen && pending == Chain(HeadHash(rows[..seen]), lastId + 1, contents)
    {
      OthersAppend();
      var head;
      head, seen := HeadHash(rows), |rows|;
      ghost var snapshot := rows;
      OthersAppend();
      assert rows[..seen] == snapshot;
      pending := Build(head, lastId + 1, contents);
    }

    /** One transaction of an append: it reads the head, builds on it and creates the rows, while others
        write.  RetriesExhausted stands for a conflict or a lost snapshot. */
    method Attempt(contents: seq<Content>) returns (outcome: AppendOutcome)
      requires Valid() && contents != []
      modifies this
      ensures Valid() && start == old(start) && old(rows) <= rows && old(mine) <= mine
      ensures outcome == Appended ==>
                |old(rows)| + |contents| <= |rows| && Contents(rows[|rows| - |contents|..]) == contents &&
                forall i | |old(rows)| <= i < |rows| :: mine[i] <==> i >= |rows| - |contents|
      ensures outcome != Appended ==> forall i | |old(rows)| <= i < |rows| :: !mine[i]
      ensures reliable ==> outcome == Appended || (outcome == RetriesExhausted && |rows| > |old(rows)|)
    {
      var pending, seen := Draft(contents);
      var failed: bool, busy: bool := *, *;
      if failed && !reliable {
        return DatabaseError;
      }
      RefusedExactlyWhenStale(rows, start, lastId, seen, contents);
      var refused := Conflicts(rows, pending);
      if refused || (busy && !reliable) {
        return RetriesExhausted;
      }
      Insert(contents, true);
      outcome := Appended;
    }

    /** AppendAuditRows.  Either the rows are appended as one block on the then current head, or none of
        them is; a write on a head that another writer has passed is refused and tried again.  With a
        reliable database it gives up only when others have come first four times. */
    method AppendAuditRows(contents: seq<Content>) returns (outcome: AppendOutcome)
      requires Valid()
      modifies this
      ensures Valid() && start == old(start) && old(rows) <= rows && old(mine) <= mine
      ensures contents == [] ==> outcome == Appended && rows == old(rows)
      ensures outcome == Appended ==>
                |old(rows)| + |contents| <= |rows| && Contents(rows[|rows| - |contents|..]) == contents &&
                forall i | |old(rows)| <= i < |rows| :: mine[i] <==> i >= |rows| - |contents|
      ensures outcome != Appended ==> forall i | |old(rows)| <= i < |rows| :: !mine[i]
      ensures reliable ==> outcome == Appended || (outcome == RetriesExhausted && |rows| >= |old(rows)| + 4)
    {
      if contents == [] {
        return Appended;
      }
      var attempt := 0;
      while attempt < 4
        invariant 0 <= attempt <= 4 && Valid() && start == old(start) && old(rows) <= rows && old(mine) <= mine
        invariant forall i | |old(rows)| <= i < |rows| :: !mine[i]
        invariant reliable ==> |rows| >= |old(rows)| + attempt
      {
        ghost var before := |rows|;
        var attempted := Attempt(contents);
        assert forall i | |old(rows)| <= i < before :: !mine[i];
        if attempted != RetriesExhausted {
          return attempted;
        }
        attempt := attempt + 1;
      }
      outcome := RetriesExhausted;
    }
  }

  /** The loop that links a batch. */
  method Build(head: Hash, firstId: nat, contents: seq<Content>) returns (rows: seq<Row>)
    ensures rows == Chain(head, firstId, contents)
  {
    rows := [];
    var prev := head;
    for i := 0 to |contents|
      invariant rows == Chain(head, firstId, contents[..i]) && |rows| == i
      invariant prev == if i == 0 then head else rows[i - 1].hash
    {
      assert contents[..i + 1][..i] == contents[..i];
      var hash := ComputeHash(prev, contents[i]);
      rows := rows + [Row(firstId + i, contents[i], Some(prev), hash)];
      prev := hash;
    }
    assert contents[..|contents|] == contents;
  }

  // ---------------------------------------------------------------- checkpoints

  datatype Checkpoint = Checkpoint(headId: nat, headHash: Hash)

  /** ChainHead, as a checkpoint is taken of it: a table without a chained row gives none. */
  function TakeCheckpoint(rows: seq<Row>): Option<Checkpoint> {
    if rows == [] || HeadHash(rows) == Empty then None else Some(Checkpoint(rows[|rows| - 1].id, HeadHash(rows)))
  }

  ghost predicate Found(rows: seq<Row>, c: Checkpoint) {
    exists i | 0 <= i < |rows| :: rows[i].id == c.headId && rows[i].hash == c.headHash
  }

  /** The chained rows up to a row, by content. */
  function ChainedUpTo(rows: seq<Row>, start: nat, i: nat): seq<Content>
    requires start <= i < |rows|
  {
    Contents(rows[start..i + 1])
  }

  /** A checkpoint that is found in a table that verifies pins its history: the chained rows up to the
      checkpointed id are as many, in the same order and with the same contents as when it was taken. */
  lemma CheckpointPinsHistory(taken: seq<Row>, takenStart: nat, now: seq<Row>, nowStart: nat, i: nat, c: Checkpoint)
    requires ChainedFrom(taken, takenStart) && TakeCheckpoint(taken) == Some(c)
    requires ChainedFrom(now, nowStart) && i < |now| && now[i].id == c.headId && now[i].hash == c.headHash
    ensures takenStart < |taken| && nowStart <= i
    ensures ChainedUpTo(now, nowStart, i) == ChainedUpTo(taken, takenStart, |taken| - 1)
  {
    HashesBegin(taken, takenStart);
    HashesBegin(now, nowStart);
    HashCommitsToHistory(taken, takenStart, |taken| - 1);
    HashCommitsToHistory(now, nowStart, i);
  }

  predicate Usable(line: Option<Checkpoint>) {
    line.Some? && line.value.headHash != Empty
  }

  /** The checkpoints are the usable ones of the first n lines, in the order of these: at has their lines. */
  ghost predicate TakenFrom(lines: seq<Option<Checkpoint>>, n: nat, checkpoints: seq<Checkpoint>, at: seq<nat>) {
    n <= |lines| && |at| == |checkpoints| &&
    (forall j, k | 0 <= j < k < |at| :: at[j] < at[k]) &&
    (forall k | 0 <= k < |at| :: at[k] < n && lines[at[k]] == Some(checkpoints[k]) && checkpoints[k].headHash != Empty) &&
    (forall i | 0 <= i < n && Usable(lines[i]) :: i in at)
  }

  /** LoadCheckpoints: malformed lines, and those without a hash, are counted and skipped; the others are
      loaded in their order. */
  method LoadCheckpoints(lines: seq<Option<Checkpoint>>) returns (checkpoints: seq<Checkpoint>, invalid: nat, ghost at: seq<nat>)
    ensures |checkpoints| + invalid == |lines| && TakenFrom(lines, |lines|, checkpoints, at)
    ensures forall c :: c in checkpoints <==> Some(c) in lines && c.headHash != Empty
  {
    checkpoints, invalid, at := [], 0, [];
    for i := 0 to |lines|
      invariant |checkpoints| + invalid == i && TakenFrom(lines, i, checkpoints, at)
    {
      if !Usable(lines[i]) {
        invalid := invalid + 1;
      } else {
        TakenNext(lines, i, checkpoints, at);
        checkpoints, at := checkpoints + [lines[i].value], at + [i];
      }
    }
    TakenAreUsable(lines, checkpoints, at);
  }

  lemma TakenNext(lines: seq<Option<Checkpoint>>, i: nat, checkpoints: seq<Checkpoint>, at: seq<nat>)
    requires TakenFrom(lines, i, checkpoints, at) && i < |lines| && Usable(lines[i])
    ensures TakenFrom(lines, i + 1, checkpoints + [lines[i].value], at + [i])
  {
    assert i in at + [i];
  }

  lemma TakenAreUsable(lines: seq<Option<Checkpoint>>, checkpoints: seq<Checkpoint>, at: seq<nat>)
    requires TakenFrom(lines, |lines|, checkpoints, at)
    ensures forall c :: c in checkpoints <==> Some(c) in lines && c.headHash != Empty
  {
    forall c | Some(c) in lines && c.headHash != Empty
      ensures c in checkpoints
    {
      var i :| 0 <= i < |lines| && lines[i] == Some(c);
      assert Usable(lines[i]) && i in at;
      var k :| 0 <= k < |at| && at[k] == i;
      assert checkpoints[k] == c;
    }
    forall c | c in checkpoints
      ensures Some(c) in lines && c.headHash != Empty
    {
      var k :| 0 <= k < |checkpoints| && checkpoints[k] == c;
      assert lines[at[k]] == Some(c);
    }
  }

  /** VerifyAnchors: every checkpointed row is still there with its hash, or the first that is not is
      named. */
  method VerifyAnchors(rows: seq<Row>, checkpoints: seq<Checkpoint>) returns (ok: bool, brokenAtId: nat, latest: Option<Checkpoint>)
    requires forall i, j | 0 <= i < j < |rows| :: rows[i].id < rows[j].id
    ensures latest == if checkpoints == [] then None else Some(checkpoints[|checkpoints| - 1])
    ensures ok <==> forall c | c in checkpoints :: Found(rows, c)
    ensures !ok ==>
              exists k | 0 <= k < |checkpoints| ::
                checkpoints[k].headId == brokenAtId && !Found(rows, checkpoints[k]) &&
                forall c | c in checkpoints[..k] :: Found(rows, c)
  {
    if checkpoints == [] {
      return true, 0, None;
    }
    latest := Some(checkpoints[|checkpoints| - 1]);
    for k := 0 to |checkpoints|
      invariant forall c | c in checkpoints[..k] :: Found(rows, c)
    {
      var c := checkpoints[k];
      var row := First(rows, c.headId);
      if row.None? || row.value.hash != c.headHash {
        assert !Found(rows, c);
        assert c in checkpoints;
        return false, c.headId, latest;
      }
      assert checkpoints[..k + 1] == checkpoints[..k] + [c];
    }
    assert checkpoints[..|checkpoints|] == checkpoints;
    return true, 0, latest;
  }

  /** The row with an id. */
  method First(rows: seq<Row>, id: nat) returns (row: Option<Row>)
    requires forall i, j | 0 <= i < j < |rows| :: rows[i].id < rows[j].id
    ensures row.None? ==> forall r | r in rows :: r.id != id
    ensures row.Some? ==> row.value in rows && row.value.id == id && forall r | r in rows && r.id == id :: r == row.value
  {
    for i := 0 to |rows|
      invariant forall j | 0 <= j < i :: rows[j].id != id
    {
      if rows[i].id == id {
        return Some(rows[i]);
      }
    }
    return None;
  }

  /** Verification and checkpoints together: when the chain verifies and every checkpoint is found,
      nothing that any checkpoint saw has been changed, dropped, added or reordered since. */
  lemma VerifiedHistoryIsOriginal(tables: seq<seq<Row>>, checkpoints: seq<Checkpoint>, now: seq<Row>)
    requires |tables| == |checkpoints|
    requires forall k | 0 <= k < |tables| :: WellChained(tables[k]) && TakeCheckpoint(tables[k]) == Some(checkpoints[k])
    requires WellChained(now) && forall c | c in checkpoints :: Found(now, c)
    ensures forall k | 0 <= k < |tables| :: SameHistory(tables[k], now, checkpoints[k].headId)
  {
    var nowStart: nat :| ChainedFrom(now, nowStart);
    forall k | 0 <= k < |tables|
      ensures SameHistory(tables[k], now, checkpoints[k].headId)
    {
      var takenStart: nat :| ChainedFrom(tables[k], takenStart);
      assert Found(now, checkpoints[k]);
      var i :| 0 <= i < |now| && now[i].id == checkpoints[k].headId && now[i].hash == checkpoints[k].headHash;
      CheckpointPinsHistory(tables[k], takenStart, now, nowStart, i, checkpoints[k]);
      assert SameUpTo(tables[k], takenStart, now, nowStart, i);
    }
  }

  ghost predicate SameUpTo(taken: seq<Row>, takenStart: nat, now: seq<Row>, nowStart: nat, i: nat) {
    ChainedFrom(taken, takenStart) && ChainedFrom(now, nowStart) && takenStart < |taken| && nowStart <= i < |now| &&
    ChainedUpTo(now, nowStart, i) == ChainedUpTo(taken, takenStart, |taken| - 1)
  }

  ghost predicate SameHistory(taken: seq<Row>, now: seq<Row>, id: nat) {
    exists takenStart: nat, nowStart: nat, i: nat :: SameUpTo(taken, takenStart, now, nowStart, i) && now[i].id == id
  }
}

/** Reclaiming cache space, and the preview that says what it would remove
    (internal/cache/retention.go).

    Rows and objects do not change under a pass; a database or storage call may fail, and then has no
    effect.  Nothing is staged.  Instants are nanoseconds; the database compares expiry to the second. */
module Retention {
  import opened Wrappers

  const SECOND := 1000000000
  const BATCH := 500

  datatype Row = Row(id: nat, key: string, path: string, size: nat, accessed: int, expires: int)

  datatype Mode = Manual | Capacity

  // ---------------------------------------------------------------- percentages

  /** percentOf */
  function PercentOf(total: int, percent: int): int {
    total / 100 * percent + total % 100 * percent / 100
  }

  /** No value on the way to the result is above the bound. */
  predicate NoneAbove(total: int, percent: int, bound: int) {
    var q, r := total / 100, total % 100;
    q <= bound && q * percent <= bound && r <= bound && r * percent <= bound && r * percent / 100 <= bound &&
    PercentOf(total, percent) <= bound
  }

  /** It is the exact floor, and no more than the total; on the way to it nothing passes the total or
      9900, whichever is more. */
  lemma PercentIsExact(total: int, percent: int)
    requires total >= 0 && 0 <= percent <= 100
    ensures PercentOf(total, percent) == total * percent / 100
    ensures 0 <= PercentOf(total, percent) <= total
    ensures NoneAbove(total, percent, if total < 9900 then 9900 else total)
  {
    var q, r := total / 100, total % 100;
    Product(q, percent, 100);
    Product(r, percent, 100);
    Distribute(q, r, percent);
    Carry(q * percent, r * percent);
  }

  /** Nothing on the way passes the total exactly if the product of the remainder does not: for totals
      from 9900 on it never does. */
  lemma NoneAboveTotalExactlyIf(total: int, percent: int)
    requires total >= 0 && 0 <= percent <= 100
    ensures NoneAbove(total, percent, total) <==> total % 100 * (percent - 1) <= total / 100 * 100
    ensures total >= 9900 ==> NoneAbove(total, percent, total)
  {
    var q, r := total / 100, total % 100;
    PercentIsExact(total, percent);
    Product(q, percent, 100);
    Product(r, percent, 100);
    OneLess(r, percent);
  }

  lemma OneLess(r: int, percent: int)
    ensures r * percent == r * (percent - 1) + r
  {
  }

  /** 90 percent of 50 bytes: the product of the remainder is 4500. */
  lemma SomeAboveTotal()
    ensures !NoneAbove(50, 90, 50) && PercentOf(50, 90) == 45
  {
    assert 50 % 100 * 90 == 4500;
  }

  lemma Product(x: int, a: int, b: int)
    requires x >= 0 && 0 <= a <= b
    ensures 0 <= x * a <= x * b
  {
  }

  lemma Distribute(q: int, r: int, percent: int)
    ensures (q * 100 + r) * percent == q * percent * 100 + r * percent
  {
  }

  lemma Carry(x: int, p: int)
    ensures (x * 100 + p) / 100 == x + p / 100
  {
  }

  // ---------------------------------------------------------------- listings

  predicate Expired(r: Row, now: int) {
    r.expires / SECOND < now / SECOND
  }

  predicate ByExpiry(a: Row, b: Row) {
    a.expires < b.expires || (a.expires == b.expires && a.id <= b.id)
  }

  predicate ByAccess(a: Row, b: Row) {
    a.accessed < b.accessed || (a.accessed == b.accessed && a.id <= b.id)
  }

  function Before(a: Row, b: Row, expiry: bool): bool {
    if expiry then ByExpiry(a, b) else ByAccess(a, b)
  }

  function Insert(r: Row, rows: seq<Row>, expiry: bool): seq<Row> {
    if rows == [] || Before(r, rows[0], expiry) then [r] + rows else [rows[0]] + Insert(r, rows[1..], expiry)
  }

  /** The rows that are expired in order of expiry, or those that are not in order of access. */
  function Listed(rows: seq<Row>, now: int, expiry: bool): seq<Row> {
    if rows == [] then []
    else if Expired(rows[0], now) == expiry then Insert(rows[0], Listed(rows[1..], now, expiry), expiry)
    else Listed(rows[1..], now, expiry)
  }

  ghost predicate Ordered(rows: seq<Row>, expiry: bool) {
    forall i, j | 0 <= i < j < |rows| :: Before(rows[i], rows[j], expiry)
  }

  lemma PrependKeepsOrder(r: Row, rows: seq<Row>, expiry: bool)
    requires Ordered(rows, expiry) && (rows != [] ==> Before(r, rows[0], expiry))
    ensures Ordered([r] + rows, expiry)
  {
    forall i | 0 <= i < |rows|
      ensures Before(r, rows[i], expiry)
    {
      assert i == 0 || Before(rows[0], rows[i], expiry);
    }
  }

  lemma {:induction false} InsertKeepsOrder(r: Row, rows: seq<Row>, expiry: bool)
    requires Ordered(rows, expiry)
    ensures var all := Insert(r, rows, expiry);
            Ordered(all, expiry) && multiset(all) == multiset(rows) + multiset{r} &&
            (all[0] == r || (rows != [] && all[0] == rows[0]))
  {
    if rows == [] || Before(r, rows[0], expiry) {
      PrependKeepsOrder(r, rows, expiry);
    } else {
      assert rows == [rows[0]] + rows[1..];
      InsertKeepsOrder(r, rows[1..], expiry);
      PrependKeepsOrder(rows[0], Insert(r, rows[1..], expiry), expiry);
    }
  }

  function Matching(rows: seq<Row>, now: int, expiry: bool): seq<Row> {
    if rows == [] then []
    else (if Expired(rows[0], now) == expiry then [rows[0]] else []) + Matching(rows[1..], now, expiry)
  }

  /** A listing is ordered and has exactly the rows it asks for. */
  lemma {:induction false} ListedIsExact(rows: seq<Row>, now: int, expiry: bool)
    ensures Ordered(Listed(rows, now, expiry), expiry)
    ensures multiset(Listed(rows, now, expiry)) == multiset(Matching(rows, now, expiry))
  {
    if rows != [] {
      ListedIsExact(rows[1..], now, expiry);
      if Expired(rows[0], now) == expiry {
        InsertKeepsOrder(rows[0], Listed(rows[1..], now, expiry), expiry);
      }
    }
  }

  lemma {:induction false} InsertedRows(r: Row, rows: seq<Row>, expiry: bool)
    ensures forall x :: x in Insert(r, rows, expiry) <==> x == r || x in rows
    ensures DistinctIds(rows) && (forall x | x in rows :: x.id != r.id) ==> DistinctIds(Insert(r, rows, expiry))
  {
    if rows != [] && !Before(r, rows[0], expiry) {
      assert rows == [rows[0]] + rows[1..];
      InsertedRows(r, rows[1..], expiry);
      var tail := Insert(r, rows[1..], expiry);
      forall j | 0 <= j < |tail| && DistinctIds(rows) && forall x | x in rows :: x.id != r.id
        ensures tail[j].id != rows[0].id
      {
        assert tail[j] in tail && rows[0] in rows;
        if tail[j] != r {
          var i :| 0 <= i < |rows[1..]| && rows[1..][i] == tail[j];
          assert rows[i + 1] == tail[j];
        }
      }
    } else {
      assert forall j | 0 <= j < |rows| :: rows[j] in rows;
    }
  }

  /** Every row of a listing is one of the table's. */
  lemma {:induction false} ListedRows(rows: seq<Row>, now: int, expiry: bool)
    ensures forall r :: r in Listed(rows, now, expiry) <==> r in rows && Expired(r, now) == expiry
    ensures DistinctIds(rows) ==> DistinctIds(Listed(rows, now, expiry))
  {
    if rows != [] {
      ListedRows(rows[1..], now, expiry);
      InsertedRows(rows[0], Listed(rows[1..], now, expiry), expiry);
      assert rows == [rows[0]] + rows[1..];
      if DistinctIds(rows) {
        forall x | x in Listed(rows[1..], now, expiry)
          ensures x.id != rows[0].id
        {
          var i :| 0 <= i < |rows[1..]| && rows[1..][i] == x;
          assert rows[i + 1] == x;
        }
      }
    }
  }

  function Bytes(rows: seq<Row>): nat {
    if rows == [] then 0 else rows[0].size + Bytes(rows[1..])
  }

  lemma {:induction false} BytesConcat(a: seq<Row>, b: seq<Row>)
    ensures Bytes(a + b) == Bytes(a) + Bytes(b)
  {
    if a == [] {
      assert a + b == b;
    } else {
      assert (a + b)[1..] == a[1..] + b;
      BytesConcat(a[1..], b);
    }
  }

  // ---------------------------------------------------------------- what a pass removes

  /** The shortest prefix that frees what is needed, or everything. */
  function Enough(rows: seq<Row>, need: int): seq<Row> {
    if rows == [] || need <= 0 then [] else [rows[0]] + Enough(rows[1..], need - rows[0].size)
  }

  lemma {:induction false} EnoughIsShortest(rows: seq<Row>, need: int)
    ensures var e := Enough(rows, need);
            e <= rows && (forall k | 0 <= k < |e| :: Bytes(e[..k]) < need) && (|e| < |rows| ==> Bytes(e) >= need)
  {
    if rows != [] && need > 0 {
      EnoughIsShortest(rows[1..], need - rows[0].size);
      var tail := Enough(rows[1..], need - rows[0].size);
      var e := [rows[0]] + tail;
      assert e[1..] == tail;
      forall k | 0 <= k < |e|
        ensures Bytes(e[..k]) < need
      {
        if k > 0 {
          assert e[..k][1..] == tail[..k - 1];
        }
      }
    }
  }

  function After(usage: int, freed: int): int {
    if usage - freed < 0 then 0 else usage - freed
  }

  datatype Policy = Policy(threshold: int, target: int)

  predicate NeedsLru(mode: Mode, usage: int, policy: Policy) {
    (mode.Capacity? || usage >= policy.threshold) && usage > policy.target
  }

  /** The rows a pass removes, in order: the expired ones, then as many of the least recently used as
      bring the usage to the target. */
  function Victims(rows: seq<Row>, now: int, mode: Mode, usage: int, policy: Policy): seq<Row> {
    if mode.Capacity? && usage < policy.threshold then []
    else
      var expired := Listed(rows, now, true);
      var left := After(usage, Bytes(expired));
      expired + (if NeedsLru(mode, left, policy) then Enough(Listed(rows, now, false), left - policy.target) else [])
  }

  // ---------------------------------------------------------------- the preview

  function Page(items: seq<Row>, page: nat, size: nat): seq<Row>
    requires page >= 1 && size >= 1
  {
    Slice(items, Offset(page, size), size)
  }

  function Offset(page: nat, size: nat): nat
    requires page >= 1
  {
    (page - 1) * size
  }

  function Slice(items: seq<Row>, offset: nat, size: nat): seq<Row> {
    if offset >= |items| then [] else if offset + size <= |items| then items[offset..offset + size] else items[offset..]
  }

  function Pages(items: seq<Row>, count: nat, size: nat): seq<Row>
    requires size >= 1
  {
    if count == 0 then [] else Pages(items, count - 1, size) + Page(items, count, size)
  }

  /** Pages put together are the items, in order and without gaps. */
  lemma {:induction false} PagesAreTheItems(items: seq<Row>, count: nat, size: nat)
    requires size >= 1
    ensures Pages(items, count, size) == Slice(items, 0, count * size)
    ensures count * size >= |items| ==> Pages(items, count, size) == items
  {
    if count > 0 {
      PagesAreTheItems(items, count - 1, size);
      assert count * size == (count - 1) * size + size;
      var offset := (count - 1) * size;
      SlicesJoin(items, offset, size);
    }
  }

  lemma SlicesJoin(items: seq<Row>, offset: nat, size: nat)
    ensures Slice(items, 0, offset) + Slice(items, offset, size) == Slice(items, 0, offset + size)
  {
  }

  lemma SliceOfConcat(a: seq<Row>, b: seq<Row>, offset: nat, size: nat)
    ensures Slice(a + b, offset, size)
         == Slice(a, offset, size) +
            Slice(b, if offset < |a| then 0 else offset - |a|, size - |Slice(a, offset, size)|)
  {
  }

  datatype Preview = Preview(usageBytes: int, candidateCount: nat, logicalBytes: int, items: seq<Row>)

  /** The rows of an ordered listing behind a cursor. */
  function Behind(rows: seq<Row>, accessed: int, id: nat): seq<Row> {
    if rows == [] then []
    else
      (if rows[0].accessed > accessed || (rows[0].accessed == accessed && rows[0].id > id) then [rows[0]] else []) +
      Behind(rows[1..], accessed, id)
  }

  ghost predicate DistinctIds(rows: seq<Row>) {
    forall i, j | 0 <= i < j < |rows| :: rows[i].id != rows[j].id
  }

  lemma {:induction false} BehindAll(rows: seq<Row>, accessed: int, id: nat)
    requires forall i | 0 <= i < |rows| :: rows[i].accessed > accessed || (rows[i].accessed == accessed && rows[i].id > id)
    ensures Behind(rows, accessed, id) == rows
  {
    if rows != [] {
      BehindAll(rows[1..], accessed, id);
    }
  }

  /** The cursor of a row leaves exactly the rows after it. */
  lemma {:induction false} BehindIsSuffix(rows: seq<Row>, k: nat)
    requires Ordered(rows, false) && DistinctIds(rows) && 0 < k <= |rows|
    ensures Behind(rows, rows[k - 1].accessed, rows[k - 1].id) == rows[k..]
  {
    if k == 1 {
      BehindAll(rows[1..], rows[0].accessed, rows[0].id);
    } else {
      assert Before(rows[0], rows[k - 1], false);
      BehindIsSuffix(rows[1..], k - 1);
      assert rows[1..][k - 1..] == rows[k..];
    }
  }

  /** The first count rows have been counted, and more are needed. */
  ghost predicate Counting(live: seq<Row>, need: int, count: nat, bytes: nat) {
    count <= |live| && bytes == Bytes(live[..count]) < need &&
    count + |Enough(live[count..], need - bytes)| == |Enough(live, need)| &&
    bytes + Bytes(Enough(live[count..], need - bytes)) == Bytes(Enough(live, need))
  }

  lemma CountOne(live: seq<Row>, need: int, count: nat, bytes: nat)
    requires Counting(live, need, count, bytes) && count < |live|
    ensures var next := bytes + live[count].size;
            if next < need then Counting(live, need, count + 1, next)
            else count + 1 == |Enough(live, need)| && next == Bytes(Enough(live, need))
  {
    var row, rest := live[count], live[count..];
    assert rest[1..] == live[count + 1..] && live[..count + 1] == live[..count] + [row];
    BytesConcat(live[..count], [row]);
    var tail := Enough(live[count + 1..], need - bytes - row.size);
    assert Enough(rest, need - bytes) == [row] + tail;
    BytesConcat([row], tail);
  }

  lemma CountStart(live: seq<Row>, need: int)
    requires need > 0
    ensures Counting(live, need, 0, 0)
  {
    assert live[0..] == live && live[..0] == [];
  }

  /** The count so far, or in the end. */
  ghost predicate Counted(live: seq<Row>, need: int, enough: bool, count: nat, bytes: nat) {
    if enough then count == |Enough(live, need)| && bytes == Bytes(Enough(live, need)) else Counting(live, need, count, bytes)
  }

  lemma NoMoreToCount(live: seq<Row>, need: int, bytes: nat)
    requires Counted(live, need, false, |live|, bytes)
    ensures Counted(live, need, true, |live|, bytes)
  {
    assert live[|live|..] == [];
  }

  predicate IsBatch(live: seq<Row>, start: nat, batch: seq<Row>) {
    start + |batch| <= |live| && forall i | 0 <= i < |batch| :: batch[i] == live[start + i]
  }

  /** One batch of that count, perhaps the last. */
  method CountBatch(ghost live: seq<Row>, need: int, startCount: nat, startBytes: nat, batch: seq<Row>)
      returns (enough: bool, count: nat, bytes: nat)
    requires Counted(live, need, false, startCount, startBytes)
    requires IsBatch(live, startCount, batch)
    requires |batch| < BATCH ==> startCount + |batch| == |live|
    ensures Counted(live, need, enough, count, bytes) && (!enough ==> count == startCount + |batch| && |batch| >= BATCH)
  {
    enough, count, bytes := false, startCount, startBytes;
    for i := 0 to |batch|
      invariant count == startCount + i && Counted(live, need, false, count, bytes)
    {
      CountOne(live, need, count, bytes);
      count, bytes := count + 1, bytes + batch[i].size;
      if bytes >= need {
        return true, count, bytes;
      }
    }
    if |batch| < BATCH {
      NoMoreToCount(live, need, bytes);
      enough := true;
    }
  }

  /** The cursor of the last row of a batch. */
  method CursorOf(ghost live: seq<Row>, ghost start: nat, batch: seq<Row>) returns (accessed: int, id: nat)
    requires IsBatch(live, start, batch) && batch != [] && forall r | r in live :: r.id > 0
    ensures StandsAt(live, start + |batch|, accessed, id)
  {
    var last := batch[|batch| - 1];
    assert last == live[start + |batch| - 1] && last in live;
    return last.accessed, last.id;
  }

  /** The next batch behind the cursor. */
  method NextBatch(live: seq<Row>, ghost count: nat, accessed: int, id: nat) returns (batch: seq<Row>)
    requires Ordered(live, false) && DistinctIds(live) && count <= |live| && StandsAt(live, count, accessed, id)
    ensures IsBatch(live, count, batch) && (|batch| < BATCH ==> count + |batch| == |live|)
  {
    var rest := live;
    if id != 0 {
      rest := Behind(live, accessed, id);
      BehindIsSuffix(live, count);
    }
    batch := if |rest| > BATCH then rest[..BATCH] else rest;
  }

  /** How far the eviction of the least recently used would go, counted batch by batch. */
  method CountLru(live: seq<Row>, need: int) returns (count: nat, bytes: nat)
    requires need > 0 && Ordered(live, false) && DistinctIds(live)
    requires forall r | r in live :: r.id > 0
    ensures count == |Enough(live, need)| && bytes == Bytes(Enough(live, need))
  {
    count, bytes := 0, 0;
    var accessed, id, enough := 0, 0, false;
    CountStart(live, need);
    while !enough
      invariant Counted(live, need, enough, count, bytes)
      invariant !enough ==> count <= |live| && StandsAt(live, count, accessed, id)
      decreases !enough, |live| - count
    {
      var batch := NextBatch(live, count, accessed, id);
      ghost var start := count;
      enough, count, bytes := CountBatch(live, need, count, bytes, batch);
      if !enough {
        accessed, id := CursorOf(live, start, batch);
      }
    }
  }

  /** The cursor is that of the last row before row count, or there is none yet. */
  predicate StandsAt(live: seq<Row>, count: nat, accessed: int, id: nat)
    requires count <= |live|
  {
    if id == 0 then count == 0 else count > 0 && live[count - 1].accessed == accessed && live[count - 1].id == id
  }

  // ---------------------------------------------------------------- the store

  ghost function Total(objects: map<string, nat>): nat
    decreases |objects|
  {
    if objects == map[] then 0
    else
      var path :| path in objects;
      Fewer(objects, path);
      objects[path] + Total(objects - {path})
  }

  lemma Fewer(objects: map<string, nat>, path: string)
    requires path in objects
    ensures |objects - {path}| == |objects| - 1
  {
    assert (objects - {path}).Keys == objects.Keys - {path};
  }

  lemma {:induction false} TotalWithout(objects: map<string, nat>, path: string)
    requires path in objects
    ensures Total(objects) == objects[path] + Total(objects - {path})
    decreases |objects|
  {
    var first :| first in objects && Total(objects) == objects[first] + Total(objects - {first});
    if first != path {
      var others, without := objects - {first}, objects - {path};
      Fewer(objects, first);
      Fewer(objects, path);
      assert others[path] == objects[path] && without[first] == objects[first];
      TotalWithout(others, path);
      TotalWithout(without, first);
      assert others - {path} == without - {first};
    }
  }

  function Drop(rows: seq<Row>, id: nat): seq<Row> {
    if rows == [] then [] else (if rows[0].id == id then [] else [rows[0]]) + Drop(rows[1..], id)
  }

  lemma {:induction false} DropMembers(rows: seq<Row>, id: nat)
    ensures forall r :: r in Drop(rows, id) <==> r in rows && r.id != id
  {
    if rows != [] {
      DropMembers(rows[1..], id);
      assert rows == [rows[0]] + rows[1..];
    }
  }

  lemma {:induction false} DropIsExact(rows: seq<Row>, id: nat)
    requires DistinctIds(rows)
    ensures DistinctIds(Drop(rows, id)) && forall r :: r in Drop(rows, id) <==> r in rows && r.id != id
  {
    DropMembers(rows, id);
    if rows != [] {
      var rest, tail := rows[1..], Drop(rows[1..], id);
      DropIsExact(rest, id);
      forall j | 0 <= j < |tail|
        ensures tail[j].id != rows[0].id
      {
        assert tail[j] in tail;
        var i :| 0 <= i < |rest| && rest[i] == tail[j];
        assert rows[i + 1] == rest[i];
      }
    }
  }

  /** Removing an expired row does not change what is listed as live. */
  lemma {:induction false} LiveAfterDrop(rows: seq<Row>, id: nat, now: int)
    requires forall i | 0 <= i < |rows| && rows[i].id == id :: Expired(rows[i], now)
    ensures Listed(Drop(rows, id), now, false) == Listed(rows, now, false)
  {
    if rows != [] {
      var tail := Drop(rows[1..], id);
      LiveAfterDrop(rows[1..], id, now);
      if rows[0].id == id {
        assert Drop(rows, id) == tail;
      } else {
        assert Drop(rows, id) == [rows[0]] + tail && ([rows[0]] + tail)[1..] == tail;
      }
    }
  }

  /** Rows have ids and objects of their own, and an object that is there has its row's size. */
  ghost predicate Matched(rows: seq<Row>, objects: map<string, nat>) {
    DistinctIds(rows) && (forall i, j | 0 <= i < j < |rows| :: rows[i].path != rows[j].path) &&
    forall r | r in rows :: r.id > 0 && (r.path in objects ==> objects[r.path] == r.size)
  }

  ghost predicate Stored(rows: seq<Row>, objects: map<string, nat>) {
    forall r | r in rows :: r.path in objects
  }

  datatype Removal = Removal(objectRemoved: bool, metadataRemoved: bool, reclaimedBytes: nat, failed: bool)

  datatype Report = Report(usageBefore: int, usageAfter: int, examined: nat, removed: nat, expiredRemoved: nat, lruRemoved: nat,
                           failed: nat, reclaimedBytes: int, targetMissed: bool)

  function DropAll(rows: seq<Row>, gone: seq<Row>): seq<Row> {
    if gone == [] then rows else Drop(DropAll(rows, gone[..|gone| - 1]), gone[|gone| - 1].id)
  }

  lemma DropOneMore(rows: seq<Row>, list: seq<Row>, k: nat)
    requires k < |list|
    ensures DropAll(rows, list[..k + 1]) == Drop(DropAll(rows, list[..k]), list[k].id)
    ensures Bytes(list[..k + 1]) == Bytes(list[..k]) + list[k].size
  {
    assert list[..k + 1][..k] == list[..k] && list[..k + 1] == list[..k] + [list[k]];
    BytesConcat(list[..k], [list[k]]);
  }

  /** What one of the two passes over candidates has done after k of them, on a store that works. */
  ghost predicate DoneWith(startRows: seq<Row>, startObjects: map<string, nat>, rows: seq<Row>, objects: map<string, nat>,
                           list: seq<Row>, k: nat, bytes: int, count: nat) {
    k <= |list| && rows == DropAll(startRows, list[..k]) && bytes == Bytes(list[..k]) && count == k && Stored(rows, objects)
  }

  /** What always holds of the candidates not yet dealt with. */
  ghost predicate StillThere(rows: seq<Row>, list: seq<Row>, k: nat) {
    forall i | k <= i < |list| :: list[i] in rows
  }

  lemma DropLeavesOthers(rows: seq<Row>, list: seq<Row>, k: nat)
    requires DistinctIds(rows) && DistinctIds(list) && StillThere(rows, list, k) && k < |list|
    ensures StillThere(Drop(rows, list[k].id), list, k + 1)
  {
    DropIsExact(rows, list[k].id);
  }

  lemma StoredAfterDrop(rows: seq<Row>, objects: map<string, nat>, row: Row)
    requires Matched(rows, objects) && Stored(rows, objects) && row in rows
    ensures Stored(Drop(rows, row.id), objects - {row.path})
  {
    DropIsExact(rows, row.id);
    forall r | r in Drop(rows, row.id)
      ensures r.path in objects - {row.path}
    {
      var i, j :| 0 <= i < |rows| && 0 <= j < |rows| && rows[i] == r && rows[j] == row;
      assert i != j;
    }
  }

  /** The history after the first k of a list have been removed. */
  predicate Gone(before: seq<Row>, after: seq<Row>, list: seq<Row>, k: nat) {
    k <= |list| && after == before + list[..k]
  }

  lemma GoneNext(before: seq<Row>, after: seq<Row>, list: seq<Row>, k: nat)
    requires Gone(before, after, list, k) && k < |list|
    ensures Gone(before, after + [list[k]], list, k + 1)
  {
    assert list[..k + 1] == list[..k] + [list[k]];
  }

  lemma EnoughIsDone(startRows: seq<Row>, startObjects: map<string, nat>, rows: seq<Row>, objects: map<string, nat>,
                     list: seq<Row>, need: int, lru: seq<Row>, bytes: int, count: nat, before: seq<Row>, after: seq<Row>)
    requires DoneWith(startRows, startObjects, rows, objects, list, |Enough(list, need)|, bytes, count)
    requires Gone(before, after, list, count) && lru == Enough(list, need)
    ensures rows == DropAll(startRows, lru) && bytes == Bytes(lru) && count == |lru| && after == before + lru
  {
    EnoughIsPrefix(list, need);
  }

  lemma GoneBoth(start: seq<Row>, middle: seq<Row>, end: seq<Row>, first: seq<Row>, second: seq<Row>)
    requires middle == start + first && end == middle + second
    ensures start <= end && end[|start|..] == first + second
  {
  }

  class Store {
    const reliable: bool
    var rows: seq<Row>
    var objects: map<string, nat>
    ghost var removed: seq<Row>

    ghost predicate Valid()
      reads this
    {
      Matched(rows, objects)
    }

    /** removeCandidate: the object goes first, then the row.  A reliable store does not fail. */
    method RemoveCandidate(candidate: Row) returns (removal: Removal)
      requires Valid() && candidate in rows
      modifies this
      ensures Valid()
      ensures rows == (if removal.metadataRemoved then Drop(old(rows), candidate.id) else old(rows))
      ensures objects == (if removal.objectRemoved then old(objects) - {candidate.path} else old(objects))
      ensures removal.objectRemoved ==> candidate.path in old(objects)
      ensures removal.reclaimedBytes == (if removal.objectRemoved then candidate.size else 0)
      ensures Total(objects) == Total(old(objects)) - removal.reclaimedBytes
      ensures removal.metadataRemoved <==> !removal.failed
      ensures removed == old(removed) + (if removal.metadataRemoved then [candidate] else [])
      ensures reliable ==>
                !removal.failed && removal.metadataRemoved && (removal.objectRemoved <==> candidate.path in old(objects))
    {
      removal := Removal(false, false, 0, false);
      var checkFails: bool, deleteFails: bool, rowFails: bool := *, *, *;
      if checkFails && !reliable {
        return removal.(failed := true);
      }
      if candidate.path in objects {
        if deleteFails && !reliable {
          return removal.(failed := true);
        }
        TotalWithout(objects, candidate.path);
        PathIsOwn(rows, objects, candidate);
        objects := objects - {candidate.path};
        removal := removal.(objectRemoved := true, reclaimedBytes := candidate.size);
      }
      if rowFails && !reliable {
        return removal.(failed := true);
      }
      DropKeepsMatched(rows, objects, candidate.id);
      rows, removed := Drop(rows, candidate.id), removed + [candidate];
      removal := removal.(metadataRemoved := true);
    }

    /** The expired rows, in the order of their listing; a failure does not stop the pass. */
    method RemoveExpired(list: seq<Row>, now: int) returns (count: nat, failed: nat, bytes: int)
      requires Valid() && DistinctIds(list) && StillThere(rows, list, 0) && forall r | r in list :: Expired(r, now)
      modifies this
      ensures Valid() && bytes == Total(old(objects)) - Total(objects) && count + failed == |list| && old(removed) <= removed
      ensures Listed(rows, now, false) == Listed(old(rows), now, false)
      ensures reliable && Stored(old(rows), old(objects)) ==>
                DoneWith(old(rows), old(objects), rows, objects, list, |list|, bytes, count) && failed == 0 &&
                removed == old(removed) + list
    {
      count, failed, bytes := 0, 0, 0;
      ghost var works := reliable && Stored(rows, objects);
      for k := 0 to |list|
        invariant count + failed == k && old(removed) <= removed && (works ==> failed == 0 && Gone(old(removed), removed, list, k))
        invariant ExpiryState(old(rows), old(objects), rows, objects, list, k, bytes, count, now, works)
      {
        ghost var before := removed;
        var ok;
        ok, bytes := RemoveNextExpired(list, k, bytes, count, now, works, old(rows), old(objects));
        if ok { count := count + 1; } else { failed := failed + 1; }
        if works { GoneNext(old(removed), before, list, k); }
      }
      assert list[..|list|] == list;
    }

    method RemoveNextExpired(list: seq<Row>, k: nat, freed: int, ghost count: nat, now: int, ghost works: bool,
                             ghost startRows: seq<Row>, ghost startObjects: map<string, nat>) returns (ok: bool, bytes: int)
      requires ExpiryState(startRows, startObjects, rows, objects, list, k, freed, count, now, works)
      requires DistinctIds(list) && k < |list| && Expired(list[k], now) && (works ==> reliable)
      modifies this
      ensures ExpiryState(startRows, startObjects, rows, objects, list, k + 1, bytes, if ok then count + 1 else count, now, works)
      ensures works ==> ok
      ensures removed == old(removed) + (if ok then [list[k]] else [])
    {
      ExpiryNext(startRows, startObjects, rows, objects, list, k, freed, count, now, works);
      var removal := RemoveCandidate(list[k]);
      ok, bytes := !removal.failed, freed + removal.reclaimedBytes;
    }

    /** The least recently used rows, until the usage has come down to the target. */
    method RemoveLru(list: seq<Row>, usage: int, target: int) returns (count: nat, failed: nat, bytes: int)
      requires Valid() && DistinctIds(list) && StillThere(rows, list, 0) && usage > target >= 0
      modifies this
      ensures Valid() && bytes == Total(old(objects)) - Total(objects) && count + failed <= |list| && old(removed) <= removed
      ensures reliable && Stored(old(rows), old(objects)) ==>
                DoneWith(old(rows), old(objects), rows, objects, list, |Enough(list, usage - target)|, bytes, count) && failed == 0 &&
                Gone(old(removed), removed, list, count)
    {
      count, failed, bytes := 0, 0, 0;
      var k := 0;
      ghost var works := reliable && Stored(rows, objects);
      while k < |list| && After(usage, bytes) > target
        invariant 0 <= k <= |list| && count + failed == k && old(removed) <= removed && (works ==> failed == 0 && Gone(old(removed), removed, list, k))
        invariant LruState(old(rows), old(objects), rows, objects, list, k, bytes, count, usage - target, works)
      {
        ghost var before := removed;
        var ok;
        ok, bytes := RemoveNext(list, k, bytes, count, usage - target, works, old(rows), old(objects));
        if ok { count := count + 1; } else { failed := failed + 1; }
        if works { GoneNext(old(removed), before, list, k); }
        k := k + 1;
      }
      if works {
        EnoughAt(list, usage - target, k);
      }
    }

    method RemoveNext(list: seq<Row>, k: nat, freed: int, ghost count: nat, ghost need: int, ghost works: bool,
                      ghost startRows: seq<Row>, ghost startObjects: map<string, nat>) returns (ok: bool, bytes: int)
      requires LruState(startRows, startObjects, rows, objects, list, k, freed, count, need, works)
      requires DistinctIds(list) && k < |list| && freed < need && (works ==> reliable)
      modifies this
      ensures LruState(startRows, startObjects, rows, objects, list, k + 1, bytes, if ok then count + 1 else count, need, works)
      ensures works ==> ok
      ensures removed == old(removed) + (if ok then [list[k]] else [])
    {
      LruNext(startRows, startObjects, rows, objects, list, k, freed, count, need, works);
      var removal := RemoveCandidate(list[k]);
      ok, bytes := !removal.failed, freed + removal.reclaimedBytes;
    }

    /** storage.TotalSize */
    method Measure() returns (total: nat)
      ensures total == Total(objects)
    {
      total := 0;
      var rest := objects;
      while rest != map[]
        invariant total + Total(rest) == Total(objects)
        decreases |rest|
      {
        var path :| path in rest;
        TotalWithout(rest, path);
        Fewer(rest, path);
        total, rest := total + rest[path], rest - {path};
      }
    }

    /** Reclaim.  What it reports as reclaimed is exactly what the usage has dropped by; on a store that
        works and has every object it removes exactly the victims. */
    method Reclaim(mode: Mode, now: int, policy: Policy) returns (report: Report)
      requires Valid() && policy.target >= 0
      modifies this
      ensures Valid() && report.usageBefore == Total(old(objects)) && report.usageAfter == Total(objects)
      ensures old(removed) <= removed
      ensures report.reclaimedBytes == report.usageBefore - report.usageAfter
      ensures reliable && Stored(old(rows), old(objects)) ==>
                Reclaimed(old(rows), rows, now, mode, Total(old(objects)), policy, report, removed[|old(removed)|..])
    {
      var usage := Measure();
      report := Report(usage, usage, 0, 0, 0, 0, 0, 0, false);
      if mode.Capacity? && usage < policy.threshold {
        NothingReclaimed(rows, now, mode, policy, report);
        return;
      }
      var bytes, left;
      ghost var expired;
      report, bytes, left, expired := FirstPass(now, report);
      ghost var middle, gone, lru := rows, removed, [];
      report, lru := LruPassIfNeeded(now, mode, left, policy, report);
      if reliable && Stored(old(rows), old(objects)) {
        TwoPasses(old(rows), middle, rows, now, mode, usage, policy, expired, lru, report, old(removed), gone, removed);
      }
    }

    /** The second pass, unless the usage is low enough. */
    method LruPassIfNeeded(now: int, mode: Mode, left: nat, policy: Policy, start: Report) returns (report: Report, ghost lru: seq<Row>)
      requires Valid() && left == Total(objects) && policy.target >= 0 && start.usageAfter == left
      modifies this
      ensures Valid() && report.usageBefore == start.usageBefore && report.usageAfter == Total(objects)
      ensures report.reclaimedBytes == start.reclaimedBytes + left - Total(objects) && old(removed) <= removed
      ensures lru == SecondPass(Listed(old(rows), now, false), mode, left, policy)
      ensures reliable && Stored(old(rows), old(objects)) ==>
                rows == DropAll(old(rows), lru) && report.removed == start.removed + |lru| && report.failed == start.failed &&
                report.reclaimedBytes == start.reclaimedBytes + Bytes(lru) && removed == old(removed) + lru
    {
      report := start;
      lru := SecondPass(Listed(rows, now, false), mode, left, policy);
      if NeedsLru(mode, left, policy) {
        ghost var gone;
        report, gone := LruPass(now, left, policy.target, report);
      }
    }

    /** The pass over the expired rows, and the usage after it. */
    method FirstPass(now: int, start: Report) returns (report: Report, bytes: int, left: nat, ghost expired: seq<Row>)
      requires Valid() && start.usageBefore == Total(objects)
      requires start.examined == start.removed == start.failed == start.reclaimedBytes == 0
      modifies this
      ensures Valid() && report.usageBefore == start.usageBefore && report.usageAfter == left == Total(objects)
      ensures report.reclaimedBytes == bytes == start.usageBefore - left && old(removed) <= removed
      ensures expired == Listed(old(rows), now, true) && Listed(rows, now, false) == Listed(old(rows), now, false)
      ensures reliable && Stored(old(rows), old(objects)) ==>
                rows == DropAll(old(rows), expired) && Stored(rows, objects) && bytes == Bytes(expired) &&
                report.removed == |expired| && report.failed == 0 && removed == old(removed) + expired
    {
      ListedRows(rows, now, true);
      var list := Listed(rows, now, true);
      expired := list;
      var count, failed;
      count, failed, bytes := RemoveExpired(list, now);
      assert list[..|list|] == list;
      left := Measure();
      report := start.(examined := |list|, removed := count, expiredRemoved := count, failed := failed,
                       reclaimedBytes := bytes, usageAfter := left);
    }

    /** The pass over the least recently used rows, and the usage after it. */
    method LruPass(now: int, left: nat, target: int, start: Report) returns (report: Report, ghost lru: seq<Row>)
      requires Valid() && left == Total(objects) > target >= 0
      modifies this
      ensures Valid() && report.usageBefore == start.usageBefore && report.usageAfter == Total(objects)
      ensures report.reclaimedBytes == start.reclaimedBytes + left - Total(objects) && old(removed) <= removed
      ensures lru == Enough(Listed(old(rows), now, false), left - target)
      ensures reliable && Stored(old(rows), old(objects)) ==>
                rows == DropAll(old(rows), lru) && report.removed == start.removed + |lru| && report.failed == start.failed &&
                report.reclaimedBytes == start.reclaimedBytes + Bytes(lru) && removed == old(removed) + lru
    {
      ListedRows(rows, now, false);
      var live := Listed(rows, now, false);
      lru := Enough(live, left - target);
      var count, failed, bytes := RemoveLru(live, left, target);
      if reliable && Stored(old(rows), old(objects)) {
        EnoughIsDone(old(rows), old(objects), rows, objects, live, left - target, lru, bytes, count, old(removed), removed);
      }
      var after := Measure();
      report := start.(examined := start.examined + count + failed, removed := start.removed + count, lruRemoved := count,
                       failed := start.failed + failed, reclaimedBytes := start.reclaimedBytes + bytes, usageAfter := after,
                       targetMissed := after > target);
    }

    /** How many rows a manual pass would remove of each kind, and how much they hold. */
    method Figures(expired: seq<Row>, live: seq<Row>, usage: nat, policy: Policy)
        returns (lruEnabled: bool, lruCount: nat, lruBytes: nat)
      requires DistinctIds(live) && Ordered(live, false) && forall r | r in live :: r.id > 0
      ensures var lru := SecondPass(live, Manual, After(usage, Bytes(expired)), policy);
              lruCount == |lru| && lruBytes == Bytes(lru) && (!lruEnabled ==> lru == []) && lru <= live
    {
      var postExpiryUsage := if usage - Bytes(expired) < 0 then 0 else usage - Bytes(expired);
      lruEnabled := postExpiryUsage >= policy.threshold && postExpiryUsage > policy.target;
      lruCount, lruBytes := 0, 0;
      if lruEnabled {
        lruCount, lruBytes := CountLru(live, postExpiryUsage - policy.target);
        EnoughIsShortest(live, postExpiryUsage - policy.target);
      }
    }

    /** Preview of a manual pass at the same instant: one page of the rows it would remove. */
    method PreviewPage(now: int, policy: Policy, page: nat, pageSize: nat) returns (preview: Preview)
      requires Valid() && policy.target >= 0 && page >= 1 && pageSize >= 1
      ensures preview.usageBytes == Total(objects)
      ensures Previews(preview, Victims(rows, now, Manual, Total(objects), policy), page, pageSize)
    {
      var usage := Measure();
      var expired, live := Listed(rows, now, true), Listed(rows, now, false);
      ListedRows(rows, now, false);
      ListedIsExact(rows, now, false);
      var lruEnabled, lruCount, lruBytes := Figures(expired, live, usage, policy);
      ghost var lru := SecondPass(live, Manual, After(usage, Bytes(expired)), policy);
      var expiredCount, expiredBytes, offset := |expired|, Bytes(expired), Offset(page, pageSize);
      var items := if offset < expiredCount then Slice(expired, offset, pageSize) else [];
      PageAssembled(expired, live, lru, offset, pageSize);
      var remaining := pageSize - |items|;
      if lruEnabled && remaining > 0 {
        var lruOffset := if offset - expiredCount < 0 then 0 else offset - expiredCount;
        if lruOffset < lruCount {
          var limit := if remaining > lruCount - lruOffset then lruCount - lruOffset else remaining;
          items := items + Slice(live, lruOffset, limit);
        }
      }
      preview := Preview(usage, expiredCount + lruCount, expiredBytes + lruBytes, items);
      PreviewedVictims(rows, now, usage, policy, preview, page, pageSize);
    }
  }

  // ---------------------------------------------------------------- the preview tells the truth

  /** All pages of a preview, one after the other. */
  method PreviewAll(store: Store, now: int, policy: Policy, pageSize: nat) returns (items: seq<Row>)
    requires store.Valid() && policy.target >= 0 && pageSize >= 1
    ensures items == Victims(store.rows, now, Manual, Total(store.objects), policy)
  {
    ghost var victims := Victims(store.rows, now, Manual, Total(store.objects), policy);
    var preview := store.PreviewPage(now, policy, 1, pageSize);
    items := preview.items;
    var page, count := 1, preview.candidateCount;
    assert Pages(victims, 0, pageSize) + Page(victims, 1, pageSize) == Page(victims, 1, pageSize);
    while page * pageSize < count
      invariant page >= 1 && count == |victims| && items == Pages(victims, page, pageSize)
      decreases count - page
    {
      Product(page, 1, pageSize);
      page := page + 1;
      preview := store.PreviewPage(now, policy, page, pageSize);
      items := items + preview.items;
    }
    PagesAreTheItems(victims, page, pageSize);
  }

  /** The pages of a preview, put together, are the entries that a manual reclaim at the same instant
      removes, in the same order, with the bytes it reclaims. */
  method PreviewThenReclaim(store: Store, now: int, policy: Policy, pageSize: nat) returns (items: seq<Row>, report: Report)
    requires store.Valid() && policy.target >= 0 && pageSize >= 1
    modifies store
    ensures store.Valid() && report.reclaimedBytes == Total(old(store.objects)) - Total(store.objects)
    ensures store.reliable && Stored(old(store.rows), old(store.objects)) ==>
              store.removed == old(store.removed) + items && report.removed == |items| && report.reclaimedBytes == Bytes(items)
  {
    items := PreviewAll(store, now, policy, pageSize);
    report := store.Reclaim(Manual, now, policy);
  }

  /** A preview shows one page of these rows and counts all of them. */
  ghost predicate Previews(preview: Preview, victims: seq<Row>, page: nat, pageSize: nat)
    requires page >= 1 && pageSize >= 1
  {
    preview.candidateCount == |victims| && preview.logicalBytes == Bytes(victims) && preview.items == Page(victims, page, pageSize)
  }

  lemma PreviewedVictims(rows: seq<Row>, now: int, usage: int, policy: Policy, preview: Preview, page: nat, pageSize: nat)
    requires page >= 1 && pageSize >= 1
    requires var expired := Listed(rows, now, true);
             var lru := SecondPass(Listed(rows, now, false), Manual, After(usage, Bytes(expired)), policy);
             preview.candidateCount == |expired| + |lru| && preview.logicalBytes == Bytes(expired) + Bytes(lru) &&
             preview.items == Slice(expired + lru, Offset(page, pageSize), pageSize)
    ensures Previews(preview, Victims(rows, now, Manual, usage, policy), page, pageSize)
  {
    var expired := Listed(rows, now, true);
    BytesConcat(expired, SecondPass(Listed(rows, now, false), Manual, After(usage, Bytes(expired)), policy));
  }

  /** A page is what it shows of the expired rows and then of the prefix of the live ones. */
  lemma PageAssembled(expired: seq<Row>, live: seq<Row>, lru: seq<Row>, offset: nat, size: nat)
    requires lru <= live
    ensures var first := if offset < |expired| then Slice(expired, offset, size) else [];
            var remaining := size - |first|;
            var o := if offset - |expired| < 0 then 0 else offset - |expired|;
            |first| <= size &&
            Slice(expired + lru, offset, size)
              == (if remaining > 0 && o < |lru| then
                    first + Slice(live, o, if remaining > |lru| - o then |lru| - o else remaining)
                  else first)
  {
    var first := if offset < |expired| then Slice(expired, offset, size) else [];
    var remaining := size - |first|;
    var o := if offset - |expired| < 0 then 0 else offset - |expired|;
    SliceOfConcat(expired, lru, offset, size);
    if remaining > 0 && o < |lru| {
      SliceOfPrefix(live, lru, o, remaining);
    } else {
      assert first + [] == first;
    }
  }

  /** What a pass on a store that works has done. */
  ghost predicate Reclaimed(before: seq<Row>, after: seq<Row>, now: int, mode: Mode, usage: int, policy: Policy, report: Report,
                            gone: seq<Row>) {
    var victims := Victims(before, now, mode, usage, policy);
    gone == victims && after == DropAll(before, victims) && report.removed == |victims| && report.failed == 0 &&
    report.reclaimedBytes == Bytes(victims)
  }

  lemma NothingReclaimed(rows: seq<Row>, now: int, mode: Mode, policy: Policy, report: Report)
    requires mode.Capacity? && report.usageBefore < policy.threshold
    requires report.removed == report.failed == report.reclaimedBytes == 0
    ensures Reclaimed(rows, rows, now, mode, report.usageBefore, policy, report, [])
  {
  }

  /** The rows the second pass of a reclaim removes. */
  function SecondPass(live: seq<Row>, mode: Mode, left: int, policy: Policy): seq<Row> {
    if NeedsLru(mode, left, policy) then Enough(live, left - policy.target) else []
  }

  /** The two passes together remove the victims. */
  lemma TwoPasses(before: seq<Row>, middle: seq<Row>, after: seq<Row>, now: int, mode: Mode, usage: int, policy: Policy,
                  expired: seq<Row>, lru: seq<Row>, report: Report, start: seq<Row>, gone: seq<Row>, end: seq<Row>)
    requires !(mode.Capacity? && usage < policy.threshold) && expired == Listed(before, now, true)
    requires usage >= Bytes(expired) && lru == SecondPass(Listed(before, now, false), mode, usage - Bytes(expired), policy)
    requires middle == DropAll(before, expired) && after == DropAll(middle, lru)
    requires report.removed == |expired| + |lru| && report.failed == 0 && report.reclaimedBytes == Bytes(expired) + Bytes(lru)
    requires gone == start + expired && end == gone + lru
    ensures start <= end && Reclaimed(before, after, now, mode, usage, policy, report, end[|start|..])
  {
    DropAllConcat(before, expired, lru);
    BytesConcat(expired, lru);
    VictimsParts(before, now, mode, usage, policy, expired, lru);
    GoneBoth(start, gone, end, expired, lru);
  }

  lemma VictimsParts(rows: seq<Row>, now: int, mode: Mode, usage: int, policy: Policy, expired: seq<Row>, lru: seq<Row>)
    requires !(mode.Capacity? && usage < policy.threshold) && expired == Listed(rows, now, true)
    requires usage >= Bytes(expired) && lru == SecondPass(Listed(rows, now, false), mode, usage - Bytes(expired), policy)
    ensures Victims(rows, now, mode, usage, policy) == expired + lru
  {
  }

  lemma SliceOfPrefix(rows: seq<Row>, prefix: seq<Row>, offset: nat, size: nat)
    requires prefix <= rows && offset < |prefix|
    ensures var limit := if size > |prefix| - offset then |prefix| - offset else size;
            Slice(rows, offset, limit) == Slice(prefix, offset, size)
  {
  }

  ghost predicate LruDone(startRows: seq<Row>, startObjects: map<string, nat>, rows: seq<Row>, objects: map<string, nat>,
                          list: seq<Row>, k: nat, bytes: int, count: nat, need: int) {
    DoneWith(startRows, startObjects, rows, objects, list, k, bytes, count) && k <= |Enough(list, need)|
  }

  ghost predicate ExpiryState(startRows: seq<Row>, startObjects: map<string, nat>, rows: seq<Row>, objects: map<string, nat>,
                              list: seq<Row>, k: nat, bytes: int, count: nat, now: int, works: bool) {
    Matched(rows, objects) && StillThere(rows, list, k) && bytes == Total(startObjects) - Total(objects) &&
    Listed(rows, now, false) == Listed(startRows, now, false) &&
    (works ==> DoneWith(startRows, startObjects, rows, objects, list, k, bytes, count))
  }

  lemma ExpiryNext(startRows: seq<Row>, startObjects: map<string, nat>, rows: seq<Row>, objects: map<string, nat>,
                   list: seq<Row>, k: nat, bytes: int, count: nat, now: int, works: bool)
    requires ExpiryState(startRows, startObjects, rows, objects, list, k, bytes, count, now, works)
    requires DistinctIds(list) && k < |list| && Expired(list[k], now)
    ensures StillThere(Drop(rows, list[k].id), list, k + 1) && StillThere(rows, list, k + 1)
    ensures Listed(Drop(rows, list[k].id), now, false) == Listed(rows, now, false)
    ensures works ==> list[k].path in objects &&
                      DoneWith(startRows, startObjects, Drop(rows, list[k].id), objects - {list[k].path}, list, k + 1,
                               bytes + list[k].size, count + 1)
  {
    DropLeavesOthers(rows, list, k);
    OnlyExpired(rows, list[k], now);
    DropOneMore(startRows, list, k);
    if works {
      StoredAfterDrop(rows, objects, list[k]);
    }
  }

  ghost predicate LruState(startRows: seq<Row>, startObjects: map<string, nat>, rows: seq<Row>, objects: map<string, nat>,
                           list: seq<Row>, k: nat, bytes: int, count: nat, need: int, works: bool) {
    Matched(rows, objects) && StillThere(rows, list, k) && bytes == Total(startObjects) - Total(objects) &&
    (works ==> LruDone(startRows, startObjects, rows, objects, list, k, bytes, count, need))
  }

  /** What removing the next candidate will have done. */
  lemma LruNext(startRows: seq<Row>, startObjects: map<string, nat>, rows: seq<Row>, objects: map<string, nat>,
                list: seq<Row>, k: nat, bytes: int, count: nat, need: int, works: bool)
    requires LruState(startRows, startObjects, rows, objects, list, k, bytes, count, need, works)
    requires DistinctIds(list) && k < |list| && bytes < need
    ensures StillThere(Drop(rows, list[k].id), list, k + 1) && StillThere(rows, list, k + 1)
    ensures works ==> LruDone(startRows, startObjects, Drop(rows, list[k].id), objects - {list[k].path}, list, k + 1,
                              bytes + list[k].size, count + 1, need) && list[k].path in objects
  {
    DropLeavesOthers(rows, list, k);
    DropOneMore(startRows, list, k);
    NotYetEnough(list, need, k);
    if works {
      StoredAfterDrop(rows, objects, list[k]);
    }
  }

  lemma {:induction false} DropAllConcat(rows: seq<Row>, a: seq<Row>, b: seq<Row>)
    ensures DropAll(DropAll(rows, a), b) == DropAll(rows, a + b)
    decreases |b|
  {
    if b == [] {
      assert a + b == a;
    } else {
      var front := b[..|b| - 1];
      assert (a + b)[..|a + b| - 1] == a + front;
      DropAllConcat(rows, a, front);
    }
  }

  lemma OnlyExpired(rows: seq<Row>, row: Row, now: int)
    requires DistinctIds(rows) && row in rows && Expired(row, now)
    ensures Listed(Drop(rows, row.id), now, false) == Listed(rows, now, false)
  {
    LiveAfterDrop(rows, row.id, now);
  }

  lemma EnoughIsPrefix(list: seq<Row>, need: int)
    ensures |Enough(list, need)| <= |list| && list[..|Enough(list, need)|] == Enough(list, need)
  {
    EnoughIsShortest(list, need);
  }

  lemma NotYetEnough(list: seq<Row>, need: int, k: nat)
    requires k < |list|
    ensures Bytes(list[..k]) < need && k <= |Enough(list, need)| ==> k < |Enough(list, need)|
  {
    EnoughIsShortest(list, need);
    if k == |Enough(list, need)| {
      assert Enough(list, need) == list[..k];
    }
  }

  lemma EnoughAt(list: seq<Row>, need: int, k: nat)
    requires k <= |list|
    ensures k <= |Enough(list, need)| && (k == |list| || Bytes(list[..k]) >= need) ==> k == |Enough(list, need)|
  {
    var e := Enough(list, need);
    EnoughIsShortest(list, need);
    if k < |e| {
      assert e[..k] == list[..k];
    }
  }

  lemma PathIsOwn(rows: seq<Row>, objects: map<string, nat>, candidate: Row)
    requires Matched(rows, objects) && candidate in rows
    ensures Matched(rows, objects - {candidate.path})
  {
  }

  lemma DropKeepsMatched(rows: seq<Row>, objects: map<string, nat>, id: nat)
    requires Matched(rows, objects)
    ensures Matched(Drop(rows, id), objects)
  {
    DropIsExact(rows, id);
    DropKeepsPaths(rows, id);
  }

  lemma {:induction false} DropKeepsPaths(rows: seq<Row>, id: nat)
    requires DistinctIds(rows) && forall i, j | 0 <= i < j < |rows| :: rows[i].path != rows[j].path
    ensures var left := Drop(rows, id); forall i, j | 0 <= i < j < |left| :: left[i].path != left[j].path
  {
    if rows != [] {
      DropKeepsPaths(rows[1..], id);
      DropIsExact(rows[1..], id);
      forall r | r in Drop(rows[1..], id)
        ensures r.path != rows[0].path
      {
        var i :| 0 <= i < |rows[1..]| && rows[1..][i] == r;
        assert rows[i + 1] == r;
      }
    }
  }
}

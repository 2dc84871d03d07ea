/** Which rows a reclaim removes, row by row and in figures: by the second of its expiry, by what has been
    read longer ago, and by the watermarks. */
module RetentionVictims {
  import opened Wrappers
  import opened Retention

  /** The size of all rows that have expired before the second of this instant. */
  function ExpiredBytes(rows: seq<Row>, now: int): nat {
    if rows == [] then 0
    else (if rows[0].expires / SECOND < now / SECOND then rows[0].size else 0) + ExpiredBytes(rows[1..], now)
  }

  /** a was last read before b; of two read at once, the one with the smaller id goes first. */
  predicate ReadBefore(a: Row, b: Row) {
    a.accessed < b.accessed || (a.accessed == b.accessed && a.id < b.id)
  }

  /** The size of all rows that have not expired and were last read before r. */
  function OlderBytes(rows: seq<Row>, now: int, r: Row): nat {
    if rows == [] then 0
    else
      (if rows[0].expires / SECOND >= now / SECOND && ReadBefore(rows[0], r) then rows[0].size else 0) +
      OlderBytes(rows[1..], now, r)
  }

  /** The same, without regard to expiry. */
  function OlderIn(rows: seq<Row>, r: Row): nat {
    if rows == [] then 0 else (if ReadBefore(rows[0], r) then rows[0].size else 0) + OlderIn(rows[1..], r)
  }

  // ---------------------------------------------------------------- sums over a listing

  lemma {:induction false} InsertedBytes(x: Row, rows: seq<Row>, expiry: bool, r: Row)
    ensures Bytes(Insert(x, rows, expiry)) == x.size + Bytes(rows)
    ensures OlderIn(Insert(x, rows, expiry), r) == (if ReadBefore(x, r) then x.size else 0) + OlderIn(rows, r)
  {
    if rows == [] || Before(x, rows[0], expiry) {
      assert ([x] + rows)[1..] == rows;
    } else {
      InsertedBytes(x, rows[1..], expiry, r);
      var tail := Insert(x, rows[1..], expiry);
      assert ([rows[0]] + tail)[1..] == tail;
    }
  }

  lemma {:induction false} ListedBytes(rows: seq<Row>, now: int, r: Row)
    ensures Bytes(Listed(rows, now, true)) == ExpiredBytes(rows, now)
    ensures OlderIn(Listed(rows, now, false), r) == OlderBytes(rows, now, r)
  {
    if rows != [] {
      ListedBytes(rows[1..], now, r);
      InsertedBytes(rows[0], Listed(rows[1..], now, true), true, r);
      InsertedBytes(rows[0], Listed(rows[1..], now, false), false, r);
    }
  }

  /** In a listing by access, what was read before a row is what stands before it. */
  lemma {:induction false} OlderIsBefore(list: seq<Row>, k: nat)
    requires Ordered(list, false) && DistinctIds(list) && k < |list|
    ensures OlderIn(list, list[k]) == Bytes(list[..k])
  {
    var tail := list[1..];
    assert Ordered(tail, false) && DistinctIds(tail) by {
      assert forall i | 0 <= i < |tail| :: tail[i] == list[i + 1];
    }
    if k == 0 {
      NothingOlder(tail, list[0]) by {
        assert forall i | 0 <= i < |tail| :: tail[i] == list[i + 1] && Before(list[0], list[i + 1], false);
      }
    } else {
      assert Before(list[0], list[k], false) && list[0].id != list[k].id;
      OlderIsBefore(tail, k - 1);
      assert list[..k][1..] == tail[..k - 1] && list[..k][0] == list[0];
    }
  }

  lemma {:induction false} NothingOlder(rows: seq<Row>, r: Row)
    requires forall x | x in rows :: ByAccess(r, x)
    ensures OlderIn(rows, r) == 0
  {
    if rows != [] {
      assert ByAccess(r, rows[0]);
      NothingOlder(rows[1..], r);
    }
  }

  lemma {:induction false} BytesGrow(rows: seq<Row>, a: nat, b: nat)
    requires a <= b <= |rows|
    ensures Bytes(rows[..a]) <= Bytes(rows[..b])
  {
    if a > 0 {
      BytesGrow(rows[1..], a - 1, b - 1);
      assert rows[..a][1..] == rows[1..][..a - 1] && rows[..b][1..] == rows[1..][..b - 1];
    }
  }

  /** A row is in the shortest sufficient prefix exactly if what stands before it does not suffice. */
  lemma InEnough(list: seq<Row>, need: int, k: nat)
    requires DistinctIds(list) && k < |list|
    ensures list[k] in Enough(list, need) <==> Bytes(list[..k]) < need
  {
    var e := Enough(list, need);
    EnoughIsShortest(list, need);
    if k < |e| {
      assert e[k] == list[k] && e[..k] == list[..k];
    } else {
      BytesGrow(list, |e|, k);
      assert e == list[..|e|];
      forall i | 0 <= i < |e|
        ensures e[i] != list[k]
      {
        assert e[i] == list[i];
      }
    }
  }

  // ---------------------------------------------------------------- the rows that go

  /** The usage after the first pass. */
  function LeftAfterExpiry(rows: seq<Row>, now: int, usage: int): int {
    if usage - ExpiredBytes(rows, now) < 0 then 0 else usage - ExpiredBytes(rows, now)
  }

  lemma VictimsInParts(rows: seq<Row>, now: int, mode: Mode, usage: int, policy: Policy)
    ensures Victims(rows, now, mode, usage, policy) ==
            if mode.Capacity? && usage < policy.threshold then []
            else Listed(rows, now, true) + SecondPass(Listed(rows, now, false), mode, LeftAfterExpiry(rows, now, usage), policy)
  {
    ListedBytes(rows, now, Row(0, "", "", 0, 0, 0));
  }

  lemma ListingIsSound(rows: seq<Row>, now: int)
    requires DistinctIds(rows)
    ensures Ordered(Listed(rows, now, false), false) && DistinctIds(Listed(rows, now, false))
  {
    ListedRows(rows, now, false);
    ListedIsExact(rows, now, false);
  }

  /** An unexpired row goes exactly if the second pass takes place and what was read before it does not
      make up for the excess. */
  lemma InSecondPass(rows: seq<Row>, now: int, mode: Mode, left: int, policy: Policy, r: Row)
    requires DistinctIds(rows) && r in Listed(rows, now, false)
    ensures r in SecondPass(Listed(rows, now, false), mode, left, policy) <==>
              left > policy.target && (mode.Capacity? || left >= policy.threshold) &&
              OlderBytes(rows, now, r) < left - policy.target
  {
    var live := Listed(rows, now, false);
    ListingIsSound(rows, now);
    ListedBytes(rows, now, r);
    LiveMember(live, left - policy.target, r);
    SecondPassHas(live, mode, left, policy, r, OlderBytes(rows, now, r));
  }

  lemma LiveMember(live: seq<Row>, need: int, r: Row)
    requires Ordered(live, false) && DistinctIds(live) && r in live
    ensures r in Enough(live, need) <==> OlderIn(live, r) < need
  {
    var k :| 0 <= k < |live| && live[k] == r;
    OlderIsBefore(live, k);
    InEnough(live, need, k);
  }

  lemma SecondPassHas(live: seq<Row>, mode: Mode, left: int, policy: Policy, r: Row, older: nat)
    requires r in Enough(live, left - policy.target) <==> older < left - policy.target
    ensures r in SecondPass(live, mode, left, policy) <==>
              left > policy.target && (mode.Capacity? || left >= policy.threshold) && older < left - policy.target
  {
  }

  lemma SecondPassIsLive(rows: seq<Row>, now: int, mode: Mode, left: int, policy: Policy)
    ensures SecondPass(Listed(rows, now, false), mode, left, policy) <= Listed(rows, now, false)
    ensures forall r | r in SecondPass(Listed(rows, now, false), mode, left, policy) :: !Expired(r, now)
  {
    var live := Listed(rows, now, false);
    EnoughIsShortest(live, left - policy.target);
    ListedRows(rows, now, false);
    assert forall r | r in SecondPass(live, mode, left, policy) :: r in live;
  }

  lemma VictimOrNot(rows: seq<Row>, now: int, mode: Mode, usage: int, policy: Policy, r: Row)
    requires DistinctIds(rows) && r in rows
    ensures var left := LeftAfterExpiry(rows, now, usage);
            r in Victims(rows, now, mode, usage, policy) <==>
              !(mode.Capacity? && usage < policy.threshold) &&
              (Expired(r, now) ||
               (left > policy.target && (mode.Capacity? || left >= policy.threshold) &&
                OlderBytes(rows, now, r) < left - policy.target))
  {
    VictimsInParts(rows, now, mode, usage, policy);
    ListedRows(rows, now, true);
    if Expired(r, now) {
      assert r in Listed(rows, now, true);
    } else {
      ListedRows(rows, now, false);
      InSecondPass(rows, now, mode, LeftAfterExpiry(rows, now, usage), policy, r);
    }
  }

  /** Which rows a reclaim removes.  An automatic one does nothing below the threshold.  Otherwise every
      row goes whose expiry lies in an earlier second; and any other exactly if what is left is over the
      target, and at the threshold unless the reclaim is automatic, and the unexpired rows read before it
      do not make up for the excess. */
  lemma VictimsAreExact(rows: seq<Row>, now: int, mode: Mode, usage: int, policy: Policy, r: Row)
    requires DistinctIds(rows) && r in rows
    ensures var spent := ExpiredBytes(rows, now);
            var left := if usage < spent then 0 else usage - spent;
            r in Victims(rows, now, mode, usage, policy) <==>
              !(mode.Capacity? && usage < policy.threshold) &&
              (r.expires / SECOND < now / SECOND ||
               (left > policy.target && (mode.Capacity? || left >= policy.threshold) &&
                OlderBytes(rows, now, r) < left - policy.target))
  {
    VictimOrNot(rows, now, mode, usage, policy, r);
  }

  lemma ExpiredInOrder(rows: seq<Row>, now: int, i: nat, j: nat)
    requires DistinctIds(rows) && i < j < |Listed(rows, now, true)|
    ensures var a, b := Listed(rows, now, true)[i], Listed(rows, now, true)[j];
            Expired(a, now) && Expired(b, now) && (a.expires < b.expires || (a.expires == b.expires && a.id < b.id))
  {
    ListedRows(rows, now, true);
    ListedIsExact(rows, now, true);
    var list := Listed(rows, now, true);
    assert list[i] in list && list[j] in list && Before(list[i], list[j], true);
  }

  lemma LiveInOrder(rows: seq<Row>, now: int, i: nat, j: nat)
    requires DistinctIds(rows) && i < j < |Listed(rows, now, false)|
    ensures ReadBefore(Listed(rows, now, false)[i], Listed(rows, now, false)[j])
  {
    ListedRows(rows, now, false);
    ListedIsExact(rows, now, false);
    var list := Listed(rows, now, false);
    assert Before(list[i], list[j], false);
  }

  /** In which order they go: the expired ones first, by expiry, then the others, by last access, and by
      id where these agree. */
  lemma VictimsInOrder(rows: seq<Row>, now: int, mode: Mode, usage: int, policy: Policy, i: nat, j: nat)
    requires DistinctIds(rows) && i < j < |Victims(rows, now, mode, usage, policy)|
    ensures var a, b := Victims(rows, now, mode, usage, policy)[i], Victims(rows, now, mode, usage, policy)[j];
            if Expired(a, now) then !Expired(b, now) || a.expires < b.expires || (a.expires == b.expires && a.id < b.id)
            else !Expired(b, now) && (a.accessed < b.accessed || (a.accessed == b.accessed && a.id < b.id))
  {
    var left := LeftAfterExpiry(rows, now, usage);
    VictimsInParts(rows, now, mode, usage, policy);
    SecondPassIsLive(rows, now, mode, left, policy);
    ListedRows(rows, now, true);
    var expired, lru := Listed(rows, now, true), SecondPass(Listed(rows, now, false), mode, left, policy);
    var n := |expired|;
    if j < n {
      ExpiredInOrder(rows, now, i, j);
    } else if i < n {
      assert expired[i] in expired && lru[j - n] in lru;
    } else {
      assert lru[i - n] in lru && lru[j - n] in lru;
      LiveInOrder(rows, now, i - n, j - n);
    }
  }
}

/** `cleanup_old_cookies` of cookie_cleaner/main.py: once the table holds at least 15
    rows, the older half of them (rounded down) is deleted. */
module Cleaner {
  import opened Store

  const MIN_COUNT_TO_CLEAN := 15

  /** The position of a row with the smallest timestamp (the first such row). */
  function OldestIndex(rows: seq<CookieRecord>): (i: nat)
    requires rows != []
    ensures i < |rows|
  {
    if |rows| == 1 then
      0
    else
      var k := OldestIndex(rows[1..]) + 1;
      if rows[k].timestamp < rows[0].timestamp then k else 0
  }

  /** No row is older than the one `OldestIndex` finds. */
  lemma {:induction false} OldestIndexIsOldest(rows: seq<CookieRecord>)
    requires rows != []
    ensures forall j :: 0 <= j < |rows| ==> rows[OldestIndex(rows)].timestamp <= rows[j].timestamp
  {
    if |rows| > 1 {
      var rest := rows[1..];
      OldestIndexIsOldest(rest);
      assert forall j :: 0 <= j < |rest| ==> rest[j] == rows[j + 1];
    }
  }

  /** The rows without the one at position `i`. */
  function RemoveAt(rows: seq<CookieRecord>, i: nat): seq<CookieRecord>
    requires i < |rows|
  {
    rows[..i] + rows[i + 1..]
  }

  /** The rows after position `i` move down by one. */
  lemma RemoveAtShifts(rows: seq<CookieRecord>, i: nat)
    requires i < |rows|
    ensures |RemoveAt(rows, i)| == |rows| - 1
    ensures forall j :: 0 <= j < |rows| - 1 ==>
      RemoveAt(rows, i)[j] == rows[if j < i then j else j + 1]
  {
  }

  /** Removing a row keeps the primary key. */
  lemma RemoveAtUnique(rows: seq<CookieRecord>, i: nat)
    requires i < |rows| && UniqueIds(rows)
    ensures UniqueIds(RemoveAt(rows, i))
  {
    var r := RemoveAt(rows, i);
    RemoveAtShifts(rows, i);
    forall p, q | 0 <= p < q < |r| ensures r[p].id != r[q].id {
      assert r[p] == rows[if p < i then p else p + 1];
      assert r[q] == rows[if q < i then q else q + 1];
    }
  }

  /** Under the primary key, the id of the removed row is gone. */
  lemma RemoveAtDropsId(rows: seq<CookieRecord>, i: nat)
    requires i < |rows| && UniqueIds(rows)
    ensures rows[i].id !in Ids(RemoveAt(rows, i))
  {
    var r := RemoveAt(rows, i);
    RemoveAtShifts(rows, i);
    forall j | 0 <= j < |r| ensures r[j].id != rows[i].id {
      assert r[j] == rows[if j < i then j else j + 1];
    }
  }

  /** No id is added by removing a row. */
  lemma RemoveAtKeepsIds(rows: seq<CookieRecord>, i: nat)
    requires i < |rows|
    ensures Ids(RemoveAt(rows, i)) <= Ids(rows)
  {
    var r := RemoveAt(rows, i);
    RemoveAtShifts(rows, i);
    forall id | id in Ids(r) ensures id in Ids(rows) {
      var j :| 0 <= j < |r| && r[j].id == id;
      assert r[j] == rows[if j < i then j else j + 1];
    }
  }

  /** The ids `SELECT id ... ORDER BY timestamp ASC LIMIT k` picks: the oldest row, then
      the oldest of the others, `k` times or until none is left. Among rows of equal
      timestamp the earlier one is taken. */
  function Oldest(rows: seq<CookieRecord>, k: nat): (r: set<int>)
    ensures |r| <= k && |r| <= |rows|
    decreases k
  {
    if k == 0 || |rows| == 0 then
      {}
    else
      var m := OldestIndex(rows);
      {rows[m].id} + Oldest(RemoveAt(rows, m), k - 1)
  }

  function Min(a: nat, b: nat): nat {
    if a <= b then a else b
  }

  /** Only existing ids are picked. */
  lemma {:induction false} OldestAreIds(rows: seq<CookieRecord>, k: nat)
    requires UniqueIds(rows)
    ensures Oldest(rows, k) <= Ids(rows)
    decreases k
  {
    if k != 0 && |rows| > 0 {
      var m := OldestIndex(rows);
      var rest := RemoveAt(rows, m);
      RemoveAtUnique(rows, m);
      OldestAreIds(rest, k - 1);
      RemoveAtKeepsIds(rows, m);
      OldestStep(rows, k);
      assert rows[m].id in Ids(rows);
    }
  }

  /** One step of `Oldest`: the oldest row's id, then what the other rows give. */
  lemma OldestStep(rows: seq<CookieRecord>, k: nat)
    requires k != 0 && |rows| > 0
    ensures Oldest(rows, k) == {rows[OldestIndex(rows)].id} + Oldest(RemoveAt(rows, OldestIndex(rows)), k - 1)
  {
  }

  /** `k` distinct ids are picked, or all of them when there are fewer rows. */
  lemma {:induction false} OldestCount(rows: seq<CookieRecord>, k: nat)
    requires UniqueIds(rows)
    ensures |Oldest(rows, k)| == Min(k, |rows|)
    decreases k, 2
  {
    if k == 0 || |rows| == 0 {
      assert Oldest(rows, k) == {};
    } else {
      OldestCountStep(rows, k);
    }
  }

  /** The step of `OldestCount`: the oldest id is not among the ids picked from the rest. */
  lemma {:induction false} OldestCountStep(rows: seq<CookieRecord>, k: nat)
    requires UniqueIds(rows) && k != 0 && |rows| > 0
    ensures |Oldest(rows, k)| == Min(k, |rows|)
    decreases k, 1
  {
    var m := OldestIndex(rows);
    var picked := Oldest(RemoveAt(rows, m), k - 1);
    PickedFromRest(rows, k);
    OldestNotPickedAgain(rows, k);
    OldestStep(rows, k);
    AddFreshId(rows[m].id, picked, Min(k - 1, |rows| - 1), Oldest(rows, k));
  }

  /** How many ids the recursive pick over the other rows gives. */
  lemma {:induction false} PickedFromRest(rows: seq<CookieRecord>, k: nat)
    requires UniqueIds(rows) && k != 0 && |rows| > 0
    ensures |Oldest(RemoveAt(rows, OldestIndex(rows)), k - 1)| == Min(k - 1, |rows| - 1)
    decreases k, 0
  {
    var m := OldestIndex(rows);
    var rest := RemoveAt(rows, m);
    assert |rest| == |rows| - 1;
    RemoveAtUnique(rows, m);
    OldestCount(rest, k - 1);
  }

  /** The recursive pick over the other rows does not pick the oldest row's id again. */
  lemma OldestNotPickedAgain(rows: seq<CookieRecord>, k: nat)
    requires UniqueIds(rows) && k != 0 && |rows| > 0
    ensures rows[OldestIndex(rows)].id !in Oldest(RemoveAt(rows, OldestIndex(rows)), k - 1)
  {
    var m := OldestIndex(rows);
    var rest := RemoveAt(rows, m);
    RemoveAtUnique(rows, m);
    RemoveAtDropsId(rows, m);
    NotPicked(rest, k - 1, rows[m].id);
  }

  /** An id that no row has is never picked. */
  lemma NotPicked(rows: seq<CookieRecord>, k: nat, id: int)
    requires UniqueIds(rows) && id !in Ids(rows)
    ensures id !in Oldest(rows, k)
  {
    OldestAreIds(rows, k);
  }

  lemma AddFreshId(id: int, picked: set<int>, n: nat, all: set<int>)
    requires id !in picked && |picked| == n && all == {id} + picked
    ensures |all| == n + 1
  {
  }

  /** No picked row is newer than a row that is not picked. */
  lemma {:induction false} OldestFirst(rows: seq<CookieRecord>, k: nat)
    requires UniqueIds(rows)
    ensures forall p, q :: 0 <= p < |rows| && 0 <= q < |rows| &&
              rows[p].id in Oldest(rows, k) && rows[q].id !in Oldest(rows, k)
              ==> rows[p].timestamp <= rows[q].timestamp
    decreases k
  {
    if k != 0 && |rows| > 0 {
      var m := OldestIndex(rows);
      var rest := RemoveAt(rows, m);
      var picked := Oldest(rest, k - 1);
      assert Oldest(rows, k) == {rows[m].id} + picked;
      RemoveAtUnique(rows, m);
      OldestIndexIsOldest(rows);
      OldestFirst(rest, k - 1);
      assert PickedAreOldest(rest, picked);
      OldestFirstStep(rows, m, picked);
    }
  }

  /** No row whose id is in `picked` is newer than a row whose id is not. */
  predicate PickedAreOldest(rows: seq<CookieRecord>, picked: set<int>) {
    forall p, q :: 0 <= p < |rows| && 0 <= q < |rows| &&
                   rows[p].id in picked && rows[q].id !in picked
                   ==> rows[p].timestamp <= rows[q].timestamp
  }

  /** Picking one oldest row in front of ids picked oldest among the others keeps the
      picked rows oldest. */
  lemma OldestFirstStep(rows: seq<CookieRecord>, m: nat, picked: set<int>)
    requires UniqueIds(rows) && m < |rows|
    requires forall j :: 0 <= j < |rows| ==> rows[m].timestamp <= rows[j].timestamp
    requires PickedAreOldest(RemoveAt(rows, m), picked)
    ensures PickedAreOldest(rows, {rows[m].id} + picked)
  {
    var rest := RemoveAt(rows, m);
    RemoveAtShifts(rows, m);
    forall p, q | 0 <= p < |rows| && 0 <= q < |rows| &&
                  rows[p].id in {rows[m].id} + picked && rows[q].id !in {rows[m].id} + picked
      ensures rows[p].timestamp <= rows[q].timestamp
    {
      if p != m {
        var p' := if p < m then p else p - 1;
        var q' := if q < m then q else q - 1;
        assert rest[p'] == rows[p] && rest[q'] == rows[q];
        assert rows[p].id != rows[m].id;
      }
    }
  }

  /** The table `cleanup_old_cookies` leaves behind when no error occurs. */
  function AfterCleanup(rows: seq<CookieRecord>): (r: seq<CookieRecord>)
    ensures |rows| < MIN_COUNT_TO_CLEAN ==> r == rows
    ensures forall x :: x in r ==> x in rows
  {
    if |rows| < MIN_COUNT_TO_CLEAN then rows
    else Without(rows, Oldest(rows, |rows| / 2))
  }

  /** `cleanup_old_cookies()`. `dbError` says that the database raised somewhere; the
      error is logged and nothing is committed. */
  method CleanupOldCookies(db: CookieTable, dbError: bool)
    requires db.Valid()
    modifies db
    ensures db.Valid()
    ensures dbError ==> db.rows == old(db.rows)
    ensures !dbError ==> db.rows == AfterCleanup(old(db.rows))
  {
    if dbError {
      return;
    }
    var total := |db.rows|;
    if total < MIN_COUNT_TO_CLEAN {
      return;
    }
    var toDelete := total / 2;
    var oldest := Oldest(db.rows, toDelete);
    var rowcount := db.DeleteWhere(oldest);
  }

  // ---------------------------------------------------------------------------
  // Properties of cleanup_old_cookies

  /** Below 15 rows nothing is deleted; from 15 on, `total // 2` rows are, leaving
      `total - total // 2`. */
  lemma CleanupCount(rows: seq<CookieRecord>)
    requires UniqueIds(rows)
    ensures |rows| < MIN_COUNT_TO_CLEAN ==> AfterCleanup(rows) == rows
    ensures |rows| >= MIN_COUNT_TO_CLEAN ==> |AfterCleanup(rows)| == |rows| - |rows| / 2
  {
    if |rows| >= MIN_COUNT_TO_CLEAN {
      var picked := Oldest(rows, |rows| / 2);
      OldestCount(rows, |rows| / 2);
      OldestAreIds(rows, |rows| / 2);
      WithoutCount(rows, picked);
      assert picked * Ids(rows) == picked;
      assert |rows| / 2 <= |rows|;
    }
  }

  /** For example 15 rows become 8, and 20 become 10. */
  lemma CleanupExamples(rows: seq<CookieRecord>)
    requires UniqueIds(rows)
    ensures |rows| == 15 ==> |AfterCleanup(rows)| == 8
    ensures |rows| == 20 ==> |AfterCleanup(rows)| == 10
    ensures |rows| == 14 ==> |AfterCleanup(rows)| == 14
  {
    CleanupCount(rows);
  }

  /** Every deleted row is at most as new as every surviving row. */
  lemma CleanupKeepsNewest(rows: seq<CookieRecord>)
    requires UniqueIds(rows)
    ensures forall a, b :: a in rows && a !in AfterCleanup(rows) && b in AfterCleanup(rows)
              ==> a.timestamp <= b.timestamp
  {
    if |rows| >= MIN_COUNT_TO_CLEAN {
      var picked := Oldest(rows, |rows| / 2);
      OldestFirst(rows, |rows| / 2);
      forall a, b | a in rows && a !in AfterCleanup(rows) && b in AfterCleanup(rows)
        ensures a.timestamp <= b.timestamp
      {
        var p :| 0 <= p < |rows| && rows[p] == a;
        var q :| 0 <= q < |rows| && rows[q] == b;
        assert a.id in picked && b.id !in picked;
      }
    }
  }

  /** The survivors are original rows, unchanged, and are exactly the
      rows whose id was not picked; the picked ids are existing ids. */
  lemma CleanupSurvivors(rows: seq<CookieRecord>)
    requires UniqueIds(rows)
    ensures UniqueIds(AfterCleanup(rows))
    ensures |rows| >= MIN_COUNT_TO_CLEAN ==>
      var picked := Oldest(rows, |rows| / 2);
      && picked <= Ids(rows) && |picked| == |rows| / 2
      && forall x :: x in AfterCleanup(rows) <==> x in rows && x.id !in picked
  {
    if |rows| >= MIN_COUNT_TO_CLEAN {
      OldestCount(rows, |rows| / 2);
      OldestAreIds(rows, |rows| / 2);
      WithoutKeepsUnique(rows, Oldest(rows, |rows| / 2));
    }
  }
}

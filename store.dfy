/** The `cookies` table shared by the collector, the cleaner and the API: a sequence of
    rows, with the two deletions the programs issue against it. */
module Store {
  /** One row of the table. `timestamp` stands for the creation time as a number;
      `cookies` is the name-to-value dictionary the row's JSON column encodes. */
  datatype CookieRecord = CookieRecord(
    id: int,
    timestamp: int,
    cookies: map<string, string>,
    proxy: string,
    afterCaptcha: bool)

  /** `id` is the primary key. */
  predicate UniqueIds(rows: seq<CookieRecord>) {
    forall i, j :: 0 <= i < j < |rows| ==> rows[i].id != rows[j].id
  }

  function Ids(rows: seq<CookieRecord>): set<int> {
    set j | 0 <= j < |rows| :: rows[j].id
  }

  lemma IdsCons(rows: seq<CookieRecord>)
    requires rows != []
    ensures Ids(rows) == {rows[0].id} + Ids(rows[1..])
  {
    var rest := rows[1..];
    forall id | id in Ids(rows) ensures id in {rows[0].id} + Ids(rest) {
      var j :| 0 <= j < |rows| && rows[j].id == id;
      if j > 0 {
        assert rest[j - 1].id == id;
      }
    }
    forall id | id in Ids(rest) ensures id in Ids(rows) {
      var j :| 0 <= j < |rest| && rest[j].id == id;
      assert rows[j + 1].id == id;
    }
  }

  lemma TailUnique(rows: seq<CookieRecord>)
    requires rows != [] && UniqueIds(rows)
    ensures UniqueIds(rows[1..])
  {
    var rest := rows[1..];
    forall i, j | 0 <= i < j < |rest| ensures rest[i].id != rest[j].id {
      assert rest[i] == rows[i + 1] && rest[j] == rows[j + 1];
    }
  }

  lemma HeadIdNotInTail(rows: seq<CookieRecord>)
    requires rows != [] && UniqueIds(rows)
    ensures rows[0].id !in Ids(rows[1..])
  {
    var rest := rows[1..];
    forall j | 0 <= j < |rest| ensures rest[j].id != rows[0].id {
      assert rest[j] == rows[j + 1];
    }
  }

  /** The rows whose id is not in `ids`, in their original order: the table after
      `DELETE ... WHERE id IN ids`. */
  function Without(rows: seq<CookieRecord>, ids: set<int>): (r: seq<CookieRecord>)
    ensures forall x :: x in r <==> x in rows && x.id !in ids
  {
    if |rows| == 0 then []
    else (if rows[0].id in ids then [] else [rows[0]]) + Without(rows[1..], ids)
  }

  /** Deleting by id removes one row per id that is present, and none other. */
  lemma {:induction false} WithoutCount(rows: seq<CookieRecord>, ids: set<int>)
    requires UniqueIds(rows)
    ensures |Without(rows, ids)| == |rows| - |ids * Ids(rows)|
  {
    if |rows| > 0 {
      var rest := rows[1..];
      var id0 := rows[0].id;
      TailUnique(rows);
      HeadIdNotInTail(rows);
      WithoutCount(rest, ids);
      IdsCons(rows);
      CommonIdsStep(id0, ids, Ids(rest));
    }
  }

  lemma CommonIdsStep(id0: int, ids: set<int>, others: set<int>)
    requires id0 !in others
    ensures |ids * ({id0} + others)| == |ids * others| + (if id0 in ids then 1 else 0)
  {
    if id0 in ids {
      assert ids * ({id0} + others) == {id0} + ids * others;
    } else {
      assert ids * ({id0} + others) == ids * others;
    }
  }

  /** Deleting rows keeps the primary key. */
  lemma {:induction false} WithoutKeepsUnique(rows: seq<CookieRecord>, ids: set<int>)
    requires UniqueIds(rows)
    ensures UniqueIds(Without(rows, ids))
  {
    if |rows| > 0 {
      var rest := rows[1..];
      TailUnique(rows);
      WithoutKeepsUnique(rest, ids);
      var tail := Without(rest, ids);
      if rows[0].id !in ids {
        forall x | x in tail ensures x.id != rows[0].id {
          InTailHasOtherId(rows, x);
        }
        ConsUnique(rows[0], tail);
      }
    }
  }

  lemma InTailHasOtherId(rows: seq<CookieRecord>, x: CookieRecord)
    requires |rows| > 0 && UniqueIds(rows) && x in rows[1..]
    ensures x.id != rows[0].id
  {
    var rest := rows[1..];
    var k :| 0 <= k < |rest| && rest[k] == x;
    assert rows[k + 1] == x;
  }

  lemma ConsUnique(head: CookieRecord, tail: seq<CookieRecord>)
    requires UniqueIds(tail) && forall x :: x in tail ==> x.id != head.id
    ensures UniqueIds([head] + tail)
  {
    var r := [head] + tail;
    forall i, j | 0 <= i < j < |r| ensures r[i].id != r[j].id {
      assert r[j] == tail[j - 1];
      if i > 0 {
        assert r[i] == tail[i - 1];
      }
    }
  }

  /** The table, updated in place by the cleaner and by the API. */
  class CookieTable {
    var rows: seq<CookieRecord>

    predicate Valid()
      reads this
    {
      UniqueIds(rows)
    }

    constructor()
      ensures rows == [] && Valid()
    {
      rows := [];
    }

    /** `DELETE FROM cookies WHERE id IN ids`, committed; returns the row count. */
    method DeleteWhere(ids: set<int>) returns (rowcount: nat)
      requires Valid()
      modifies this
      ensures rows == Without(old(rows), ids)
      ensures rowcount == |old(rows)| - |rows| == |ids * Ids(old(rows))|
      ensures Valid()
    {
      WithoutCount(rows, ids);
      WithoutKeepsUnique(rows, ids);
      rowcount := |rows| - |Without(rows, ids)|;
      rows := Without(rows, ids);
    }

    /** `DELETE FROM cookies`, committed; returns the row count. */
    method DeleteAll() returns (count: nat)
      modifies this
      ensures rows == [] && count == |old(rows)|
      ensures Valid()
    {
      count := |rows|;
      rows := [];
    }
  }
}

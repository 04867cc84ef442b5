/**
 * The `step_records` table and the queries of its data-access object.
 * The table is a map from the primary key (userId, date) to the row.
 */
module StepDao {
  import opened Wrappers
  import Entity
  import KeyOrder

  type RecordKey = (string, int)
  type RecordTable = map<RecordKey, Entity.StepRecord>

  /** The primary key of a row. */
  function KeyOf(r: Entity.StepRecord): RecordKey {
    (r.userId, r.date)
  }

  /** Every row is stored under its own primary key, so a key holds at most one row. */
  predicate WellKeyed(t: RecordTable) {
    forall k :: k in t ==> KeyOf(t[k]) == k
  }

  /** The data-access object over the `step_records` table. */
  class Dao {
    var rows: RecordTable

    ghost predicate Valid()
      reads this
    {
      WellKeyed(rows)
    }

    constructor ()
      ensures Valid() && rows == map[]
    {
      rows := map[];
    }

    /** `insert` with `OnConflictStrategy.REPLACE`: the row under the same key, if any, is replaced whole. */
    method Insert(record: Entity.StepRecord)
      requires Valid()
      modifies this
      ensures Valid()
      ensures rows == old(rows)[KeyOf(record) := record]
    {
      rows := rows[KeyOf(record) := record];
    }

    /** `UPDATE step_records SET syncedToFirebase = 1 WHERE userId = :userId AND date = :date`. */
    method MarkAsSynced(userId: string, date: int)
      requires Valid()
      modifies this
      ensures Valid()
      ensures rows == MarkedSynced(old(rows), userId, date)
    {
      var key := (userId, date);
      if key in rows {
        rows := rows[key := rows[key].(syncedToFirebase := true)];
      }
    }
  }

  /** The table after `markAsSynced(userId, date)`: only that row's flag is set, if the row exists. */
  function MarkedSynced(t: RecordTable, userId: string, date: int): (r: RecordTable)
    ensures r.Keys == t.Keys
    ensures forall k :: k in t && k != (userId, date) ==> r[k] == t[k]
    ensures (userId, date) in t ==> r[(userId, date)] == t[(userId, date)].(syncedToFirebase := true)
  {
    if (userId, date) in t then t[(userId, date) := t[(userId, date)].(syncedToFirebase := true)] else t
  }

  /** The rows of user `u` at the given dates, in that order. */
  function RowsAt(t: RecordTable, u: string, dates: seq<int>): (r: seq<Entity.StepRecord>)
    requires forall i :: 0 <= i < |dates| ==> (u, dates[i]) in t
    ensures |r| == |dates|
    ensures forall i :: 0 <= i < |dates| ==> r[i] == t[(u, dates[i])]
  {
    seq(|dates|, i requires 0 <= i < |dates| => t[(u, dates[i])])
  }

  /**
   * Reading the rows of `u` at an exact listing of a set of dates gives back
   * exactly the rows of `u` whose date is in the set, each at its date.
   */
  lemma RowsAtListing(t: RecordTable, u: string, dates: seq<int>, chosen: set<int>)
    requires WellKeyed(t)
    requires forall i :: 0 <= i < |dates| ==> dates[i] in chosen
    requires forall d :: d in chosen ==> d in dates
    requires forall i :: 0 <= i < |dates| ==> (u, dates[i]) in t
    ensures forall i :: 0 <= i < |dates| ==> RowsAt(t, u, dates)[i].date == dates[i]
    ensures forall x :: x in RowsAt(t, u, dates) <==> x in t.Values && x.userId == u && x.date in chosen
  {
    var r := RowsAt(t, u, dates);
    forall i | 0 <= i < |dates| ensures r[i].date == dates[i] {
      assert KeyOf(t[(u, dates[i])]) == (u, dates[i]);
    }
    forall x | x in t.Values && x.userId == u && x.date in chosen ensures x in r {
      var k :| k in t && t[k] == x;
      assert k == (u, x.date);
      var i :| 0 <= i < |dates| && dates[i] == x.date;
      assert r[i] == x;
    }
    forall x | x in r ensures x in t.Values && x.userId == u && x.date in chosen {
      var i :| 0 <= i < |r| && r[i] == x;
      assert t[(u, dates[i])] == x;
      assert KeyOf(t[(u, dates[i])]) == (u, dates[i]);
    }
  }

  /** `SELECT * FROM step_records WHERE userId = :userId ORDER BY date DESC`. */
  function GetAllRecordsByUser(t: RecordTable, u: string): (r: seq<Entity.StepRecord>)
    requires WellKeyed(t)
    ensures forall x :: x in r <==> x in t.Values && x.userId == u
    ensures forall i, j :: 0 <= i < j < |r| ==> r[i].date > r[j].date
  {
    var chosen := set k | k in t && k.0 == u :: k.1;
    assert forall d :: d in chosen <==> (u, d) in t;
    var dates := KeyOrder.SortedDesc(chosen);
    RowsAtListing(t, u, dates, chosen);
    forall x | x in t.Values && x.userId == u ensures x.date in chosen {
      var k :| k in t && t[k] == x;
      assert KeyOf(t[k]) == k;
    }
    RowsAt(t, u, dates)
  }

  /** `SELECT * FROM step_records WHERE userId = :userId AND date = :date LIMIT 1`; `None` is Kotlin's null. */
  function GetRecordByUserAndDate(t: RecordTable, u: string, date: int): (r: Option<Entity.StepRecord>)
    requires WellKeyed(t)
    ensures r.Some? <==> (u, date) in t
    ensures r.Some? ==> r.value in t.Values && r.value.userId == u && r.value.date == date
  {
    if (u, date) in t then Some(t[(u, date)]) else None
  }

  /**
   * `SELECT * FROM step_records WHERE userId = :userId AND syncedToFirebase = 0`.
   * The query has no ORDER BY; the model lists the rows by ascending date.
   */
  function GetUnsyncedRecordsByUser(t: RecordTable, u: string): (r: seq<Entity.StepRecord>)
    requires WellKeyed(t)
    ensures forall x :: x in r <==> x in t.Values && x.userId == u && !x.syncedToFirebase
    ensures forall i, j :: 0 <= i < j < |r| ==> r[i].date < r[j].date
  {
    var chosen := set k | k in t && k.0 == u && !t[k].syncedToFirebase :: k.1;
    assert forall d :: d in chosen <==> (u, d) in t && !t[(u, d)].syncedToFirebase;
    var dates := KeyOrder.SortedAsc(chosen);
    RowsAtListing(t, u, dates, chosen);
    forall x | x in t.Values && x.userId == u && !x.syncedToFirebase ensures x.date in chosen {
      var k :| k in t && t[k] == x;
      assert KeyOf(t[k]) == k;
    }
    forall x | x in t.Values && x.userId == u && x.date in chosen ensures !x.syncedToFirebase {
      var k :| k in t && t[k] == x;
      assert KeyOf(t[k]) == k;
    }
    RowsAt(t, u, dates)
  }

  /** `SELECT * FROM step_records WHERE userId = :userId AND date >= :startDate ORDER BY date ASC`. */
  function GetRecordsFromDateByUser(t: RecordTable, u: string, startDate: int): (r: seq<Entity.StepRecord>)
    requires WellKeyed(t)
    ensures forall x :: x in r <==> x in t.Values && x.userId == u && x.date >= startDate
    ensures forall i, j :: 0 <= i < j < |r| ==> r[i].date < r[j].date
  {
    var chosen := set k | k in t && k.0 == u && k.1 >= startDate :: k.1;
    assert forall d :: d in chosen <==> (u, d) in t && d >= startDate;
    var dates := KeyOrder.SortedAsc(chosen);
    RowsAtListing(t, u, dates, chosen);
    forall x | x in t.Values && x.userId == u && x.date >= startDate ensures x.date in chosen {
      var k :| k in t && t[k] == x;
      assert KeyOf(t[k]) == k;
    }
    RowsAt(t, u, dates)
  }

  /** Inserting keeps one row per key: the new row is what the key now reads, and every other key reads as before. */
  lemma InsertReplaces(t: RecordTable, record: Entity.StepRecord, u: string, date: int)
    requires WellKeyed(t)
    ensures WellKeyed(t[KeyOf(record) := record])
    ensures GetRecordByUserAndDate(t[KeyOf(record) := record], u, date)
         == if (u, date) == KeyOf(record) then Some(record) else GetRecordByUserAndDate(t, u, date)
  {
  }

  /** Marking twice is marking once. */
  lemma MarkedSyncedIdempotent(t: RecordTable, userId: string, date: int)
    ensures MarkedSynced(MarkedSynced(t, userId, date), userId, date) == MarkedSynced(t, userId, date)
  {
  }
}

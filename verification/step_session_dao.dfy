/**
 * The `step_sessions` table and the queries of its data-access object.
 * The table is a map from the primary key (userId, startTime) to the row.
 */
module StepSessionDao {
  import Entity
  import KeyOrder

  type SessionKey = (string, int)
  type SessionTable = map<SessionKey, Entity.StepSession>

  /** The primary key of a row. */
  function KeyOf(s: Entity.StepSession): SessionKey {
    (s.userId, s.startTime)
  }

  /** Every row is stored under its own primary key, so a key holds at most one row. */
  predicate WellKeyed(t: SessionTable) {
    forall k :: k in t ==> KeyOf(t[k]) == k
  }

  /** The data-access object over the `step_sessions` table. */
  class Dao {
    var rows: SessionTable

    ghost predicate Valid()
      reads this
    {
      WellKeyed(rows)
    }

    constructor ()
      ensures Valid() && rows == map[]
    {
      rows := map[];
    }

    /** `insert` with `OnConflictStrategy.REPLACE`: the row under the same key, if any, is replaced whole. */
    method Insert(session: Entity.StepSession)
      requires Valid()
      modifies this
      ensures Valid()
      ensures rows == old(rows)[KeyOf(session) := session]
    {
      rows := rows[KeyOf(session) := session];
    }

    /** `insertAll` with `OnConflictStrategy.REPLACE`: the sessions are inserted one after another. */
    method InsertAll(sessions: seq<Entity.StepSession>)
      requires Valid()
      modifies this
      ensures Valid()
      ensures rows == InsertedAll(old(rows), sessions)
    {
      var i := 0;
      while i < |sessions|
        invariant 0 <= i <= |sessions|
        invariant Valid()
        invariant InsertedAll(rows, sessions[i..]) == InsertedAll(old(rows), sessions)
      {
        assert sessions[i..][1..] == sessions[i + 1..];
        Insert(sessions[i]);
        i := i + 1;
      }
      assert sessions[i..] == [];
    }

    /** `UPDATE step_sessions SET syncedToFirebase = 1 WHERE userId = :userId AND startTime = :startTime`. */
    method MarkAsSynced(userId: string, startTime: int)
      requires Valid()
      modifies this
      ensures Valid()
      ensures rows == MarkedSynced(old(rows), userId, startTime)
    {
      var key := (userId, startTime);
      if key in rows {
        rows := rows[key := rows[key].(syncedToFirebase := true)];
      }
    }
  }

  /** The table after inserting `sessions` in order, each replacing the row under its key. */
  function InsertedAll(t: SessionTable, sessions: seq<Entity.StepSession>): (r: SessionTable)
    ensures WellKeyed(t) ==> WellKeyed(r)
    decreases |sessions|
  {
    if sessions == [] then t
    else InsertedAll(t[KeyOf(sessions[0]) := sessions[0]], sessions[1..])
  }

  /** With duplicate keys in one batch, the last session under a key is the one stored. */
  lemma {:induction false} InsertedAllLastWins(t: SessionTable, sessions: seq<Entity.StepSession>, j: int)
    requires 0 <= j < |sessions|
    requires forall i :: j < i < |sessions| ==> KeyOf(sessions[i]) != KeyOf(sessions[j])
    ensures KeyOf(sessions[j]) in InsertedAll(t, sessions)
    ensures InsertedAll(t, sessions)[KeyOf(sessions[j])] == sessions[j]
    decreases |sessions|
  {
    var t' := t[KeyOf(sessions[0]) := sessions[0]];
    if j == 0 {
      InsertedAllKeeps(t', sessions[1..], KeyOf(sessions[0]));
    } else {
      InsertedAllLastWins(t', sessions[1..], j - 1);
    }
  }

  /** A key that no session of the batch has keeps its row. */
  lemma {:induction false} InsertedAllKeeps(t: SessionTable, sessions: seq<Entity.StepSession>, k: SessionKey)
    requires k in t
    requires forall i :: 0 <= i < |sessions| ==> KeyOf(sessions[i]) != k
    ensures k in InsertedAll(t, sessions) && InsertedAll(t, sessions)[k] == t[k]
    decreases |sessions|
  {
    if sessions != [] {
      InsertedAllKeeps(t[KeyOf(sessions[0]) := sessions[0]], sessions[1..], k);
    }
  }

  /** The table after `markAsSynced(userId, startTime)`: only that row's flag is set, if the row exists. */
  function MarkedSynced(t: SessionTable, userId: string, startTime: int): (r: SessionTable)
    ensures r.Keys == t.Keys
    ensures forall k :: k in t && k != (userId, startTime) ==> r[k] == t[k]
    ensures (userId, startTime) in t ==> r[(userId, startTime)] == t[(userId, startTime)].(syncedToFirebase := true)
  {
    if (userId, startTime) in t then t[(userId, startTime) := t[(userId, startTime)].(syncedToFirebase := true)] else t
  }

  /** Marking twice is marking once. */
  lemma MarkedSyncedIdempotent(t: SessionTable, userId: string, startTime: int)
    ensures MarkedSynced(MarkedSynced(t, userId, startTime), userId, startTime) == MarkedSynced(t, userId, startTime)
  {
  }

  /**
   * `SELECT COUNT(*) FROM step_sessions WHERE userId = :userId AND startTime = :startTime`:
   * the number of keys that match, which the primary key keeps at 0 or 1.
   */
  function SessionExists(t: SessionTable, u: string, startTime: int): (r: int)
    ensures r == |set k | k in t && k.0 == u && k.1 == startTime|
    ensures r == 1 <==> (u, startTime) in t
    ensures r == 0 <==> (u, startTime) !in t
  {
    var matching := set k | k in t && k.0 == u && k.1 == startTime;
    if (u, startTime) in t then
      assert matching == {(u, startTime)};
      1
    else
      assert matching == {};
      0
  }

  /** The rows of user `u` at the given start times, in that order. */
  function RowsAt(t: SessionTable, u: string, starts: seq<int>): (r: seq<Entity.StepSession>)
    requires forall i :: 0 <= i < |starts| ==> (u, starts[i]) in t
    ensures |r| == |starts|
    ensures forall i :: 0 <= i < |starts| ==> r[i] == t[(u, starts[i])]
  {
    seq(|starts|, i requires 0 <= i < |starts| => t[(u, starts[i])])
  }

  /**
   * Reading the rows of `u` at an exact listing of a set of start times gives
   * back exactly the rows of `u` whose start time is in the set.
   */
  lemma RowsAtListing(t: SessionTable, u: string, starts: seq<int>, chosen: set<int>)
    requires WellKeyed(t)
    requires forall i :: 0 <= i < |starts| ==> starts[i] in chosen
    requires forall d :: d in chosen ==> d in starts
    requires forall i :: 0 <= i < |starts| ==> (u, starts[i]) in t
    ensures forall i :: 0 <= i < |starts| ==> RowsAt(t, u, starts)[i].startTime == starts[i]
    ensures forall x :: x in RowsAt(t, u, starts) <==> x in t.Values && x.userId == u && x.startTime in chosen
  {
    var r := RowsAt(t, u, starts);
    forall i | 0 <= i < |starts| ensures r[i].startTime == starts[i] {
      assert KeyOf(t[(u, starts[i])]) == (u, starts[i]);
    }
    forall x | x in t.Values && x.userId == u && x.startTime in chosen ensures x in r {
      var k :| k in t && t[k] == x;
      assert k == (u, x.startTime);
      var i :| 0 <= i < |starts| && starts[i] == x.startTime;
      assert r[i] == x;
    }
    forall x | x in r ensures x in t.Values && x.userId == u && x.startTime in chosen {
      var i :| 0 <= i < |r| && r[i] == x;
      assert t[(u, starts[i])] == x;
      assert KeyOf(t[(u, starts[i])]) == (u, starts[i]);
    }
  }

  /** `SELECT * FROM step_sessions WHERE userId = :userId ORDER BY startTime DESC`. */
  function GetAllSessionsByUser(t: SessionTable, u: string): (r: seq<Entity.StepSession>)
    requires WellKeyed(t)
    ensures forall x :: x in r <==> x in t.Values && x.userId == u
    ensures forall i, j :: 0 <= i < j < |r| ==> r[i].startTime > r[j].startTime
  {
    var chosen := set k | k in t && k.0 == u :: k.1;
    assert forall d :: d in chosen <==> (u, d) in t;
    var starts := KeyOrder.SortedDesc(chosen);
    RowsAtListing(t, u, starts, chosen);
    forall x | x in t.Values && x.userId == u ensures x.startTime in chosen {
      var k :| k in t && t[k] == x;
      assert KeyOf(t[k]) == k;
    }
    RowsAt(t, u, starts)
  }

  /** `SELECT * FROM step_sessions WHERE userId = :userId AND startTime >= :startTime ORDER BY startTime DESC`. */
  function GetSessionsFromTime(t: SessionTable, u: string, startTime: int): (r: seq<Entity.StepSession>)
    requires WellKeyed(t)
    ensures forall x :: x in r <==> x in t.Values && x.userId == u && x.startTime >= startTime
    ensures forall i, j :: 0 <= i < j < |r| ==> r[i].startTime > r[j].startTime
  {
    var chosen := set k | k in t && k.0 == u && k.1 >= startTime :: k.1;
    assert forall d :: d in chosen <==> (u, d) in t && d >= startTime;
    var starts := KeyOrder.SortedDesc(chosen);
    RowsAtListing(t, u, starts, chosen);
    forall x | x in t.Values && x.userId == u && x.startTime >= startTime ensures x.startTime in chosen {
      var k :| k in t && t[k] == x;
      assert KeyOf(t[k]) == k;
    }
    RowsAt(t, u, starts)
  }

  /**
   * `SELECT * FROM step_sessions WHERE userId = :userId AND syncedToFirebase = 0`.
   * The query has no ORDER BY; the model lists the rows by ascending start time.
   */
  function GetUnsyncedSessionsByUser(t: SessionTable, u: string): (r: seq<Entity.StepSession>)
    requires WellKeyed(t)
    ensures forall x :: x in r <==> x in t.Values && x.userId == u && !x.syncedToFirebase
    ensures forall i, j :: 0 <= i < j < |r| ==> r[i].startTime < r[j].startTime
  {
    var chosen := set k | k in t && k.0 == u && !t[k].syncedToFirebase :: k.1;
    assert forall d :: d in chosen <==> (u, d) in t && !t[(u, d)].syncedToFirebase;
    var starts := KeyOrder.SortedAsc(chosen);
    RowsAtListing(t, u, starts, chosen);
    forall x | x in t.Values && x.userId == u && !x.syncedToFirebase ensures x.startTime in chosen {
      var k :| k in t && t[k] == x;
      assert KeyOf(t[k]) == k;
    }
    forall x | x in t.Values && x.userId == u && x.startTime in chosen ensures !x.syncedToFirebase {
      var k :| k in t && t[k] == x;
      assert KeyOf(t[k]) == k;
    }
    RowsAt(t, u, starts)
  }
}

/**
 * The session side of the home screen: provider sessions of the last 30 days
 * are ingested into the `step_sessions` table (only start times not yet stored
 * for the user), then the user's unsynced sessions are uploaded. The current
 * user, the provider and the upload are parameters.
 */
module HomeViewModel {
  import opened Wrappers
  import Int32
  import Entity
  import Domain
  import StepSessionDao
  import StepSessionMapper
  import StepRepository
  import HealthConnect

  /** How many days of provider sessions are ingested. */
  const SESSION_DAYS := 30

  /** The row stored for a provider session of user `u`; `steps.toInt()` wraps to 32 bits. */
  function NewRow(u: string, s: HealthConnect.StepSessionData): (row: Entity.StepSession)
    ensures row.userId == u && row.startTime == s.startTimeMillis && row.endTime == s.endTimeMillis
    ensures row.steps == Int32.FromLong(s.steps) && !row.syncedToFirebase
  {
    Entity.StepSession(u, s.startTimeMillis, s.endTimeMillis, Int32.FromLong(s.steps), false)
  }

  /** One ingestion step: the session's row is inserted only when its key is not stored yet. */
  function AddIfAbsent(t: StepSessionDao.SessionTable, u: string, s: HealthConnect.StepSessionData)
    : (r: StepSessionDao.SessionTable)
    ensures r.Keys == t.Keys + {(u, s.startTimeMillis)}
    ensures forall k :: k in t ==> r[k] == t[k]
    ensures (u, s.startTimeMillis) !in t ==> r[(u, s.startTimeMillis)] == NewRow(u, s)
  {
    if (u, s.startTimeMillis) in t then t else t[(u, s.startTimeMillis) := NewRow(u, s)]
  }

  /** The table after ingesting `sessions` for user `u`, one after another. */
  function Ingested(t: StepSessionDao.SessionTable, u: string, sessions: seq<HealthConnect.StepSessionData>)
    : (r: StepSessionDao.SessionTable)
    ensures StepSessionDao.WellKeyed(t) ==> StepSessionDao.WellKeyed(r)
    decreases |sessions|
  {
    if sessions == [] then t else Ingested(AddIfAbsent(t, u, sessions[0]), u, sessions[1..])
  }

  /** Ingestion never changes or removes a stored row, whatever its flag. */
  lemma {:induction false} IngestedKeepsExisting(t: StepSessionDao.SessionTable, u: string,
                                                 sessions: seq<HealthConnect.StepSessionData>, k: StepSessionDao.SessionKey)
    requires k in t
    ensures k in Ingested(t, u, sessions) && Ingested(t, u, sessions)[k] == t[k]
    decreases |sessions|
  {
    if sessions != [] {
      IngestedKeepsExisting(AddIfAbsent(t, u, sessions[0]), u, sessions[1..], k);
    }
  }

  /** After ingestion every session's key is stored. */
  lemma {:induction false} IngestedCovers(t: StepSessionDao.SessionTable, u: string,
                                          sessions: seq<HealthConnect.StepSessionData>, i: int)
    requires 0 <= i < |sessions|
    ensures (u, sessions[i].startTimeMillis) in Ingested(t, u, sessions)
    decreases |sessions|
  {
    var t1 := AddIfAbsent(t, u, sessions[0]);
    if i == 0 {
      IngestedKeepsExisting(t1, u, sessions[1..], (u, sessions[0].startTimeMillis));
    } else {
      IngestedCovers(t1, u, sessions[1..], i - 1);
    }
  }

  /** Ingestion adds only keys of user `u` that some session starts at. */
  lemma {:induction false} IngestedOnlyAdds(t: StepSessionDao.SessionTable, u: string,
                                            sessions: seq<HealthConnect.StepSessionData>, k: StepSessionDao.SessionKey)
    requires k in Ingested(t, u, sessions) && k !in t
    ensures k.0 == u && exists i :: 0 <= i < |sessions| && sessions[i].startTimeMillis == k.1
    decreases |sessions|
  {
    var t1 := AddIfAbsent(t, u, sessions[0]);
    if k in t1 {
      assert sessions[0].startTimeMillis == k.1;
    } else {
      IngestedOnlyAdds(t1, u, sessions[1..], k);
      var i :| 0 <= i < |sessions[1..]| && sessions[1..][i].startTimeMillis == k.1;
      assert sessions[i + 1].startTimeMillis == k.1;
    }
  }

  /**
   * A new key is stored from the first session that starts there: the
   * provider's start, end and steps, with the flag cleared.
   */
  lemma {:induction false} IngestedFirstWins(t: StepSessionDao.SessionTable, u: string,
                                             sessions: seq<HealthConnect.StepSessionData>, j: int)
    requires 0 <= j < |sessions|
    requires (u, sessions[j].startTimeMillis) !in t
    requires forall i :: 0 <= i < j ==> sessions[i].startTimeMillis != sessions[j].startTimeMillis
    ensures (u, sessions[j].startTimeMillis) in Ingested(t, u, sessions)
    ensures Ingested(t, u, sessions)[(u, sessions[j].startTimeMillis)] == NewRow(u, sessions[j])
    decreases |sessions|
  {
    var t1 := AddIfAbsent(t, u, sessions[0]);
    if j == 0 {
      IngestedKeepsExisting(t1, u, sessions[1..], (u, sessions[0].startTimeMillis));
    } else {
      assert sessions[j] == sessions[1..][j - 1];
      forall i | 0 <= i < j - 1 ensures sessions[1..][i].startTimeMillis != sessions[1..][j - 1].startTimeMillis {
        assert sessions[1..][i] == sessions[i + 1];
      }
      IngestedFirstWins(t1, u, sessions[1..], j - 1);
    }
  }

  /** When every session's key is already stored, ingestion changes nothing. */
  lemma {:induction false} IngestedAllPresent(t: StepSessionDao.SessionTable, u: string,
                                              sessions: seq<HealthConnect.StepSessionData>)
    requires forall i :: 0 <= i < |sessions| ==> (u, sessions[i].startTimeMillis) in t
    ensures Ingested(t, u, sessions) == t
    decreases |sessions|
  {
    if sessions != [] {
      forall i | 0 <= i < |sessions[1..]| ensures (u, sessions[1..][i].startTimeMillis) in t {
        assert sessions[1..][i] == sessions[i + 1];
      }
      IngestedAllPresent(t, u, sessions[1..]);
    }
  }

  /** Ingesting the same sessions a second time adds no rows and changes nothing. */
  lemma IngestedIdempotent(t: StepSessionDao.SessionTable, u: string, sessions: seq<HealthConnect.StepSessionData>)
    ensures Ingested(Ingested(t, u, sessions), u, sessions) == Ingested(t, u, sessions)
  {
    forall i | 0 <= i < |sessions| ensures (u, sessions[i].startTimeMillis) in Ingested(t, u, sessions) {
      IngestedCovers(t, u, sessions, i);
    }
    IngestedAllPresent(Ingested(t, u, sessions), u, sessions);
  }

  /**
   * The table after a session sync pass for `userId`: a row is marked synced
   * when it belongs to the user, was unsynced and its upload succeeded.
   */
  function SyncedSessions(t: StepSessionDao.SessionTable, userId: string, upload: Domain.StepSession -> bool)
    : (r: StepSessionDao.SessionTable)
    ensures r.Keys == t.Keys
    ensures forall k :: k in t ==> r[k] == t[k].(syncedToFirebase := r[k].syncedToFirebase)
    ensures forall k :: k in t ==>
      (r[k].syncedToFirebase <==> t[k].syncedToFirebase || (k.0 == userId && upload(StepSessionMapper.ToDomain(t[k]))))
    ensures forall k :: k in t && k.0 != userId ==> r[k] == t[k]
    ensures StepSessionDao.WellKeyed(t) ==> StepSessionDao.WellKeyed(r)
  {
    map k | k in t ::
      if k.0 == userId && !t[k].syncedToFirebase && upload(StepSessionMapper.ToDomain(t[k]))
      then t[k].(syncedToFirebase := true) else t[k]
  }

  /**
   * The loop of `syncSessionsToFirebase` as a fold: each row, in order, is
   * uploaded and, when the upload succeeds, `markAsSynced(userId, row.startTime)` runs.
   */
  function MarkUploaded(t: StepSessionDao.SessionTable, userId: string, rows: seq<Entity.StepSession>,
                        upload: Domain.StepSession -> bool): (r: StepSessionDao.SessionTable)
    ensures r.Keys == t.Keys
    decreases |rows|
  {
    if rows == [] then t
    else
      var t1 := if upload(StepSessionMapper.ToDomain(rows[0])) then StepSessionDao.MarkedSynced(t, userId, rows[0].startTime) else t;
      MarkUploaded(t1, userId, rows[1..], upload)
  }

  /** The start times of the rows in `rows`. */
  function StartsOf(rows: seq<Entity.StepSession>): set<int> {
    set j | 0 <= j < |rows| :: rows[j].startTime
  }

  /** The rows of `userId` starting at a time in `starts` whose upload succeeds get the flag set. */
  function MarkedAt(t: StepSessionDao.SessionTable, userId: string, starts: set<int>, upload: Domain.StepSession -> bool)
    : StepSessionDao.SessionTable
  {
    map k | k in t :: if k.0 == userId && k.1 in starts && upload(StepSessionMapper.ToDomain(t[k])) then t[k].(syncedToFirebase := true) else t[k]
  }

  /** A non-empty list's start times are its head's plus its tail's; distinct ones keep the head's out of the tail. */
  lemma StartsOfCons(rows: seq<Entity.StepSession>)
    requires rows != []
    requires forall i, j :: 0 <= i < j < |rows| ==> rows[i].startTime != rows[j].startTime
    ensures StartsOf(rows) == {rows[0].startTime} + StartsOf(rows[1..])
    ensures rows[0].startTime !in StartsOf(rows[1..])
  {
    var rest := rows[1..];
    forall j | 0 <= j < |rest| ensures rest[j].startTime != rows[0].startTime {
      assert rest[j] == rows[j + 1];
    }
    forall d ensures d in StartsOf(rows) <==> d == rows[0].startTime || d in StartsOf(rest) {
      if d in StartsOf(rest) {
        var j :| 0 <= j < |rest| && rest[j].startTime == d;
        assert rows[j + 1].startTime == d;
      }
      if d in StartsOf(rows) && d != rows[0].startTime {
        var j :| 0 <= j < |rows| && rows[j].startTime == d;
        assert rest[j - 1].startTime == d;
      }
    }
  }

  /**
   * Folding over rows of `userId` that sit under their own keys and have
   * distinct start times marks exactly the rows whose upload succeeds.
   */
  lemma {:induction false} MarkUploadedMarksAt(t: StepSessionDao.SessionTable, userId: string, rows: seq<Entity.StepSession>,
                                               upload: Domain.StepSession -> bool)
    requires forall i :: 0 <= i < |rows| ==> (userId, rows[i].startTime) in t && t[(userId, rows[i].startTime)] == rows[i]
    requires forall i, j :: 0 <= i < j < |rows| ==> rows[i].startTime != rows[j].startTime
    ensures MarkUploaded(t, userId, rows, upload) == MarkedAt(t, userId, StartsOf(rows), upload)
    decreases |rows|
  {
    if rows == [] {
      assert StartsOf(rows) == {};
    } else {
      var x := rows[0];
      var rest := rows[1..];
      var key := (userId, x.startTime);
      var t1 := if upload(StepSessionMapper.ToDomain(x)) then StepSessionDao.MarkedSynced(t, userId, x.startTime) else t;
      forall i | 0 <= i < |rest| ensures (userId, rest[i].startTime) in t1 && t1[(userId, rest[i].startTime)] == rest[i] {
        assert rest[i] == rows[i + 1];
        assert rest[i].startTime != x.startTime;
      }
      forall i, j | 0 <= i < j < |rest| ensures rest[i].startTime != rest[j].startTime {
        assert rest[i] == rows[i + 1] && rest[j] == rows[j + 1];
      }
      MarkUploadedMarksAt(t1, userId, rest, upload);
      StartsOfCons(rows);
      var lhs := MarkedAt(t1, userId, StartsOf(rest), upload);
      var rhs := MarkedAt(t, userId, StartsOf(rows), upload);
      forall k | k in t ensures lhs[k] == rhs[k] {
        if k == key {
          assert t[k] == x;
        } else {
          assert t1[k] == t[k];
        }
      }
      assert lhs == rhs;
    }
  }

  /** Each row of the unsynced query sits under the user's key for its start time. */
  lemma UnsyncedRowsKeyed(t: StepSessionDao.SessionTable, userId: string, unsynced: seq<Entity.StepSession>)
    requires StepSessionDao.WellKeyed(t)
    requires unsynced == StepSessionDao.GetUnsyncedSessionsByUser(t, userId)
    ensures forall i :: 0 <= i < |unsynced| ==> (userId, unsynced[i].startTime) in t && t[(userId, unsynced[i].startTime)] == unsynced[i]
  {
    forall i | 0 <= i < |unsynced| ensures (userId, unsynced[i].startTime) in t && t[(userId, unsynced[i].startTime)] == unsynced[i] {
      assert unsynced[i] in unsynced;
      var k :| k in t && t[k] == unsynced[i];
      assert StepSessionDao.KeyOf(t[k]) == k;
    }
  }

  /** A start time of the user is listed by the unsynced query exactly when its row is unsynced. */
  lemma UnsyncedStarts(t: StepSessionDao.SessionTable, userId: string, unsynced: seq<Entity.StepSession>)
    requires StepSessionDao.WellKeyed(t)
    requires unsynced == StepSessionDao.GetUnsyncedSessionsByUser(t, userId)
    ensures forall k :: k in t && k.0 == userId ==> (k.1 in StartsOf(unsynced) <==> !t[k].syncedToFirebase)
  {
    UnsyncedRowsKeyed(t, userId, unsynced);
    forall k | k in t && k.0 == userId ensures k.1 in StartsOf(unsynced) <==> !t[k].syncedToFirebase {
      if !t[k].syncedToFirebase {
        assert StepSessionDao.KeyOf(t[k]) == k;
        assert t[k] in unsynced;
        var j :| 0 <= j < |unsynced| && unsynced[j] == t[k];
      }
      if k.1 in StartsOf(unsynced) {
        var j :| 0 <= j < |unsynced| && unsynced[j].startTime == k.1;
        assert unsynced[j] in unsynced;
      }
    }
  }

  /** Marking the user's rows at exactly the unsynced start times is the sync pass. */
  lemma MarkedAtUnsyncedIsSynced(t: StepSessionDao.SessionTable, userId: string, starts: set<int>,
                                 upload: Domain.StepSession -> bool)
    requires forall k :: k in t && k.0 == userId ==> (k.1 in starts <==> !t[k].syncedToFirebase)
    ensures MarkedAt(t, userId, starts, upload) == SyncedSessions(t, userId, upload)
  {
    var lhs := MarkedAt(t, userId, starts, upload);
    var rhs := SyncedSessions(t, userId, upload);
    forall k | k in t ensures lhs[k] == rhs[k] {
    }
    assert lhs == rhs;
  }

  /** The sync loop over the unsynced query result yields `SyncedSessions`. */
  lemma SyncLoopIsSyncedSessions(t: StepSessionDao.SessionTable, userId: string, upload: Domain.StepSession -> bool)
    requires StepSessionDao.WellKeyed(t)
    ensures MarkUploaded(t, userId, StepSessionDao.GetUnsyncedSessionsByUser(t, userId), upload) == SyncedSessions(t, userId, upload)
  {
    var unsynced := StepSessionDao.GetUnsyncedSessionsByUser(t, userId);
    UnsyncedRowsKeyed(t, userId, unsynced);
    MarkUploadedMarksAt(t, userId, unsynced, upload);
    UnsyncedStarts(t, userId, unsynced);
    MarkedAtUnsyncedIsSynced(t, userId, StartsOf(unsynced), upload);
  }

  /**
   * The sessions a sync pass tries to upload are exactly the user's unsynced
   * sessions, each once.
   */
  lemma AttemptedExactlyUnsynced(t: StepSessionDao.SessionTable, userId: string)
    requires StepSessionDao.WellKeyed(t)
    ensures var attempted := StepSessionMapper.ToSessionDomain(StepSessionDao.GetUnsyncedSessionsByUser(t, userId));
      (forall x :: x in attempted <==> StepSessionMapper.ToEntity(x) in t.Values && x.userId == userId && !x.syncedToFirebase) &&
      (forall i, j :: 0 <= i < j < |attempted| ==> attempted[i].startTime != attempted[j].startTime)
  {
    var rows := StepSessionDao.GetUnsyncedSessionsByUser(t, userId);
    MappedMembership(rows, StepSessionMapper.ToSessionDomain(rows));
  }

  /** A domain session is in the mapped list exactly when its entity is in the source list. */
  lemma MappedMembership(rows: seq<Entity.StepSession>, r: seq<Domain.StepSession>)
    requires r == StepSessionMapper.ToSessionDomain(rows)
    ensures forall x :: x in r <==> StepSessionMapper.ToEntity(x) in rows
  {
    forall x | x in r ensures StepSessionMapper.ToEntity(x) in rows {
      var i :| 0 <= i < |r| && r[i] == x;
      StepSessionMapper.EntityRoundTrip(rows[i]);
    }
    forall x | StepSessionMapper.ToEntity(x) in rows ensures x in r {
      var i :| 0 <= i < |rows| && rows[i] == StepSessionMapper.ToEntity(x);
      StepSessionMapper.DomainRoundTrip(x);
      assert r[i] == x;
    }
  }

  /** The home screen's session work over the `step_sessions` DAO. */
  class ViewModel {
    const sessionDao: StepSessionDao.Dao

    constructor (sessionDao: StepSessionDao.Dao)
      ensures this.sessionDao == sessionDao
    {
      this.sessionDao := sessionDao;
    }

    /**
     * `loadAndSyncSessions`: without a signed-in user nothing happens; otherwise
     * the last 30 days of provider sessions are ingested and the user's
     * unsynced sessions are uploaded. Returns the sessions it tried to upload.
     */
    method LoadAndSyncSessions(currentUser: Option<StepRepository.AuthUser>, today: int, available: bool,
                               readRecords: (int, int) -> HealthConnect.Outcome<seq<HealthConnect.StepsRecord>>,
                               zoneOffset: int, upload: Domain.StepSession -> bool)
      returns (attempted: seq<Domain.StepSession>)
      requires sessionDao.Valid()
      modifies sessionDao
      ensures sessionDao.Valid()
      ensures currentUser.None? ==> attempted == [] && sessionDao.rows == old(sessionDao.rows)
      ensures currentUser.Some? ==>
        var u := currentUser.value.uid;
        var sessions := HealthConnect.GetStepSessionsForLastDays(SESSION_DAYS, today, available, readRecords, zoneOffset);
        var ingested := Ingested(old(sessionDao.rows), u, sessions);
        attempted == StepSessionMapper.ToSessionDomain(StepSessionDao.GetUnsyncedSessionsByUser(ingested, u)) &&
        sessionDao.rows == SyncedSessions(ingested, u, upload)
    {
      var userId := StepRepository.GetCurrentUserId(currentUser);
      if userId.None? {
        return [];
      }
      var sessions := HealthConnect.GetStepSessionsForLastDays(SESSION_DAYS, today, available, readRecords, zoneOffset);
      IngestSessions(userId.value, sessions);
      attempted := SyncSessionsToFirebase(userId.value, upload);
    }

    /** The `forEach` of `loadAndSyncSessions`: insert a session only when `sessionExists` answers 0. */
    method IngestSessions(userId: string, sessions: seq<HealthConnect.StepSessionData>)
      requires sessionDao.Valid()
      modifies sessionDao
      ensures sessionDao.Valid()
      ensures sessionDao.rows == Ingested(old(sessionDao.rows), userId, sessions)
    {
      var i := 0;
      while i < |sessions|
        invariant 0 <= i <= |sessions|
        invariant sessionDao.Valid()
        invariant Ingested(sessionDao.rows, userId, sessions[i..]) == Ingested(old(sessionDao.rows), userId, sessions)
      {
        var session := sessions[i];
        assert sessions[i..][1..] == sessions[i + 1..];
        var existing := StepSessionDao.SessionExists(sessionDao.rows, userId, session.startTimeMillis);
        if existing == 0 {
          var entity := Entity.StepSession(userId, session.startTimeMillis, session.endTimeMillis,
                                           Int32.FromLong(session.steps), false);
          sessionDao.Insert(entity);
        }
        i := i + 1;
      }
    }

    /** `syncSessionsToFirebase`: uploads each unsynced session of the user once and marks the successful ones. */
    method SyncSessionsToFirebase(userId: string, upload: Domain.StepSession -> bool)
      returns (attempted: seq<Domain.StepSession>)
      requires sessionDao.Valid()
      modifies sessionDao
      ensures sessionDao.Valid()
      ensures attempted == StepSessionMapper.ToSessionDomain(StepSessionDao.GetUnsyncedSessionsByUser(old(sessionDao.rows), userId))
      ensures sessionDao.rows == SyncedSessions(old(sessionDao.rows), userId, upload)
    {
      var unsynced := StepSessionDao.GetUnsyncedSessionsByUser(sessionDao.rows, userId);
      SyncLoopIsSyncedSessions(sessionDao.rows, userId, upload);
      attempted := UploadEach(userId, unsynced, upload);
    }

    /** The `forEach` of `syncSessionsToFirebase` over the listed rows. */
    method UploadEach(userId: string, rows: seq<Entity.StepSession>, upload: Domain.StepSession -> bool)
      returns (attempted: seq<Domain.StepSession>)
      requires sessionDao.Valid()
      modifies sessionDao
      ensures sessionDao.Valid()
      ensures attempted == StepSessionMapper.ToSessionDomain(rows)
      ensures sessionDao.rows == MarkUploaded(old(sessionDao.rows), userId, rows, upload)
    {
      attempted := [];
      var i := 0;
      while i < |rows|
        invariant 0 <= i <= |rows|
        invariant sessionDao.Valid()
        invariant attempted == StepSessionMapper.ToSessionDomain(rows[..i])
        invariant MarkUploaded(sessionDao.rows, userId, rows[i..], upload) == MarkUploaded(old(sessionDao.rows), userId, rows, upload)
      {
        var entity := rows[i];
        var domainSession := StepSessionMapper.ToDomain(entity);
        var success := upload(domainSession);
        assert rows[i..][1..] == rows[i + 1..];
        assert rows[..i + 1] == rows[..i] + [entity];
        attempted := attempted + [domainSession];
        if success {
          sessionDao.MarkAsSynced(userId, entity.startTime);
        }
        i := i + 1;
      }
      assert rows[..i] == rows;
    }
  }
}

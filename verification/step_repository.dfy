/**
 * The step repository: the local `step_records` table behind the DAO, and the
 * push of unsynced rows to the remote store. The remote upload is a parameter
 * `upload` that answers whether the write succeeded.
 */
module StepRepository {
  import opened Wrappers
  import opened Int32
  import Entity
  import Domain
  import StepMapper
  import StepDao

  /** The signed-in account as the auth client reports it. */
  datatype AuthUser = AuthUser(uid: string)

  /** `getCurrentUserId`: the uid of the signed-in account, or null when nobody is signed in. */
  function GetCurrentUserId(currentUser: Option<AuthUser>): (r: Option<string>)
    ensures r.None? <==> currentUser.None?
    ensures r.Some? ==> r.value == currentUser.value.uid
  {
    match currentUser
    case None => None
    case Some(user) => Some(user.uid)
  }

  /** `getAllRecords`: the user's rows as domain records, newest date first. */
  function GetAllRecords(t: StepDao.RecordTable, userId: string): (r: seq<Domain.StepRecord>)
    requires StepDao.WellKeyed(t)
    ensures forall x :: x in r <==> StepMapper.ToEntity(x) in t.Values && x.userId == userId
    ensures forall i, j :: 0 <= i < j < |r| ==> r[i].date > r[j].date
  {
    var rows := StepDao.GetAllRecordsByUser(t, userId);
    var r := StepMapper.ToDomainList(rows);
    MappedMembership(rows, r);
    r
  }

  /** `getRecordsFromDate`: the user's rows dated `startDate` or later as domain records, oldest first. */
  function GetRecordsFromDate(t: StepDao.RecordTable, userId: string, startDate: int): (r: seq<Domain.StepRecord>)
    requires StepDao.WellKeyed(t)
    ensures forall x :: x in r <==> StepMapper.ToEntity(x) in t.Values && x.userId == userId && x.date >= startDate
    ensures forall i, j :: 0 <= i < j < |r| ==> r[i].date < r[j].date
  {
    var rows := StepDao.GetRecordsFromDateByUser(t, userId, startDate);
    var r := StepMapper.ToDomainList(rows);
    MappedMembership(rows, r);
    r
  }

  /** A domain record is in the mapped list exactly when its row is in the row list. */
  lemma MappedMembership(rows: seq<Entity.StepRecord>, r: seq<Domain.StepRecord>)
    requires r == StepMapper.ToDomainList(rows)
    ensures forall x :: x in r <==> StepMapper.ToEntity(x) in rows
  {
    forall x | x in r ensures StepMapper.ToEntity(x) in rows {
      var i :| 0 <= i < |r| && r[i] == x;
      StepMapper.EntityRoundTrip(rows[i]);
    }
    forall x | StepMapper.ToEntity(x) in rows ensures x in r {
      var i :| 0 <= i < |rows| && rows[i] == StepMapper.ToEntity(x);
      StepMapper.DomainRoundTrip(x);
      assert r[i] == x;
    }
  }

  /** `getTodaySteps`: the steps of the user's row for the start of today, or 0 when there is none. */
  function GetTodaySteps(t: StepDao.RecordTable, userId: string, todayStart: int): (r: int)
    requires StepDao.WellKeyed(t)
    ensures (userId, todayStart) in t ==> r == t[(userId, todayStart)].steps
    ensures (userId, todayStart) !in t ==> r == 0
  {
    match StepDao.GetRecordByUserAndDate(t, userId, todayStart)
    case Some(record) => record.steps
    case None => 0
  }

  /**
   * The table after a sync pass for `userId`: a row is marked synced when it
   * belongs to the user, was unsynced and its upload succeeded; nothing else changes.
   */
  function SyncedTable(t: StepDao.RecordTable, userId: string, upload: Domain.StepRecord -> bool): (r: StepDao.RecordTable)
    ensures r.Keys == t.Keys
    ensures forall k :: k in t ==> r[k] == t[k].(syncedToFirebase := r[k].syncedToFirebase)
    ensures forall k :: k in t ==>
      (r[k].syncedToFirebase <==> t[k].syncedToFirebase || (k.0 == userId && upload(StepMapper.ToDomain(t[k]))))
    ensures forall k :: k in t && k.0 != userId ==> r[k] == t[k]
    ensures StepDao.WellKeyed(t) ==> StepDao.WellKeyed(r)
  {
    map k | k in t ::
      if k.0 == userId && !t[k].syncedToFirebase && upload(StepMapper.ToDomain(t[k]))
      then t[k].(syncedToFirebase := true) else t[k]
  }

  /**
   * The loop of `syncToFirebase` as a fold: each row in `rows`, in order, is
   * uploaded and, when the upload succeeds, `markAsSynced(userId, row.date)` runs.
   */
  function MarkUploaded(t: StepDao.RecordTable, userId: string, rows: seq<Entity.StepRecord>,
                        upload: Domain.StepRecord -> bool): (r: StepDao.RecordTable)
    ensures r.Keys == t.Keys
    decreases |rows|
  {
    if rows == [] then t
    else
      var t1 := if upload(StepMapper.ToDomain(rows[0])) then StepDao.MarkedSynced(t, userId, rows[0].date) else t;
      MarkUploaded(t1, userId, rows[1..], upload)
  }

  /** The dates of the rows in `rows`. */
  function DatesOf(rows: seq<Entity.StepRecord>): set<int> {
    set j | 0 <= j < |rows| :: rows[j].date
  }

  /** The rows of `userId` whose date is in `dates` and whose upload succeeds get the flag set. */
  function MarkedAt(t: StepDao.RecordTable, userId: string, dates: set<int>, upload: Domain.StepRecord -> bool): StepDao.RecordTable {
    map k | k in t :: if k.0 == userId && k.1 in dates && upload(StepMapper.ToDomain(t[k])) then t[k].(syncedToFirebase := true) else t[k]
  }

  /** A non-empty list's dates are its head's plus its tail's; distinct ones keep the head's out of the tail. */
  lemma DatesOfCons(rows: seq<Entity.StepRecord>)
    requires rows != []
    requires forall i, j :: 0 <= i < j < |rows| ==> rows[i].date != rows[j].date
    ensures DatesOf(rows) == {rows[0].date} + DatesOf(rows[1..])
    ensures rows[0].date !in DatesOf(rows[1..])
  {
    var rest := rows[1..];
    forall j | 0 <= j < |rest| ensures rest[j].date != rows[0].date {
      assert rest[j] == rows[j + 1];
    }
    forall d ensures d in DatesOf(rows) <==> d == rows[0].date || d in DatesOf(rest) {
      if d in DatesOf(rest) {
        var j :| 0 <= j < |rest| && rest[j].date == d;
        assert rows[j + 1].date == d;
      }
      if d in DatesOf(rows) && d != rows[0].date {
        var j :| 0 <= j < |rows| && rows[j].date == d;
        assert rest[j - 1].date == d;
      }
    }
  }

  /**
   * Folding over rows of `userId` that sit under their own keys and have
   * distinct dates marks exactly the rows whose upload succeeds.
   */
  lemma {:induction false} MarkUploadedMarksAt(t: StepDao.RecordTable, userId: string, rows: seq<Entity.StepRecord>,
                                               upload: Domain.StepRecord -> bool)
    requires forall i :: 0 <= i < |rows| ==> (userId, rows[i].date) in t && t[(userId, rows[i].date)] == rows[i]
    requires forall i, j :: 0 <= i < j < |rows| ==> rows[i].date != rows[j].date
    ensures MarkUploaded(t, userId, rows, upload) == MarkedAt(t, userId, DatesOf(rows), upload)
    decreases |rows|
  {
    if rows == [] {
      assert DatesOf(rows) == {};
    } else {
      var x := rows[0];
      var rest := rows[1..];
      var key := (userId, x.date);
      var t1 := if upload(StepMapper.ToDomain(x)) then StepDao.MarkedSynced(t, userId, x.date) else t;
      forall i | 0 <= i < |rest| ensures (userId, rest[i].date) in t1 && t1[(userId, rest[i].date)] == rest[i] {
        assert rest[i] == rows[i + 1];
        assert rest[i].date != x.date;
      }
      forall i, j | 0 <= i < j < |rest| ensures rest[i].date != rest[j].date {
        assert rest[i] == rows[i + 1] && rest[j] == rows[j + 1];
      }
      MarkUploadedMarksAt(t1, userId, rest, upload);
      DatesOfCons(rows);
      var lhs := MarkedAt(t1, userId, DatesOf(rest), upload);
      var rhs := MarkedAt(t, userId, DatesOf(rows), upload);
      forall k | k in t ensures lhs[k] == rhs[k] {
        if k == key {
          assert t[k] == x;
        } else {
          assert t1[k] == t[k];
        }
      }
      assert lhs == rhs;
    }
  }

  /** Each row of the unsynced query sits under the user's key for its date. */
  lemma UnsyncedRowsKeyed(t: StepDao.RecordTable, userId: string, unsynced: seq<Entity.StepRecord>)
    requires StepDao.WellKeyed(t)
    requires unsynced == StepDao.GetUnsyncedRecordsByUser(t, userId)
    ensures forall i :: 0 <= i < |unsynced| ==> (userId, unsynced[i].date) in t && t[(userId, unsynced[i].date)] == unsynced[i]
  {
    forall i | 0 <= i < |unsynced| ensures (userId, unsynced[i].date) in t && t[(userId, unsynced[i].date)] == unsynced[i] {
      assert unsynced[i] in unsynced;
      var k :| k in t && t[k] == unsynced[i];
      assert StepDao.KeyOf(t[k]) == k;
    }
  }

  /** A date of the user is listed by the unsynced query exactly when its row is unsynced. */
  lemma UnsyncedDates(t: StepDao.RecordTable, userId: string, unsynced: seq<Entity.StepRecord>)
    requires StepDao.WellKeyed(t)
    requires unsynced == StepDao.GetUnsyncedRecordsByUser(t, userId)
    ensures forall k :: k in t && k.0 == userId ==> (k.1 in DatesOf(unsynced) <==> !t[k].syncedToFirebase)
  {
    UnsyncedRowsKeyed(t, userId, unsynced);
    forall k | k in t && k.0 == userId ensures k.1 in DatesOf(unsynced) <==> !t[k].syncedToFirebase {
      if !t[k].syncedToFirebase {
        assert StepDao.KeyOf(t[k]) == k;
        assert t[k] in unsynced;
        var j :| 0 <= j < |unsynced| && unsynced[j] == t[k];
      }
      if k.1 in DatesOf(unsynced) {
        var j :| 0 <= j < |unsynced| && unsynced[j].date == k.1;
        assert unsynced[j] in unsynced;
      }
    }
  }

  /** Marking the user's rows at exactly the unsynced dates is the sync pass. */
  lemma MarkedAtUnsyncedIsSynced(t: StepDao.RecordTable, userId: string, dates: set<int>,
                                 upload: Domain.StepRecord -> bool)
    requires forall k :: k in t && k.0 == userId ==> (k.1 in dates <==> !t[k].syncedToFirebase)
    ensures MarkedAt(t, userId, dates, upload) == SyncedTable(t, userId, upload)
  {
    var lhs := MarkedAt(t, userId, dates, upload);
    var rhs := SyncedTable(t, userId, upload);
    forall k | k in t ensures lhs[k] == rhs[k] {
    }
    assert lhs == rhs;
  }

  /** The sync loop over the unsynced query result yields `SyncedTable`. */
  lemma SyncLoopIsSyncedTable(t: StepDao.RecordTable, userId: string, upload: Domain.StepRecord -> bool)
    requires StepDao.WellKeyed(t)
    ensures MarkUploaded(t, userId, StepDao.GetUnsyncedRecordsByUser(t, userId), upload) == SyncedTable(t, userId, upload)
  {
    var unsynced := StepDao.GetUnsyncedRecordsByUser(t, userId);
    UnsyncedRowsKeyed(t, userId, unsynced);
    MarkUploadedMarksAt(t, userId, unsynced, upload);
    UnsyncedDates(t, userId, unsynced);
    MarkedAtUnsyncedIsSynced(t, userId, DatesOf(unsynced), upload);
  }

  /**
   * The records a sync pass tries to upload are exactly the user's unsynced
   * rows, each once.
   */
  lemma AttemptedExactlyUnsynced(t: StepDao.RecordTable, userId: string)
    requires StepDao.WellKeyed(t)
    ensures var attempted := StepMapper.ToDomainList(StepDao.GetUnsyncedRecordsByUser(t, userId));
      (forall x :: x in attempted <==> StepMapper.ToEntity(x) in t.Values && x.userId == userId && !x.syncedToFirebase) &&
      (forall i, j :: 0 <= i < j < |attempted| ==> attempted[i].date != attempted[j].date)
  {
    var rows := StepDao.GetUnsyncedRecordsByUser(t, userId);
    MappedMembership(rows, StepMapper.ToDomainList(rows));
  }

  /** If every upload fails, the sync pass changes nothing. */
  lemma SyncAllFailedUnchanged(t: StepDao.RecordTable, userId: string, upload: Domain.StepRecord -> bool)
    requires forall k :: k in t && k.0 == userId && !t[k].syncedToFirebase ==> !upload(StepMapper.ToDomain(t[k]))
    ensures SyncedTable(t, userId, upload) == t
  {
  }

  /** If every upload succeeds, the user has no unsynced row left, so a second pass uploads nothing. */
  lemma SyncAllSucceededLeavesNothing(t: StepDao.RecordTable, userId: string, upload: Domain.StepRecord -> bool)
    requires StepDao.WellKeyed(t)
    requires forall k :: k in t && k.0 == userId && !t[k].syncedToFirebase ==> upload(StepMapper.ToDomain(t[k]))
    ensures StepDao.GetUnsyncedRecordsByUser(SyncedTable(t, userId, upload), userId) == []
  {
  }

  /** The repository: the DAO over `step_records`; the upload client is passed to `SyncToFirebase`. */
  class Repository {
    const dao: StepDao.Dao

    constructor (dao: StepDao.Dao)
      ensures this.dao == dao
    {
      this.dao := dao;
    }

    /** `saveSteps`: upserts the user's row for `date` with the flag cleared. */
    method SaveSteps(userId: string, date: int, steps: int32)
      requires dao.Valid()
      modifies dao
      ensures dao.Valid()
      ensures dao.rows == old(dao.rows)[(userId, date) := Entity.StepRecord(userId, date, steps, false)]
    {
      var domainRecord := Domain.StepRecord(userId, date, steps, false);
      dao.Insert(StepMapper.ToEntity(domainRecord));
    }

    /**
     * `syncToFirebase`: uploads each of the user's unsynced rows once, in the
     * order the query lists them, and marks a row synced when its upload
     * succeeds. Returns the records it tried to upload.
     */
    method SyncToFirebase(userId: string, upload: Domain.StepRecord -> bool) returns (attempted: seq<Domain.StepRecord>)
      requires dao.Valid()
      modifies dao
      ensures dao.Valid()
      ensures attempted == StepMapper.ToDomainList(StepDao.GetUnsyncedRecordsByUser(old(dao.rows), userId))
      ensures dao.rows == SyncedTable(old(dao.rows), userId, upload)
    {
      var unsynced := StepDao.GetUnsyncedRecordsByUser(dao.rows, userId);
      SyncLoopIsSyncedTable(dao.rows, userId, upload);
      attempted := UploadEach(userId, unsynced, upload);
    }

    /** The `forEach` of `syncToFirebase` over the listed rows. */
    method UploadEach(userId: string, rows: seq<Entity.StepRecord>, upload: Domain.StepRecord -> bool)
      returns (attempted: seq<Domain.StepRecord>)
      requires dao.Valid()
      modifies dao
      ensures dao.Valid()
      ensures attempted == StepMapper.ToDomainList(rows)
      ensures dao.rows == MarkUploaded(old(dao.rows), userId, rows, upload)
    {
      attempted := [];
      var i := 0;
      while i < |rows|
        invariant 0 <= i <= |rows|
        invariant dao.Valid()
        invariant attempted == StepMapper.ToDomainList(rows[..i])
        invariant MarkUploaded(dao.rows, userId, rows[i..], upload) == MarkUploaded(old(dao.rows), userId, rows, upload)
      {
        var entity := rows[i];
        var domainRecord := StepMapper.ToDomain(entity);
        var success := upload(domainRecord);
        assert rows[i..][1..] == rows[i + 1..];
        assert rows[..i + 1] == rows[..i] + [entity];
        attempted := attempted + [domainRecord];
        if success {
          dao.MarkAsSynced(userId, entity.date);
        }
        i := i + 1;
      }
      assert rows[..i] == rows;
    }
  }
}

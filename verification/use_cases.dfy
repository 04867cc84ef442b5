/**
 * The step use cases: each asks the repository for the signed-in user and
 * does nothing (or answers a neutral value) when nobody is signed in.
 * The auth client's current user is the parameter `currentUser`; a stream
 * that never emits (`emptyFlow`) is `None`, a stream that emits a list is
 * `Some(list)`.
 */
module UseCases {
  import opened Wrappers
  import opened Int32
  import Entity
  import Domain
  import StepMapper
  import StepDao
  import StepRepository

  /** `SaveStepsUseCase`: saves the day's count for the signed-in user; without one nothing is written. */
  method SaveSteps(repository: StepRepository.Repository, currentUser: Option<StepRepository.AuthUser>,
                   date: int, steps: int32)
    requires repository.dao.Valid()
    modifies repository.dao
    ensures repository.dao.Valid()
    ensures currentUser.None? ==> repository.dao.rows == old(repository.dao.rows)
    ensures currentUser.Some? ==>
      var u := currentUser.value.uid;
      repository.dao.rows == old(repository.dao.rows)[(u, date) := Entity.StepRecord(u, date, steps, false)]
  {
    var userId := StepRepository.GetCurrentUserId(currentUser);
    if userId.None? {
      return;
    }
    repository.SaveSteps(userId.value, date, steps);
  }

  /** `SyncToFirebaseUseCase`: runs the sync pass for the signed-in user; without one nothing is uploaded. */
  method SyncToFirebase(repository: StepRepository.Repository, currentUser: Option<StepRepository.AuthUser>,
                        upload: Domain.StepRecord -> bool) returns (attempted: seq<Domain.StepRecord>)
    requires repository.dao.Valid()
    modifies repository.dao
    ensures repository.dao.Valid()
    ensures currentUser.None? ==> attempted == [] && repository.dao.rows == old(repository.dao.rows)
    ensures currentUser.Some? ==>
      var u := currentUser.value.uid;
      attempted == StepMapper.ToDomainList(StepDao.GetUnsyncedRecordsByUser(old(repository.dao.rows), u)) &&
      repository.dao.rows == StepRepository.SyncedTable(old(repository.dao.rows), u, upload)
  {
    var userId := StepRepository.GetCurrentUserId(currentUser);
    if userId.None? {
      return [];
    }
    attempted := repository.SyncToFirebase(userId.value, upload);
  }

  /** `GetTodayStepsUseCase`: today's stored count of the signed-in user, 0 without one or without a row. */
  function GetTodaySteps(currentUser: Option<StepRepository.AuthUser>, t: StepDao.RecordTable, todayStart: int): (r: int)
    requires StepDao.WellKeyed(t)
    ensures currentUser.None? ==> r == 0
    ensures currentUser.Some? && (currentUser.value.uid, todayStart) in t ==> r == t[(currentUser.value.uid, todayStart)].steps
    ensures currentUser.Some? && (currentUser.value.uid, todayStart) !in t ==> r == 0
  {
    match StepRepository.GetCurrentUserId(currentUser)
    case None => 0
    case Some(userId) => StepRepository.GetTodaySteps(t, userId, todayStart)
  }

  /** `GetAllRecordsUseCase`: the signed-in user's records, newest first; no emission without a user. */
  function GetAllRecords(currentUser: Option<StepRepository.AuthUser>, t: StepDao.RecordTable): (r: Option<seq<Domain.StepRecord>>)
    requires StepDao.WellKeyed(t)
    ensures r.None? <==> currentUser.None?
    ensures r.Some? ==> forall x :: x in r.value <==> StepMapper.ToEntity(x) in t.Values && x.userId == currentUser.value.uid
    ensures r.Some? ==> forall i, j :: 0 <= i < j < |r.value| ==> r.value[i].date > r.value[j].date
  {
    match StepRepository.GetCurrentUserId(currentUser)
    case None => None
    case Some(userId) => Some(StepRepository.GetAllRecords(t, userId))
  }

  /** `GetRecordsFromDateUseCase`: the signed-in user's records from `startDate` on; no emission without a user. */
  function GetRecordsFromDate(currentUser: Option<StepRepository.AuthUser>, t: StepDao.RecordTable, startDate: int)
    : (r: Option<seq<Domain.StepRecord>>)
    requires StepDao.WellKeyed(t)
    ensures r.None? <==> currentUser.None?
    ensures r.Some? ==> forall x :: x in r.value <==>
      StepMapper.ToEntity(x) in t.Values && x.userId == currentUser.value.uid && x.date >= startDate
    ensures r.Some? ==> forall i, j :: 0 <= i < j < |r.value| ==> r.value[i].date < r.value[j].date
  {
    match StepRepository.GetCurrentUserId(currentUser)
    case None => None
    case Some(userId) => Some(StepRepository.GetRecordsFromDate(t, userId, startDate))
  }

  /** Saving today's count and then reading today's steps answers the saved count. */
  lemma SaveThenGetToday(t: StepDao.RecordTable, currentUser: Option<StepRepository.AuthUser>, todayStart: int, steps: int32)
    requires StepDao.WellKeyed(t)
    requires currentUser.Some?
    ensures var u := currentUser.value.uid;
      var t' := t[(u, todayStart) := Entity.StepRecord(u, todayStart, steps, false)];
      StepDao.WellKeyed(t') && GetTodaySteps(currentUser, t', todayStart) == steps
  {
  }

  /** A saved record is listed, unsynced, among the user's records, and later shows up in the sync pass. */
  lemma SavedRecordListed(t: StepDao.RecordTable, currentUser: Option<StepRepository.AuthUser>, date: int, steps: int32)
    requires StepDao.WellKeyed(t)
    requires currentUser.Some?
    ensures var u := currentUser.value.uid;
      var t' := t[(u, date) := Entity.StepRecord(u, date, steps, false)];
      StepDao.WellKeyed(t') &&
      GetAllRecords(currentUser, t').Some? &&
      Domain.StepRecord(u, date, steps, false) in GetAllRecords(currentUser, t').value &&
      Entity.StepRecord(u, date, steps, false) in StepDao.GetUnsyncedRecordsByUser(t', u)
  {
    var u := currentUser.value.uid;
    var row := Entity.StepRecord(u, date, steps, false);
    var t' := t[(u, date) := row];
    assert t'[(u, date)] == row;
    assert row in t'.Values;
    assert StepMapper.ToEntity(Domain.StepRecord(u, date, steps, false)) == row;
  }
}

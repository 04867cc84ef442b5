# StepScape local-first step-sync core, in Dafny

StepScape is an Android step counter. It reads steps from the health
provider and keeps them in two local tables: `step_records` holds one row
per user and day, and `step_sessions` one row per user and session start.
Every row carries a `syncedToFirebase` flag. Rows whose flag is clear are
pushed to the remote store, and the flag is set when an upload succeeds.
The home screen turns the provider's records into charts and a message.

This project models that core and proves what each operation promises.

- **Tables** (`step_dao.dfy`, `step_session_dao.dfy`). Each table is a
  `map` from its primary key to the row, held in a `Dao` class. `insert`
  (REPLACE), `insertAll` and `markAsSynced` are methods. The SELECT
  queries are functions that list the chosen keys in the SQL order.
  `WellKeyed` (every row sits under its own key) is the class invariant.
- **Mappers** (`step_mapper.dfy`, `step_session_mapper.dfy`). Entity and
  domain rows, and the list mappings.
- **Repository and use cases** (`step_repository.dfy`, `use_cases.dfy`).
  `saveSteps` upserts. `syncToFirebase` walks the unsynced rows and marks
  each successful upload. The use cases are gated on the signed-in user.
  The loop is proved against a fold, `MarkUploaded`, and a lemma shows the
  fold equals the declarative post-sync table `SyncedTable`.
- **Health reader** (`health_connect.dfy`, with `grouping.dfy` and
  `sums.dfy`). The per-day and per-hour accumulation loops, the
  last-n-days window, and the session lists sorted latest first.
- **Home screen** (`home_view_model.dfy`, `home_charts.dfy`). Session
  ingestion inserts only keys not yet stored. Session sync mirrors the
  record sync. The chart builders and the motivational message are here.
- **Shared pieces.** `int32.dfy` has the 32-bit wrap of `Long.toInt()`.
  `extremes.dfy` and `key_order.dfy` sort a key set for `ORDER BY`.
  `rows.dfy` has the row types. `wrappers.dfy` has `Option`.

These are parameters of the model:

| source input | model parameter |
|---|---|
| signed-in account | `currentUser: Option<AuthUser>` |
| remote upload result | `upload` (a function to `bool`) |
| provider availability | `available: bool` |
| provider read or aggregate | a function of the requested instant range, answering `Failure` (the exception branch) or `Success(records)` |
| clock ("today") | `today` / `todayStart` |
| system time zone | a fixed millisecond offset |
| calendar month of a day | `monthOf` |

A query that the source returns as a `Flow` is modelled as a snapshot
list. The `emptyFlow()` of a signed-out use case is `None`, a stream that
never emits.

## Model

| member | source | states |
|---|---|---|
| StepDao.Dao.Insert | app/src/main/java/com/example/stepscape/data/local/dao/StepDao.kt:18-19 | the row under the record's (userId, date) key is replaced whole, every other key is unchanged, and one row per key is kept |
| StepDao.InsertReplaces | app/src/main/java/com/example/stepscape/data/local/dao/StepDao.kt:18-27 | after an insert, the lookup of the inserted key answers the new row and every other key answers as before |
| StepDao.Dao.MarkAsSynced | app/src/main/java/com/example/stepscape/data/local/dao/StepDao.kt:37-39 | the table becomes `MarkedSynced` of the old table |
| StepDao.MarkedSynced | app/src/main/java/com/example/stepscape/data/local/dao/StepDao.kt:38-39 | same keys; only row (u, d) gets the flag set, and only if it exists; every other row is unchanged |
| StepDao.MarkedSyncedIdempotent | app/src/main/java/com/example/stepscape/data/local/dao/StepDao.kt:38-39 | marking twice equals marking once |
| StepDao.GetAllRecordsByUser | app/src/main/java/com/example/stepscape/data/local/dao/StepDao.kt:22-23 | lists exactly the user's rows, dates strictly decreasing |
| StepDao.GetRecordByUserAndDate | app/src/main/java/com/example/stepscape/data/local/dao/StepDao.kt:26-27 | the row keyed (u, d) when present, otherwise None |
| StepDao.GetUnsyncedRecordsByUser | app/src/main/java/com/example/stepscape/data/local/dao/StepDao.kt:30-31 | lists exactly the user's rows with the flag clear, each once |
| StepDao.GetRecordsFromDateByUser | app/src/main/java/com/example/stepscape/data/local/dao/StepDao.kt:34-35 | lists exactly the user's rows dated on or after the start, dates strictly increasing |
| StepSessionDao.Dao.Insert | app/src/main/java/com/example/stepscape/data/local/dao/StepSessionDao.kt:17-18 | the row under (userId, startTime) is replaced whole, every other key is unchanged, and one row per key is kept |
| StepSessionDao.Dao.InsertAll | app/src/main/java/com/example/stepscape/data/local/dao/StepSessionDao.kt:21-22 | the table becomes the result of inserting the sessions one after another (`InsertedAll`) |
| StepSessionDao.InsertedAll | app/src/main/java/com/example/stepscape/data/local/dao/StepSessionDao.kt:21-22 | the table after inserting the batch in order, each session replacing its key's row; keeps one row per key (see InsertedAllLastWins and InsertedAllKeeps) |
| StepSessionDao.InsertedAllLastWins | app/src/main/java/com/example/stepscape/data/local/dao/StepSessionDao.kt:21-22 | a session whose key does not recur later in the batch is what its key holds afterwards, so the last duplicate wins |
| StepSessionDao.InsertedAllKeeps | app/src/main/java/com/example/stepscape/data/local/dao/StepSessionDao.kt:21-22 | a stored key that no session of the batch carries keeps its row |
| StepSessionDao.Dao.MarkAsSynced | app/src/main/java/com/example/stepscape/data/local/dao/StepSessionDao.kt:37-38 | the table becomes `MarkedSynced` of the old table |
| StepSessionDao.MarkedSynced | app/src/main/java/com/example/stepscape/data/local/dao/StepSessionDao.kt:37-38 | same keys; only row (u, t) gets the flag set, and only if it exists |
| StepSessionDao.MarkedSyncedIdempotent | app/src/main/java/com/example/stepscape/data/local/dao/StepSessionDao.kt:37-38 | marking twice equals marking once |
| StepSessionDao.SessionExists | app/src/main/java/com/example/stepscape/data/local/dao/StepSessionDao.kt:41-42 | equals the count of keys (u, t) in the table; that count is 1 exactly when the key is stored and 0 exactly when it is not |
| StepSessionDao.GetAllSessionsByUser | app/src/main/java/com/example/stepscape/data/local/dao/StepSessionDao.kt:25-26 | lists exactly the user's sessions, start times strictly decreasing |
| StepSessionDao.GetSessionsFromTime | app/src/main/java/com/example/stepscape/data/local/dao/StepSessionDao.kt:29-30 | lists exactly the user's sessions starting at or after the given time, start times strictly decreasing |
| StepSessionDao.GetUnsyncedSessionsByUser | app/src/main/java/com/example/stepscape/data/local/dao/StepSessionDao.kt:33-34 | lists exactly the user's sessions with the flag clear, each once |
| StepMapper.ToDomain | app/src/main/java/com/example/stepscape/data/mapper/StepMapper.kt:7-14 | every field, the flag included, is copied |
| StepMapper.ToEntity | app/src/main/java/com/example/stepscape/data/mapper/StepMapper.kt:16-23 | every field, the flag included, is copied |
| StepMapper.ToDomainList | app/src/main/java/com/example/stepscape/data/mapper/StepMapper.kt:25-27 | same length, and element i is the mapping of element i |
| StepMapper.EntityRoundTrip | app/src/main/java/com/example/stepscape/data/mapper/StepMapper.kt:7-23 | `toEntity(toDomain(e)) == e` |
| StepMapper.DomainRoundTrip | app/src/main/java/com/example/stepscape/data/mapper/StepMapper.kt:7-23 | `toDomain(toEntity(r)) == r` |
| StepSessionMapper.ToDomain | app/src/main/java/com/example/stepscape/data/mapper/StepSessionMapper.kt:7-15 | userId, start, end, steps and the flag are copied |
| StepSessionMapper.ToEntity | app/src/main/java/com/example/stepscape/data/mapper/StepSessionMapper.kt:17-25 | userId, start, end, steps and the flag are copied |
| StepSessionMapper.ToSessionDomain | app/src/main/java/com/example/stepscape/data/mapper/StepSessionMapper.kt:27-29 | same length, and element i is the mapping of element i |
| StepSessionMapper.EntityRoundTrip | app/src/main/java/com/example/stepscape/data/mapper/StepSessionMapper.kt:7-25 | `toEntity(toDomain(e)) == e` |
| StepSessionMapper.DomainRoundTrip | app/src/main/java/com/example/stepscape/data/mapper/StepSessionMapper.kt:7-25 | `toDomain(toEntity(s)) == s` |
| StepRepository.GetCurrentUserId | app/src/main/java/com/example/stepscape/data/repository/StepRepositoryImpl.kt:32-34 | no id exactly when nobody is signed in; otherwise the account's uid |
| StepRepository.GetAllRecords | app/src/main/java/com/example/stepscape/data/repository/StepRepositoryImpl.kt:36-43 | a domain record is listed exactly when its row is the user's; dates strictly decreasing |
| StepRepository.GetRecordsFromDate | app/src/main/java/com/example/stepscape/data/repository/StepRepositoryImpl.kt:45-52 | a domain record is listed exactly when its row is the user's and dated on or after the start; dates strictly increasing |
| StepRepository.GetTodaySteps | app/src/main/java/com/example/stepscape/data/repository/StepRepositoryImpl.kt:54-59 | the steps of row (u, todayStart), or 0 when it is absent |
| StepRepository.Repository.SaveSteps | app/src/main/java/com/example/stepscape/data/repository/StepRepositoryImpl.kt:61-71 | row (u, d) becomes (u, d, steps, unsynced), replacing any earlier row, synced or not; every other key is unchanged |
| StepRepository.Repository.SyncToFirebase | app/src/main/java/com/example/stepscape/data/repository/StepRepositoryImpl.kt:73-86 | the records it tries to upload are the mapped unsynced query result, and the table becomes `SyncedTable` |
| StepRepository.Repository.UploadEach | app/src/main/java/com/example/stepscape/data/repository/StepRepositoryImpl.kt:77-84 | the loop uploads each listed row in order and yields the fold `MarkUploaded` |
| StepRepository.SyncedTable | app/src/main/java/com/example/stepscape/data/repository/StepRepositoryImpl.kt:73-86 | no row is added or removed; only flags change; a row is synced afterwards exactly when it was synced before or it is the user's and its upload succeeded; other users' rows are untouched |
| StepRepository.MarkUploaded | app/src/main/java/com/example/stepscape/data/repository/StepRepositoryImpl.kt:77-84 | the loop as a fold; it never adds or removes a key |
| StepRepository.MarkUploadedMarksAt | app/src/main/java/com/example/stepscape/data/repository/StepRepositoryImpl.kt:77-84 | over rows of the user with distinct dates, the fold marks exactly the rows whose upload succeeds |
| StepRepository.SyncLoopIsSyncedTable | app/src/main/java/com/example/stepscape/data/repository/StepRepositoryImpl.kt:74-84 | the fold over the unsynced query result equals `SyncedTable` |
| StepRepository.AttemptedExactlyUnsynced | app/src/main/java/com/example/stepscape/data/repository/StepRepositoryImpl.kt:74-79 | one upload is attempted for each of the user's unsynced rows and for no other row, and no date is attempted twice |
| StepRepository.SyncAllFailedUnchanged | app/src/main/java/com/example/stepscape/data/repository/StepRepositoryImpl.kt:80-83 | when every upload fails, the table is unchanged |
| StepRepository.SyncAllSucceededLeavesNothing | app/src/main/java/com/example/stepscape/data/repository/StepRepositoryImpl.kt:74-83 | when every upload succeeds, the user has no unsynced row left, so a second pass attempts nothing |
| UseCases.SaveSteps | app/src/main/java/com/example/stepscape/domain/usecase/SaveStepsUseCase.kt:17-28 | signed out: nothing is written; signed in: row (uid, date) becomes (uid, date, steps, unsynced) and nothing else changes |
| UseCases.SyncToFirebase | app/src/main/java/com/example/stepscape/domain/usecase/SyncToFirebaseUseCase.kt:17-28 | signed out: no upload and no change; signed in: the repository's sync for the uid |
| UseCases.GetTodaySteps | app/src/main/java/com/example/stepscape/domain/usecase/GetTodayStepsUseCase.kt:12-15 | 0 when signed out; otherwise the steps of row (uid, todayStart), or 0 when it is absent |
| UseCases.GetAllRecords | app/src/main/java/com/example/stepscape/domain/usecase/GetAllRecordsUseCase.kt:15-18 | no emission exactly when signed out; otherwise exactly the uid's records, dates strictly decreasing |
| UseCases.GetRecordsFromDate | app/src/main/java/com/example/stepscape/domain/usecase/GetRecordsFromDateUseCase.kt:16-19 | no emission exactly when signed out; otherwise exactly the uid's records from the start date on, dates strictly increasing |
| UseCases.SaveThenGetToday | app/src/main/java/com/example/stepscape/domain/usecase/SaveStepsUseCase.kt:27 | after saving today's count, today's steps read back that count |
| UseCases.SavedRecordListed | app/src/main/java/com/example/stepscape/domain/usecase/SaveStepsUseCase.kt:27 | a saved record is listed among the user's records and among the unsynced rows |
| HealthConnect.LocalDay | app/src/main/java/com/example/stepscape/data/health/HealthConnectManager.kt:134 | the local date is the day whose 24 local hours contain the instant |
| HealthConnect.DayBounds | app/src/main/java/com/example/stepscape/data/health/HealthConnectManager.kt:134 | every instant lies between the start of its local date and the start of the next one |
| HealthConnect.LocalHour | app/src/main/java/com/example/stepscape/data/health/HealthConnectManager.kt:247 | the hour of day is in 0..23 |
| HealthConnect.StartOfDay | app/src/main/java/com/example/stepscape/data/health/HealthConnectManager.kt:123-124 | the start of a day lies on that day, its previous instant on the day before, and its hour is 0 |
| HealthConnect.LocalHourWithinDay | app/src/main/java/com/example/stepscape/data/health/HealthConnectManager.kt:247 | an instant ms milliseconds into a local date lies on that date, and its hour is the number of whole hours in ms |
| HealthConnect.AccumulateCounts | app/src/main/java/com/example/stepscape/data/health/HealthConnectManager.kt:133-136 | the accumulation loop yields the grouped totals `TotalsBy` |
| HealthConnect.TotalsBy | app/src/main/java/com/example/stepscape/data/health/HealthConnectManager.kt:133-136 | a bucket is present exactly when some record falls in it; it holds the sum of those records' counts; all values add up to the sum of all counts |
| HealthConnect.GetStepsForDateRange | app/src/main/java/com/example/stepscape/data/health/HealthConnectManager.kt:116-144 | reads from the start of the first day to the start of the day after the last, and answers `DateRangeSteps` |
| HealthConnect.DateRangeSteps | app/src/main/java/com/example/stepscape/data/health/HealthConnectManager.kt:116-144 | empty when unavailable or when the read fails; otherwise date d is present exactly when a record starts on d, holds the sum of those counts, and the values add up to all counts |
| HealthConnect.LastDaysWindow | app/src/main/java/com/example/stepscape/data/health/HealthConnectManager.kt:146-151 | the window ends today and spans exactly n days |
| HealthConnect.GetStepsForLastDays | app/src/main/java/com/example/stepscape/data/health/HealthConnectManager.kt:146-151 | the per-date totals over the last-n-days window |
| HealthConnect.GetStepsGroupedByHour | app/src/main/java/com/example/stepscape/data/health/HealthConnectManager.kt:229-257 | reads today's range and answers `HourlySteps` |
| HealthConnect.HourlySteps | app/src/main/java/com/example/stepscape/data/health/HealthConnectManager.kt:229-257 | keys only in 0..23; empty when unavailable or when the read fails; otherwise each hour holds the sum of the counts starting in it, and the values add up to all counts |
| HealthConnect.GetTodaySteps | app/src/main/java/com/example/stepscape/data/health/HealthConnectManager.kt:88-114 | 0 when unavailable, when the read fails or when the total is missing; otherwise the aggregate total |
| HealthConnect.SessionsOf | app/src/main/java/com/example/stepscape/data/health/HealthConnectManager.kt:179-184 | one session per record, with its start, end and count |
| HealthConnect.InsertPermutes | app/src/main/java/com/example/stepscape/data/health/HealthConnectManager.kt:185 | inserting into the sorted list adds exactly the new session |
| HealthConnect.InsertKeepsOrder | app/src/main/java/com/example/stepscape/data/health/HealthConnectManager.kt:185 | inserting keeps the list sorted latest start first |
| HealthConnect.InsertKeepsTies | app/src/main/java/com/example/stepscape/data/health/HealthConnectManager.kt:185 | inserting puts the new session ahead of every session with its start time and keeps the order of the others |
| HealthConnect.SortedByStartDesc | app/src/main/java/com/example/stepscape/data/health/HealthConnectManager.kt:185 | a permutation of its input, start times non-increasing, and stable: for every start time, the sessions with that start keep their input order |
| HealthConnect.SessionsRead | app/src/main/java/com/example/stepscape/data/health/HealthConnectManager.kt:162-193 | empty when unavailable or when the read fails; otherwise a stable sort, latest start first, of one session per record read |
| HealthConnect.GetTodayStepSessions | app/src/main/java/com/example/stepscape/data/health/HealthConnectManager.kt:160-194 | empty when unavailable or when the read fails; otherwise a permutation of today's sessions, latest start first, with sessions of equal start in read order |
| HealthConnect.GetStepSessionsForLastDays | app/src/main/java/com/example/stepscape/data/health/HealthConnectManager.kt:196-227 | the same over the last-n-days window: empty when unavailable or failed, else the read sessions latest start first, ties in read order |
| HealthConnect.OneSessionPerRecord | app/src/main/java/com/example/stepscape/data/health/HealthConnectManager.kt:179-185 | every record read appears in the sorted list as its session |
| Grouping.GroupTotalsSnoc | app/src/main/java/com/example/stepscape/data/health/HealthConnectManager.kt:135 | one loop step (`result[key] = (result[key] ?: 0) + count`) extends the grouped totals by one record |
| Grouping.GroupTotalsSum | app/src/main/java/com/example/stepscape/data/health/HealthConnectManager.kt:133-136 | the grouped values add up to the total count |
| Int32.FromLong | app/src/main/java/com/example/stepscape/presentation/home/HomeViewModel.kt:146 | `Long.toInt()`: congruent to the input modulo 2^32, and the identity on 32-bit values |
| HomeViewModel.ViewModel.LoadAndSyncSessions | app/src/main/java/com/example/stepscape/presentation/home/HomeViewModel.kt:125-160 | signed out: no insert and no upload; signed in: the last 30 days of provider sessions are ingested, then the sync pass runs on the result |
| HomeViewModel.ViewModel.IngestSessions | app/src/main/java/com/example/stepscape/presentation/home/HomeViewModel.kt:139-152 | the loop yields `Ingested`, inserting a session only when `sessionExists` answers 0 |
| HomeViewModel.NewRow | app/src/main/java/com/example/stepscape/presentation/home/HomeViewModel.kt:142-148 | a new row carries the provider's start, end and 32-bit wrapped steps, with the flag clear |
| HomeViewModel.AddIfAbsent | app/src/main/java/com/example/stepscape/presentation/home/HomeViewModel.kt:140-149 | one step of the loop: the only key that can be added is the session's; stored rows are unchanged; an absent key gets the new unsynced row |
| HomeViewModel.Ingested | app/src/main/java/com/example/stepscape/presentation/home/HomeViewModel.kt:139-152 | ingestion keeps the table well keyed |
| HomeViewModel.IngestedKeepsExisting | app/src/main/java/com/example/stepscape/presentation/home/HomeViewModel.kt:140-141 | a stored row, whatever its flag, is neither changed nor removed |
| HomeViewModel.IngestedCovers | app/src/main/java/com/example/stepscape/presentation/home/HomeViewModel.kt:139-151 | afterwards every session's key is stored |
| HomeViewModel.IngestedOnlyAdds | app/src/main/java/com/example/stepscape/presentation/home/HomeViewModel.kt:139-151 | every new key belongs to the user and is the start of some session |
| HomeViewModel.IngestedFirstWins | app/src/main/java/com/example/stepscape/presentation/home/HomeViewModel.kt:139-151 | a new key holds the row of the first session that starts there |
| HomeViewModel.IngestedAllPresent | app/src/main/java/com/example/stepscape/presentation/home/HomeViewModel.kt:139-151 | when every key is already stored, nothing changes |
| HomeViewModel.IngestedIdempotent | app/src/main/java/com/example/stepscape/presentation/home/HomeViewModel.kt:139-151 | ingesting the same sessions twice equals ingesting them once |
| HomeViewModel.ViewModel.SyncSessionsToFirebase | app/src/main/java/com/example/stepscape/presentation/home/HomeViewModel.kt:162-176 | the sessions it tries to upload are the mapped unsynced query result, and the table becomes `SyncedSessions` |
| HomeViewModel.ViewModel.UploadEach | app/src/main/java/com/example/stepscape/presentation/home/HomeViewModel.kt:166-173 | the loop uploads each listed row in order and yields the fold `MarkUploaded` |
| HomeViewModel.SyncedSessions | app/src/main/java/com/example/stepscape/presentation/home/HomeViewModel.kt:162-176 | no row is added or removed; only flags change; a session is synced afterwards exactly when it was before or it is the user's and its upload succeeded; other users' rows are untouched |
| HomeViewModel.MarkUploaded | app/src/main/java/com/example/stepscape/presentation/home/HomeViewModel.kt:166-173 | the loop as a fold; it never adds or removes a key |
| HomeViewModel.MarkUploadedMarksAt | app/src/main/java/com/example/stepscape/presentation/home/HomeViewModel.kt:166-173 | over rows of the user with distinct starts, the fold marks exactly the rows whose upload succeeds |
| HomeViewModel.SyncLoopIsSyncedSessions | app/src/main/java/com/example/stepscape/presentation/home/HomeViewModel.kt:163-173 | the fold over the unsynced query result equals `SyncedSessions` |
| HomeViewModel.AttemptedExactlyUnsynced | app/src/main/java/com/example/stepscape/presentation/home/HomeViewModel.kt:163-168 | one upload is attempted for each of the user's unsynced sessions and for no other, and no start is attempted twice |
| HomeCharts.Lookup | app/src/main/java/com/example/stepscape/presentation/home/HomeViewModel.kt:212 | `?: 0L`: the stored value when the key is present, else 0 |
| HomeCharts.DayChart | app/src/main/java/com/example/stepscape/presentation/home/HomeViewModel.kt:206-216 | 24 points; point h has x = h and the hour's steps, or 0 |
| HomeCharts.DayChartTotal | app/src/main/java/com/example/stepscape/presentation/home/HomeViewModel.kt:206-216 | with hours in 0..23, the day chart adds up to all hourly values |
| HomeCharts.DayChartOfReader | app/src/main/java/com/example/stepscape/presentation/home/HomeViewModel.kt:207-215 | fed by the hourly reader, the day chart adds up to all counts read for today |
| HomeCharts.WeekChart | app/src/main/java/com/example/stepscape/presentation/home/HomeViewModel.kt:218-231 | 7 points, oldest first; point i is the day today - (6 - i), or 0 |
| HomeCharts.WeekChartTotal | app/src/main/java/com/example/stepscape/presentation/home/HomeViewModel.kt:223-230 | the week chart adds up to the map's values over exactly the 7 days ending today |
| HomeCharts.ConsecutiveTotal | app/src/main/java/com/example/stepscape/presentation/home/HomeViewModel.kt:223-230 | a chart of consecutive days adds up to the map's values over the days it covers |
| HomeCharts.MonthSampleDay | app/src/main/java/com/example/stepscape/presentation/home/HomeViewModel.kt:240-241 | the sampled days lie between 29 and 4 days ago, five days apart |
| HomeCharts.MonthPoints | app/src/main/java/com/example/stepscape/presentation/home/HomeViewModel.kt:239-247 | 6 points; point i is the day today - (29 - 5i), or 0 |
| HomeCharts.MonthChart | app/src/main/java/com/example/stepscape/presentation/home/HomeViewModel.kt:233-249 | the append loop yields `MonthPoints` |
| HomeCharts.MonthPointsSkipToday | app/src/main/java/com/example/stepscape/presentation/home/HomeViewModel.kt:239-247 | today's steps never reach the month chart |
| HomeCharts.MonthTotal | app/src/main/java/com/example/stepscape/presentation/home/HomeViewModel.kt:260-262 | a month with no day in the map totals 0 |
| HomeCharts.MonthlyChart | app/src/main/java/com/example/stepscape/presentation/home/HomeViewModel.kt:256-269 | n points, oldest month first; point i totals the month thisMonth - (n - 1 - i) |
| HomeCharts.SixMonthChart | app/src/main/java/com/example/stepscape/presentation/home/HomeViewModel.kt:251-270 | 6 points; point i totals the month 5 - i months back |
| HomeCharts.YearChart | app/src/main/java/com/example/stepscape/presentation/home/HomeViewModel.kt:272-291 | 12 points; point i totals the month 11 - i months back |
| HomeCharts.MonthlyChartTotal | app/src/main/java/com/example/stepscape/presentation/home/HomeViewModel.kt:256-269 | the monthly chart counts every day of its months exactly once |
| HomeCharts.MonthlyChartShowsAll | app/src/main/java/com/example/stepscape/presentation/home/HomeViewModel.kt:277-290 | when every day of the map falls in the chart's months, the chart adds up to all of the map's values |
| HomeCharts.MessageFor | app/src/main/java/com/example/stepscape/presentation/home/HomeViewModel.kt:305-315 | each message is chosen exactly on its band of the percent: at least 100, 90-99, 75-89, 50-74, 25-49, below 25 |
| HomeCharts.MessageMonotone | app/src/main/java/com/example/stepscape/presentation/home/HomeViewModel.kt:307-314 | more progress never gives a lower message |

## Left out

- Calls into the health provider SDK are parameters: the read, the aggregate, the SDK status check and the client cache. Permission checks, `hasAllPermissions` and `openPlayStoreForUpdate` are not modelled.
- The provider's time-range filter is the provider's own business. The model does not assume that the records it returns lie inside the requested range.
- The Firebase writes and the auth client are foreign calls, so the model uses the `upload` and `currentUser` parameters.
- Time zones, daylight saving and calendars are simplified. The time zone is a fixed offset. A month is the abstract `monthOf` of a day number, and `monthStart`/`monthEnd` are the days whose `monthOf` is that month.
- Floating point is left out: the progress percent, the float divide and `toInt` that produce the percent for the message, and the float x values. `HomeCharts.MessageFor` takes the whole percent as its input.
- Chart labels (hour, weekday, day-of-month and month names) are formatting and are not modelled.
- Coroutines, `StateFlow` updates, `Flow` re-emission and logging are left out. Queries are snapshots.
- The wiring of the home screen is UI state plumbing: `loadTodaySteps`, `loadChartData`, `checkPermissions`, `refresh` and the UI state updates.
- Exceptions thrown by the local database are not modelled, and neither is the `try`/`catch` of `loadAndSyncSessions` and `loadChartData` that swallows them. A failed remote upload is caught by the upload service itself, which answers false; the `upload` parameter's false answer covers that case.
- Step totals are unbounded integers, so 64-bit `Long` overflow of sums is not modelled. The one narrowing conversion, `steps.toInt()` on a session, is modelled by `Int32.FromLong`.
- `getUnsyncedRecordsByUser` and `getUnsyncedSessionsByUser` have no `ORDER BY`, so SQL leaves their order open. The model lists them by ascending date or start time, and every property proved holds for any order of the same rows.
- The context-only use cases are thin pass-throughs to the health reader: `GetStepsForPeriodUseCase` and `GetHealthConnectStepsUseCase`. The charts take the reader's result as their input.

/** The rows of the two local tables (Room entities). */
module Entity {
  import opened Int32

  /** A row of `step_records`; the primary key is (userId, date). */
  datatype StepRecord = StepRecord(userId: string, date: int, steps: int32, syncedToFirebase: bool)

  /** A row of `step_sessions`; the primary key is (userId, startTime). */
  datatype StepSession = StepSession(userId: string, startTime: int, endTime: int, steps: int32, syncedToFirebase: bool)
}

/** The domain-layer records handed to the use cases and the upload client. */
module Domain {
  import opened Int32

  datatype StepRecord = StepRecord(userId: string, date: int, steps: int32, syncedToFirebase: bool)

  datatype StepSession = StepSession(userId: string, startTime: int, endTime: int, steps: int32, syncedToFirebase: bool)
}

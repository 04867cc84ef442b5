/** Conversions between the `step_sessions` row and the domain session. */
module StepSessionMapper {
  import Entity
  import Domain

  function ToDomain(e: Entity.StepSession): (d: Domain.StepSession)
    ensures d.userId == e.userId && d.startTime == e.startTime && d.endTime == e.endTime
    ensures d.steps == e.steps && d.syncedToFirebase == e.syncedToFirebase
  {
    Domain.StepSession(e.userId, e.startTime, e.endTime, e.steps, e.syncedToFirebase)
  }

  function ToEntity(d: Domain.StepSession): (e: Entity.StepSession)
    ensures e.userId == d.userId && e.startTime == d.startTime && e.endTime == d.endTime
    ensures e.steps == d.steps && e.syncedToFirebase == d.syncedToFirebase
  {
    Entity.StepSession(d.userId, d.startTime, d.endTime, d.steps, d.syncedToFirebase)
  }

  /** `toSessionDomain`: maps each row in place, keeping length and order. */
  function ToSessionDomain(es: seq<Entity.StepSession>): (ds: seq<Domain.StepSession>)
    ensures |ds| == |es|
    ensures forall i :: 0 <= i < |es| ==> ds[i] == ToDomain(es[i])
  {
    if es == [] then [] else [ToDomain(es[0])] + ToSessionDomain(es[1..])
  }

  lemma EntityRoundTrip(e: Entity.StepSession)
    ensures ToEntity(ToDomain(e)) == e
  {
  }

  lemma DomainRoundTrip(d: Domain.StepSession)
    ensures ToDomain(ToEntity(d)) == d
  {
  }
}

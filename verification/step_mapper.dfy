/** Conversions between the `step_records` row and the domain record. */
module StepMapper {
  import Entity
  import Domain

  function ToDomain(e: Entity.StepRecord): (d: Domain.StepRecord)
    ensures d.userId == e.userId && d.date == e.date && d.steps == e.steps
    ensures d.syncedToFirebase == e.syncedToFirebase
  {
    Domain.StepRecord(e.userId, e.date, e.steps, e.syncedToFirebase)
  }

  function ToEntity(d: Domain.StepRecord): (e: Entity.StepRecord)
    ensures e.userId == d.userId && e.date == d.date && e.steps == d.steps
    ensures e.syncedToFirebase == d.syncedToFirebase
  {
    Entity.StepRecord(d.userId, d.date, d.steps, d.syncedToFirebase)
  }

  /** The list conversion maps each row in place, keeping length and order. */
  function ToDomainList(es: seq<Entity.StepRecord>): (ds: seq<Domain.StepRecord>)
    ensures |ds| == |es|
    ensures forall i :: 0 <= i < |es| ==> ds[i] == ToDomain(es[i])
  {
    if es == [] then [] else [ToDomain(es[0])] + ToDomainList(es[1..])
  }

  lemma EntityRoundTrip(e: Entity.StepRecord)
    ensures ToEntity(ToDomain(e)) == e
  {
  }

  lemma DomainRoundTrip(d: Domain.StepRecord)
    ensures ToDomain(ToEntity(d)) == d
  {
  }
}

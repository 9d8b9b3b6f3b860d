/** What each answer of the observation authority means. */
module AuthorityAnswers {
  import opened Basics
  import opened Observations
  import opened Authority
  import opened AuthorityRuns
  import opened DeliveryConvergence

  /** The run is bound, and under this generation. */
  predicate Current(s: State, o: HostObservation) {
    o.runId in s.domain && s.domain[o.runId] == o.generation
  }

  /** The state records exactly this kind at the delivery's ordinal. */
  predicate Logs(s: State, o: HostObservation) {
    (o.runId, o.ordinal) in s.applied && s.applied[(o.runId, o.ordinal)] == o.kind
  }

  /** A delivery is answered Ok exactly when it is current and the state after it records it; any other
      delivery, and a replay, leaves the state as it was. */
  lemma OkIffRecorded(s: State, o: HostObservation)
    requires Inv(s)
    ensures Answer(Judge(s, o)).Ok? <==> Current(s, o) && Logs(Deliver(s, o), o)
    ensures Deliver(s, o) != s ==> Answer(Judge(s, o)).Ok? && !Logs(s, o)
  {
  }

  /** Each error, exactly. The applied ordinals of a run are those below the next expected one, so a
      delivery there conflicts, and one at zero, beyond it, or at the last ordinal is out of order. */
  lemma ErrorsAre(s: State, o: HostObservation)
    requires Inv(s)
    ensures var answer, next := Answer(Judge(s, o)), NextExpected(s.nextOrdinal, o.runId);
            && (answer == Err(UnknownAgentRun) <==> o.runId !in s.domain)
            && (answer == Err(StaleGeneration) <==> o.runId in s.domain && s.domain[o.runId] != o.generation)
            && (answer == Err(Conflict) <==> Current(s, o) && 1 <= o.ordinal < next && !Logs(s, o))
            && (answer == Err(OutOfOrder) <==>
                  Current(s, o) && (o.ordinal == 0 || o.ordinal > next || o.ordinal == next == U64_MAX))
            && (answer.Ok? <==>
                  Current(s, o) && ((1 <= o.ordinal < next && Logs(s, o)) || o.ordinal == next < U64_MAX))
  {
    assert (o.runId, o.ordinal) in s.applied <==> 1 <= o.ordinal < NextExpected(s.nextOrdinal, o.runId);
  }

  /** Against a canonical stream: a current delivery at an ordinal already reached is answered Ok if it
      carries the canonical kind and refused as a conflict otherwise, and changes nothing either way. */
  lemma ConflictIffNotCanonical(s: State, canon: Canon, o: HostObservation)
    requires Inv(s) && HoldsPrefix(s, canon) && Current(s, o)
    requires 1 <= o.ordinal < NextExpected(s.nextOrdinal, o.runId)
    ensures o.runId in canon && o.ordinal <= |canon[o.runId]|
    ensures Answer(Judge(s, o)) == if o.kind == canon[o.runId][o.ordinal - 1] then Ok else Err(Conflict)
    ensures Deliver(s, o) == s
  {
    assert (o.runId, o.ordinal) in s.applied;
  }

  lemma FreshKeepsInv(domain: map<RunId, nat>)
    ensures Inv(Fresh(domain)) && Fresh(domain).effects == 0
  {
    assert EffectKeys(map[]) == {};
  }

  /** Advancing a binding under its present generation fences off every delivery under that generation; under
      any other generation, or at the last one, it changes nothing. */
  lemma AdvanceFences(s: State, run: RunId, presented: nat, o: HostObservation)
    requires o.runId == run && o.generation == presented
    ensures var t := Perform(s, AdvanceBinding(run, presented));
            if Current(s, o) && presented < U64_MAX then
              Answer(Judge(t, o)) == Err(StaleGeneration) && t.domain == s.domain[run := presented + 1]
              && t.(domain := s.domain) == s
            else t == s
  {
  }
}

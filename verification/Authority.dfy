/** The observation authority: it consumes host observations under a generation
    fence and an exact next-ordinal rule, keeps a sticky liveness per run, and can
    take back an accepted observation whose event did not commit. */
module Authority {
  import opened Basics
  import opened Observations

  datatype Liveness = ScriptedLive | ObservationLost | UnknownAfterCrash | KnownTerminated

  datatype ObserveError = UnknownAgentRun | StaleGeneration | OutOfOrder | Conflict

  datatype ObserveResult = Ok | Err(error: ObserveError)

  /** What the authority knows. The agent domain is seen only through the current
      binding generation of each run. */
  datatype State = State(
    domain: map<RunId, nat>,
    applied: map<(RunId, nat), Kind>,
    nextOrdinal: map<RunId, nat>,
    liveness: map<RunId, Liveness>,
    effects: nat)

  function Fresh(domain: map<RunId, nat>): State {
    State(domain, map[], map[], map[], 0)
  }

  function NextExpected(next: map<RunId, nat>, run: RunId): nat {
    if run in next then next[run] else 1
  }

  function LivenessOf(liveness: map<RunId, Liveness>, run: RunId): Liveness {
    if run in liveness then liveness[run] else ScriptedLive
  }

  function Recorded(liveness: map<RunId, Liveness>, run: RunId): Option<Liveness> {
    if run in liveness then Some(liveness[run]) else None
  }

  /** Termination sticks against everything; a crash sticks against disconnect and reconnect. */
  predicate Blocks(current: Liveness, next: Liveness) {
    current.KnownTerminated? || (current.UnknownAfterCrash? && (next.ObservationLost? || next.ScriptedLive?))
  }

  function SetLiveness(liveness: map<RunId, Liveness>, run: RunId, next: Liveness): map<RunId, Liveness> {
    if Blocks(LivenessOf(liveness, run), next) then liveness else liveness[run := next]
  }

  /** The liveness table after an observation of kind `k` is accepted for `run`. */
  function Observe(liveness: map<RunId, Liveness>, run: RunId, k: Kind): map<RunId, Liveness> {
    match k
    case ObservationDisconnected => SetLiveness(liveness, run, ObservationLost)
    case ObservationReconnected =>
      if LivenessOf(liveness, run).ObservationLost? then SetLiveness(liveness, run, ScriptedLive) else liveness
    case HarnessCrashed => SetLiveness(liveness, run, UnknownAfterCrash)
    case UnknownLiveness => SetLiveness(liveness, run, UnknownAfterCrash)
    case KnownSuccess => SetLiveness(liveness, run, KnownTerminated)
    case KnownFailure => SetLiveness(liveness, run, KnownTerminated)
    case EffectUnknown => liveness
    case _ => if run in liveness then liveness else SetLiveness(liveness, run, ScriptedLive)
  }

  datatype Verdict = Accept | Replay | Reject(error: ObserveError)

  /** The verdict on a delivery: fence first, then replays, then the ordinal rule. */
  function Judge(s: State, o: HostObservation): Verdict {
    if o.runId !in s.domain then Reject(UnknownAgentRun)
    else if s.domain[o.runId] != o.generation then Reject(StaleGeneration)
    else if (o.runId, o.ordinal) in s.applied then
      if s.applied[(o.runId, o.ordinal)] == o.kind then Replay else Reject(Conflict)
    else if o.ordinal != NextExpected(s.nextOrdinal, o.runId) then Reject(OutOfOrder)
    else if o.ordinal >= U64_MAX then Reject(OutOfOrder)
    else Accept
  }

  function Accepted(s: State, o: HostObservation): State {
    s.(applied := s.applied[(o.runId, o.ordinal) := o.kind],
       nextOrdinal := s.nextOrdinal[o.runId := o.ordinal + 1],
       liveness := Observe(s.liveness, o.runId, o.kind),
       effects := s.effects + if IsEffect(o.kind) then 1 else 0)
  }

  function Deliver(s: State, o: HostObservation): State {
    if Judge(s, o).Accept? then Accepted(s, o) else s
  }

  function Answer(v: Verdict): ObserveResult {
    if v.Reject? then Err(v.error) else Ok
  }

  function Undone(s: State, o: HostObservation, liveness: Option<Liveness>, effects: nat): State {
    State(
      s.domain,
      s.applied - {(o.runId, o.ordinal)},
      if o.ordinal + 1 == NextExpected(s.nextOrdinal, o.runId) then
        if o.ordinal <= 1 then s.nextOrdinal - {o.runId} else s.nextOrdinal[o.runId := o.ordinal]
      else s.nextOrdinal,
      match liveness case Some(l) => s.liveness[o.runId := l] case None => s.liveness - {o.runId},
      effects)
  }

  class ObservationAuthority {
    var domain: map<RunId, nat>
    var applied: map<(RunId, nat), Kind>
    var nextOrdinal: map<RunId, nat>
    var liveness: map<RunId, Liveness>
    var effectsPerformed: nat

    function View(): State
      reads this
    {
      State(domain, applied, nextOrdinal, liveness, effectsPerformed)
    }

    constructor (domain: map<RunId, nat>)
      ensures View() == Fresh(domain)
    {
      this.domain := domain;
      applied, nextOrdinal, liveness, effectsPerformed := map[], map[], map[], 0;
    }

    method SetRunLiveness(run: RunId, next: Liveness)
      modifies this`liveness
      ensures liveness == SetLiveness(old(liveness), run, next)
    {
      match LivenessOf(liveness, run) {
        case KnownTerminated => return;
        case UnknownAfterCrash =>
          if next == ObservationLost || next == ScriptedLive {
            return;
          }
        case _ =>
      }
      liveness := liveness[run := next];
    }

    method NoteCommittedTerminal(run: RunId)
      modifies this`liveness
      ensures liveness == old(liveness)[run := KnownTerminated]
    {
      liveness := liveness[run := KnownTerminated];
    }

    method MarkRecovered(run: RunId)
      modifies this`liveness
      ensures liveness == SetLiveness(old(liveness), run, UnknownAfterCrash)
    {
      SetRunLiveness(run, UnknownAfterCrash);
    }

    method Apply(o: HostObservation) returns (r: ObserveResult)
      modifies this
      ensures View() == Deliver(old(View()), o)
      ensures r == Answer(Judge(old(View()), o))
    {
      if o.runId !in domain {
        return Err(UnknownAgentRun);
      }
      if domain[o.runId] != o.generation {
        return Err(StaleGeneration);
      }
      var key := (o.runId, o.ordinal);
      if key in applied {
        return if applied[key] == o.kind then Ok else Err(Conflict);
      }
      var expected := NextExpected(nextOrdinal, o.runId);
      if o.ordinal != expected || expected >= U64_MAX {
        return Err(OutOfOrder);
      }
      if o.kind == ObservationDisconnected {
        SetRunLiveness(o.runId, ObservationLost);
      } else if o.kind == ObservationReconnected {
        if LivenessOf(liveness, o.runId) == ObservationLost {
          SetRunLiveness(o.runId, ScriptedLive);
        }
      } else if o.kind == HarnessCrashed || o.kind == UnknownLiveness {
        SetRunLiveness(o.runId, UnknownAfterCrash);
      } else if o.kind == KnownSuccess || o.kind == KnownFailure {
        SetRunLiveness(o.runId, KnownTerminated);
      } else if o.kind != EffectUnknown {
        if IsEffect(o.kind) {
          effectsPerformed := effectsPerformed + 1;
        }
        if o.runId !in liveness {
          SetRunLiveness(o.runId, ScriptedLive);
        }
      }
      applied := applied[key := o.kind];
      nextOrdinal := nextOrdinal[o.runId := expected + 1];
      r := Ok;
    }

    method UndoApply(o: HostObservation, previousLiveness: Option<Liveness>, previousEffects: nat)
      modifies this
      ensures View() == Undone(old(View()), o, previousLiveness, previousEffects)
    {
      applied := applied - {(o.runId, o.ordinal)};
      if o.ordinal + 1 == NextExpected(nextOrdinal, o.runId) {
        if o.ordinal <= 1 {
          nextOrdinal := nextOrdinal - {o.runId};
        } else {
          nextOrdinal := nextOrdinal[o.runId := o.ordinal];
        }
      }
      match previousLiveness {
        case Some(l) => liveness := liveness[o.runId := l];
        case None => liveness := liveness - {o.runId};
      }
      effectsPerformed := previousEffects;
    }
  }
}

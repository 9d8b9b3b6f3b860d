/** What is finally reported of a run, read off the steps its host took. */
module RunEndings {
  import opened Basics
  import opened Observations
  import opened Authority
  import opened ProcessHost
  import opened ProcessHostRuns
  import opened ProcessHostEndings
  import opened Pipeline
  import opened SessionPipeline

  /** The host's steps among the moves of a play. */
  function HostSteps(moves: seq<Move>): seq<Step> {
    if moves == [] then []
    else
      var m := moves[|moves| - 1];
      HostSteps(moves[..|moves| - 1]) + if m.HostMove? then [m.step] else []
  }

  lemma {:induction false} HostRuns(y: System, moves: seq<Move>)
    requires Plays(y, moves)
    ensures Runs(y.host, HostSteps(moves)) && Reached(y, moves).host == After(y.host, HostSteps(moves))
  {
    hide Enabled, Take;
    if moves != [] {
      var before, m := moves[..|moves| - 1], moves[|moves| - 1];
      HostRuns(y, before);
      if m.HostMove? {
        var steps := HostSteps(moves);
        assert steps[..|steps| - 1] == HostSteps(before) && steps[|steps| - 1] == m.step;
      } else {
        assert HostSteps(moves) == HostSteps(before);
      }
    }
  }

  /** The liveness a final kind stands for. */
  predicate Denotes(l: Liveness, k: Kind) {
    match k
    case KnownSuccess => l == KnownTerminated
    case KnownFailure => l == KnownTerminated
    case HarnessCrashed => l == UnknownAfterCrash
    case UnknownLiveness => l == UnknownAfterCrash
    case ObservationDisconnected => l == ObservationLost
    case _ => false
  }

  lemma TellsIsFinal(steps: seq<Step>, k: Kind)
    requires Tells(steps, k)
    ensures IsFinal(k)
  {
  }

  /** The authority followed a finished stream to its end: it reports the liveness of the last kind. */
  lemma FollowedToEnd(s: State, h: Host, k: Kind)
    requires h.Stream() != [] && h.Stream()[|h.Stream()| - 1].kind == k && IsFinal(k)
    requires Follows(s, h.run, h.generation, h.Stream(), |h.Stream()|)
    ensures Denotes(LivenessOf(s.liveness, h.run), k)
  {
  }

  /** A run that has finished, was drained, and dropped nothing is reported as what its host's steps tell. */
  lemma ReportIsTold(run: RunId, generation: nat, maxChunk: nat, s: State, moves: seq<Move>, k: Kind)
    requires Ready(s, run, generation)
    requires Plays(System(Spawned(run, generation, maxChunk), s, []), moves)
    requires Short(Reached(System(Spawned(run, generation, maxChunk), s, []), moves).host)
    requires var h := Reached(System(Spawned(run, generation, maxChunk), s, []), moves).host;
             h.reader.Finished? && h.items == [] && h.dropped.None?
    requires Tells(HostSteps(moves), k)
    ensures Denotes(LivenessOf(Reached(System(Spawned(run, generation, maxChunk), s, []), moves).authority.liveness,
            run), k)
  {
    hide Tells, Plays, Reached, Ready, Short, Good, Follows, Denotes, IsFinal;
    var y0 := System(Spawned(run, generation, maxChunk), s, []);
    var y := Reached(y0, moves);
    PlaysTrack(run, generation, maxChunk, s, moves);
    HostRuns(y0, moves);
    FinalKindIsTold(run, generation, maxChunk, HostSteps(moves), k);
    TellsIsFinal(HostSteps(moves), k);
    assert y.host.drained + [] == y.host.drained;
    FollowedToEnd(y.authority, y.host, k);
  }

  /** So a run nobody cancelled, whose child was seen to exit with a code, is reported as terminated once it
      is drained. */
  lemma SeenExitTerminates(run: RunId, generation: nat, maxChunk: nat, s: State, moves: seq<Move>)
    requires Ready(s, run, generation)
    requires Plays(System(Spawned(run, generation, maxChunk), s, []), moves)
    requires Short(Reached(System(Spawned(run, generation, maxChunk), s, []), moves).host)
    requires var h := Reached(System(Spawned(run, generation, maxChunk), s, []), moves).host;
             h.reader.Finished? && h.items == []
    requires Cancel !in HostSteps(moves) && LastWait(HostSteps(moves)) == Some(StatusSeen)
    requires ExitOf(HostSteps(moves)).Some? && ExitOf(HostSteps(moves)).value.Exited?
    ensures var y := Reached(System(Spawned(run, generation, maxChunk), s, []), moves);
            LivenessOf(y.authority.liveness, run) == KnownTerminated
  {
    hide Plays, Reached, Ready, Short, Tells, Runs, After, LastWait, ExitOf;
    var y0, steps := System(Spawned(run, generation, maxChunk), s, []), HostSteps(moves);
    var y := Reached(y0, moves);
    HostRuns(y0, moves);
    RunsAreTold(run, generation, maxChunk, steps);
    ReachableIsGood(run, generation, maxChunk, steps);
    var code := ExitOf(steps).value.code;
    SeenCodeIsTold(run, generation, maxChunk, steps, code);
    var k := if code == 0 then KnownSuccess else KnownFailure;
    FinalKindIsTold(run, generation, maxChunk, steps, k);
    ReportIsTold(run, generation, maxChunk, s, moves, k);
  }

  // ---------- through the session ----------

  function TurnSteps(turns: seq<Turn>): seq<Step> {
    if turns == [] then []
    else
      TurnSteps(turns[..|turns| - 1]) +
      match turns[|turns| - 1]
      case Work(step) => [step]
      case DrainAndCommit(_) => [Drain]
      case Elsewhere(_) => []
  }

  lemma {:induction false} TurnsRun(y: Hosted, turns: seq<Turn>)
    requires CanTake(y, turns)
    ensures Runs(y.host, TurnSteps(turns)) && Taken(y, turns).host == After(y.host, TurnSteps(turns))
  {
    hide Enabled, Take;
    if turns != [] {
      var before, m := turns[..|turns| - 1], turns[|turns| - 1];
      TurnsRun(y, before);
      var steps := TurnSteps(turns);
      if m.Elsewhere? {
        assert steps == TurnSteps(before);
      } else {
        assert steps[..|steps| - 1] == TurnSteps(before);
      }
    }
  }

  /** In the session too, if every batch committed. */
  lemma SessionReportIsTold(run: RunId, generation: nat, maxChunk: nat, s: State, turns: seq<Turn>, k: Kind)
    requires Ready(s, run, generation)
    requires CanTake(Launched(run, generation, maxChunk, s), turns)
    requires Short(Taken(Launched(run, generation, maxChunk, s), turns).host)
    requires var y := Taken(Launched(run, generation, maxChunk, s), turns);
             y.host.reader.Finished? && y.host.items == [] && AllCommitted(y.results)
    requires Tells(TurnSteps(turns), k)
    ensures Denotes(LivenessOf(Taken(Launched(run, generation, maxChunk, s), turns).authority.liveness, run), k)
  {
    hide Tells, CanTake, Taken, Ready, Short, Good, Follows, Denotes, IsFinal, AllCommitted, LostTail;
    var y0 := Launched(run, generation, maxChunk, s);
    var y := Taken(y0, turns);
    SessionPipelineHolds(run, generation, maxChunk, s, turns);
    TurnsRun(y0, turns);
    FinalKindIsTold(run, generation, maxChunk, TurnSteps(turns), k);
    TellsIsFinal(TurnSteps(turns), k);
    assert y.host.drained + [] == y.host.drained;
    FollowedToEnd(y.authority, y.host, k);
  }
}

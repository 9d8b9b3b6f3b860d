/** What a hosted run leaves behind, in every interleaving and whatever the store decides: its durable log
    and its reported liveness. */
module SessionRecord {
  import opened Basics
  import opened Observations
  import opened Authority
  import opened ProcessHost
  import opened ProcessHostRuns
  import opened Pipeline
  import opened CommitSpec
  import opened SessionPipeline
  import opened AuthorityRuns
  import opened AuthorityAnswers

  // ---------- the durable log of the run ----------

  function RunOf(e: DurableEvent): RunId {
    match e
    case OutputEvent(run, _, _, _) => run
    case ObservationEvent(o) => o.runId
  }

  /** The events of one run, in order. */
  function RunEvents(events: seq<DurableEvent>, run: RunId): seq<DurableEvent> {
    if events == [] then []
    else
      RunEvents(events[..|events| - 1], run) +
      if RunOf(events[|events| - 1]) == run then [events[|events| - 1]] else []
  }

  lemma {:induction false} RunEventsAppend(a: seq<DurableEvent>, b: seq<DurableEvent>, run: RunId)
    ensures RunEvents(a + b, run) == RunEvents(a, run) + RunEvents(b, run)
  {
    if b == [] {
      assert a + b == a;
    } else {
      assert (a + b)[..|a + b| - 1] == a + b[..|b| - 1];
      RunEventsAppend(a, b[..|b| - 1], run);
    }
  }

  lemma DescribedRun(e: DurableEvent, os: seq<HostObservation>, run: RunId)
    requires Describes(e, os) && forall i | 0 <= i < |os| :: os[i].runId == run
    ensures RunOf(e) == run
  {
    assert os[0] in os;
  }

  lemma {:induction false} RecordsOfOneRun(events: seq<DurableEvent>, os: seq<HostObservation>, run: RunId)
    requires Transcribes(events, os) && forall i | 0 <= i < |os| :: os[i].runId == run
    ensures RunEvents(events, run) == events
  {
    hide Describes, RunOf;
    if events != [] {
      var n := |events| - 1;
      var k :| 0 <= k <= |os| && Transcribes(events[..n], os[..k]) && Describes(events[n], os[k..]);
      RecordsOfOneRun(events[..n], os[..k], run);
      DescribedRun(events[n], os[k..], run);
      assert events == events[..n] + [events[n]];
    }
  }

  lemma ElsewhereIsOtherRun(s: State, o: HostObservation, run: RunId)
    requires o.runId != run
    ensures RunEvents(UnitEvents(s, [o]), run) == []
  {
    hide Judge, NewlyAccepted;
    NewlyAcceptedOne(s, o);
    var e := UnitEvents(s, [o]);
    assert |e| <= 1 && (e != [] ==> e[..0] == []);
  }

  /** The run's events are the record of exactly the observations the authority holds. */
  ghost predicate Logged(y: Hosted) {
    && 0 <= Known(y) <= |y.host.Stream()|
    && Transcribes(RunEvents(y.events, y.host.run), y.host.Stream()[..Known(y)])
  }

  /** The items committed by a batch in step are all new. */
  lemma CommittedItemsAreNew(s: State, h: Host, verdicts: seq<StoreVerdict>)
    requires Shaped(h) && Short(h) && |h.items| == |verdicts|
    requires Follows(s, h.run, h.generation, h.Stream(), |h.drained|)
    ensures var p := CommitFrom(s, h.items, verdicts, 0);
            p.end <= |h.items| && NewlyAccepted(s, h.items[..p.end]) == h.items[..p.end]
  {
    hide Shaped, Follows, Short, NewlyAccepted, CommitFrom;
    var p, lo, t := CommitFrom(s, h.items, verdicts, 0), |h.drained|, h.Stream();
    CommitFollows(s, h, verdicts, 0);
    assert AllTakeable(h, lo, lo + p.end);
    StretchIsAccepted(s, h, t, lo, lo + p.end);
    assert t[lo..lo + p.end] == h.items[..p.end];
  }

  lemma DrainLogged(y: Hosted, verdicts: seq<StoreVerdict>)
    requires InStep(y) && Logged(y) && CanTurn(y, DrainAndCommit(verdicts)) && Short(y.host)
    ensures Logged(TakeTurn(y, DrainAndCommit(verdicts)))
  {
    hide AllCommitted, NoneFailed, CommitFrom, Transcribes, NewlyAccepted, RunEvents, Follows, LostTail;
    hide Conserved, Bounded, Evident, DropEndsKnown;
    var h, z, n := y.host, TakeTurn(y, DrainAndCommit(verdicts)), Known(y);
    var p := CommitFrom(y.authority, h.items, verdicts, 0);
    DrainedLosesTail(h);
    RunEventsAppend(y.events, p.events, h.run);
    if n == |h.drained| {
      CommitFollows(y.authority, h, verdicts, 0);
      FollowsKnown(p.state, h.run, h.generation, h.Stream(), n + p.end);
      CommitTranscribes(y.authority, h.items, verdicts, 0);
      CommittedItemsAreNew(y.authority, h, verdicts);
      assert h.items[0..p.end] == h.items[..p.end];
      ItemsAreOfRun(h);
      RecordsOfOneRun(p.events, h.items[..p.end], h.run);
      TranscribesAppend(RunEvents(y.events, h.run), p.events, h.Stream()[..n], h.items[..p.end]);
      assert h.Stream()[..n] + h.items[..p.end] == h.Stream()[..n + p.end];
    } else {
      BehindCommitsNothing(y.authority, h, n, verdicts);
      assert y.events + [] == y.events;
    }
  }

  lemma ItemsAreOfRun(h: Host)
    requires Shaped(h)
    ensures forall i | 0 <= i < |h.items| :: h.items[i].runId == h.run
  {
    assert forall i | 0 <= i < |h.items| :: h.items[i] == h.Stream()[|h.drained| + i];
  }

  lemma TurnLogged(y: Hosted, m: Turn)
    requires InStep(y) && Logged(y) && CanTurn(y, m) && Short(y.host)
    ensures Logged(TakeTurn(y, m))
  {
    hide Transcribes, RunEvents, CommitFrom, UnitEvents, InStep, Deliver, Short;
    match m {
      case Work(step) =>
        StreamStep(y.host, step);
        WorkInStep(y, step);
        assert Take(y.host, step).Stream()[..Known(y)] == y.host.Stream()[..Known(y)];
      case Elsewhere(o) =>
        ElsewhereInStep(y, o);
        RunEventsAppend(y.events, UnitEvents(y.authority, [o]), y.host.run);
        ElsewhereIsOtherRun(y.authority, o, y.host.run);
        assert RunEvents(y.events, y.host.run) + [] == RunEvents(y.events, y.host.run);
      case DrainAndCommit(verdicts) => DrainLogged(y, verdicts);
    }
  }

  lemma {:induction false} TurnsLogged(y: Hosted, turns: seq<Turn>)
    requires InStep(y) && Logged(y) && CanTake(y, turns) && Short(Taken(y, turns).host)
    ensures Logged(Taken(y, turns))
  {
    hide InStep, Logged, TakeTurn, CanTurn, Short;
    if turns != [] {
      var less, m := turns[..|turns| - 1], turns[|turns| - 1];
      TurnLengthens(Taken(y, less), m);
      TurnsInStep(y, less);
      TurnsLogged(y, less);
      TurnLogged(Taken(y, less), m);
    }
  }

  /** In every interleaving, whatever the store decides, the durable events of the run are the record of
      exactly the observations the authority holds: the first ones of the stream, in order. */
  lemma SessionLogHolds(run: RunId, generation: nat, maxChunk: nat, s: State, turns: seq<Turn>)
    requires Ready(s, run, generation)
    requires CanTake(Launched(run, generation, maxChunk, s), turns)
    requires Short(Taken(Launched(run, generation, maxChunk, s), turns).host)
    ensures Logged(Taken(Launched(run, generation, maxChunk, s), turns))
  {
    var y := Launched(run, generation, maxChunk, s);
    StartsInStep(run, generation, maxChunk, s);
    assert y.host.Stream()[..0] == [];
    assert Logged(y);
    TurnsLogged(y, turns);
  }

  // ---------- what is reported ----------

  /** Termination is reported exactly when a known end is among the observations the authority holds, and
      then only if the child was seen to exit with a status code or shutdown was requested. A lost pipe is
      reported as a lost observation, a crash only for a signalled child or a failed wait. */
  ghost predicate ReportIsEvidenced(y: Hosted) {
    var h, n, l := y.host, Known(y), LivenessOf(y.authority.liveness, y.host.run);
    && 0 <= n <= |h.Stream()|
    && (l.KnownTerminated? <==> exists i | 0 <= i < n :: KnownEnd(h.Stream()[i].kind))
    && (l.KnownTerminated? ==> h.shutdown || (h.child.Some? && h.child.value.Exited?))
    && (l.ObservationLost? <==> exists i | 0 <= i < n :: h.Stream()[i].kind == ObservationDisconnected)
    && (l.UnknownAfterCrash? ==> h.child == Some(Signalled) || (n > 0 && h.Stream()[n - 1].kind == UnknownLiveness))
  }

  /** Only the last observation of the stream can be a final one. */
  lemma FinalIsLast(h: Host, i: nat)
    requires Shaped(h) && i + 1 < |h.Stream()|
    ensures Plain(h.Stream()[i].kind)
  {
  }

  lemma InStepIsEvidenced(y: Hosted)
    requires InStep(y)
    ensures ReportIsEvidenced(y)
  {
    hide AllCommitted, NoneFailed, LostTail, Shaped, Controlled, Conserved, Bounded, DropEndsKnown;
    var h, n, t := y.host, Known(y), y.host.Stream();
    forall i | 0 <= i < n - 1 ensures Plain(t[i].kind) {
      FinalIsLast(h, i);
    }
    if n > 0 {
      assert Justified(h, t[n - 1].kind);
    }
  }

  /** In every interleaving the session reports an end only with its evidence. */
  lemma SessionReportHolds(run: RunId, generation: nat, maxChunk: nat, s: State, turns: seq<Turn>)
    requires Ready(s, run, generation)
    requires CanTake(Launched(run, generation, maxChunk, s), turns)
    requires Short(Taken(Launched(run, generation, maxChunk, s), turns).host)
    ensures ReportIsEvidenced(Taken(Launched(run, generation, maxChunk, s), turns))
  {
    hide InStep, ReportIsEvidenced, Ready, Short;
    SessionPipelineHolds(run, generation, maxChunk, s, turns);
    InStepIsEvidenced(Taken(Launched(run, generation, maxChunk, s), turns));
  }

  /** Observations of other runs go through the same authority: one is recorded if and only if its run is
      bound under its generation and it is answered Ok, and it changes nothing of the host. */
  lemma ElsewhereIsRecorded(y: Hosted, o: HostObservation)
    requires Inv(y.authority) && CanTurn(y, Elsewhere(o))
    ensures var z := TakeTurn(y, Elsewhere(o));
            && (Answer(Judge(y.authority, o)).Ok? <==> Current(z.authority, o) && Logs(z.authority, o))
            && z.host == y.host && z.results == y.results
            && Transcribes(z.events[|y.events|..], NewlyAccepted(y.authority, [o]))
  {
    hide Judge, Transcribes, NewlyAccepted, UnitEvents, Logs;
    OkIffRecorded(y.authority, o);
    UnitTranscribes(y.authority, [o], 0);
    assert [o][0..1] == [o];
  }
}

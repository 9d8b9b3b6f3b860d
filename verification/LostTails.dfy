/** Plays that lose the tail: a cancel finds a chunk blocked on a full buffer. */
module LostTails {
  import opened Basics
  import opened Observations
  import opened Authority
  import opened ProcessHost
  import opened Pipeline

  lemma StepOn(h: Host, steps: seq<Step>, step: Step)
    requires Runs(h, steps) && Enabled(After(h, steps), step)
    ensures Runs(h, steps + [step]) && After(h, steps + [step]) == Take(After(h, steps), step)
  {
    assert (steps + [step])[..|steps|] == steps;
  }

  lemma {:induction false} RunOn(h: Host, a: seq<Step>, b: seq<Step>)
    requires Runs(h, a) && Runs(After(h, a), b)
    ensures Runs(h, a + b) && After(h, a + b) == After(After(h, a), b)
  {
    hide Enabled, Take;
    if b == [] {
      assert a + b == a;
    } else {
      var b', step := b[..|b| - 1], b[|b| - 1];
      RunOn(h, a, b');
      StepOn(h, a + b', step);
      assert a + b' + [step] == a + b;
    }
  }

  /** Cancelling while a chunk is blocked: it is dropped, and its ordinal is used up. */
  const CANCEL_BLOCKED := [Cancel, PushChunk, CheckShutdown]

  /** The child does not exit in time, and the final observation is published and drained. */
  const FINISH := [Wait(GraceExpired), Wait(GraceExpired), Publish, Drain]

  const BLOCKED_CANCEL := CANCEL_BLOCKED + FINISH

  lemma CancelDrops(h: Host)
    requires h.reader.Pushing? && !HasRoom(h.items, h.outputBytes, |h.reader.chunk|)
    ensures Runs(h, CANCEL_BLOCKED)
    ensures After(h, CANCEL_BLOCKED)
            == h.(shutdown := true, nextOrdinal := SaturatingSucc(h.nextOrdinal), reader := ShutdownWait(false),
                  dropped := Some(h.reader.chunk))
  {
    hide HasRoom;
    assert Runs(h, []);
    StepOn(h, [], Cancel);
    StepOn(h, [] + [Cancel], PushChunk);
    StepOn(h, [] + [Cancel] + [PushChunk], CheckShutdown);
    assert CANCEL_BLOCKED == [] + [Cancel] + [PushChunk] + [CheckShutdown];
  }

  lemma FinishPublishes(h: Host)
    requires h.reader == ShutdownWait(false)
    ensures Runs(h, FINISH)
    ensures After(h, FINISH)
            == h.(items := [], outputBytes := 0, drained := h.drained + (h.items + [Observation(h, KnownFailure)]),
                  nextOrdinal := SaturatingSucc(h.nextOrdinal), reader := Finished)
  {
    assert Runs(h, []);
    StepOn(h, [], Wait(GraceExpired));
    StepOn(h, [] + [Wait(GraceExpired)], Wait(GraceExpired));
    var two := [] + [Wait(GraceExpired)] + [Wait(GraceExpired)];
    assert After(h, two) == h.(reader := Publishing(KnownFailure));
    StepOn(h, two, Publish);
    StepOn(h, two + [Publish], Drain);
    assert FINISH == two + [Publish] + [Drain];
  }

  /** From every state whose reader is blocked on a full buffer, cancelling and then draining loses
      the tail: the blocked chunk is dropped and the final observation comes after a gap. */
  lemma BlockedCancelLosesTail(h: Host)
    requires h.reader.Pushing? && !HasRoom(h.items, h.outputBytes, |h.reader.chunk|)
    ensures Runs(h, BLOCKED_CANCEL)
    ensures var h' := After(h, BLOCKED_CANCEL);
            LostTail(h') && |h'.Stream()| == |h.Stream()| + 1 && h'.drained[|h'.drained| - 1].kind == KnownFailure
  {
    hide Enabled, Take, HasRoom, Runs, After;
    CancelDrops(h);
    FinishPublishes(After(h, CANCEL_BLOCKED));
    RunOn(h, CANCEL_BLOCKED, FINISH);
  }

  /** A host nobody has drained or cancelled, back at the top of its loop after `n` one-byte chunks. */
  ghost predicate Filled(h: Host, maxChunk: nat, n: nat) {
    && h.maxChunk == maxChunk && h.reader.LoopTop? && !h.shutdown && h.drained == []
    && |h.items| == n + 1 && h.outputBytes == n
  }

  lemma FillOne(h: Host, maxChunk: nat, n: nat)
    requires Filled(h, maxChunk, n) && 0 < maxChunk && n + 1 < MAX_QUEUED_OBSERVATIONS
    ensures Runs(h, [CheckShutdown, ReadChunk([0]), PushChunk])
    ensures Filled(After(h, [CheckShutdown, ReadChunk([0]), PushChunk]), maxChunk, n + 1)
  {
    assert Runs(h, []);
    StepOn(h, [], CheckShutdown);
    StepOn(h, [] + [CheckShutdown], ReadChunk([0]));
    StepOn(h, [] + [CheckShutdown] + [ReadChunk([0])], PushChunk);
    assert [] + [CheckShutdown] + [ReadChunk([0])] + [PushChunk] == [CheckShutdown, ReadChunk([0]), PushChunk];
  }

  lemma {:induction false} FillUp(h: Host, maxChunk: nat, n: nat) returns (steps: seq<Step>)
    requires Filled(h, maxChunk, 0) && 0 < maxChunk && n < MAX_QUEUED_OBSERVATIONS
    ensures Runs(h, steps) && Filled(After(h, steps), maxChunk, n)
  {
    hide Enabled, Take, Filled;
    if n == 0 {
      steps := [];
    } else {
      var before := FillUp(h, maxChunk, n - 1);
      FillOne(After(h, before), maxChunk, n - 1);
      RunOn(h, before, [CheckShutdown, ReadChunk([0]), PushChunk]);
      steps := before + [CheckShutdown, ReadChunk([0]), PushChunk];
    }
  }

  lemma FullBlocks(h: Host, maxChunk: nat)
    requires Filled(h, maxChunk, MAX_QUEUED_OBSERVATIONS - 1) && 0 < maxChunk
    ensures Runs(h, [CheckShutdown, ReadChunk([0])])
    ensures var h' := After(h, [CheckShutdown, ReadChunk([0])]);
            h'.reader == Pushing([0]) && |h'.Stream()| == MAX_QUEUED_OBSERVATIONS
            && !HasRoom(h'.items, h'.outputBytes, 1)
  {
    assert Runs(h, []);
    StepOn(h, [], CheckShutdown);
    StepOn(h, [] + [CheckShutdown], ReadChunk([0]));
    assert [] + [CheckShutdown] + [ReadChunk([0])] == [CheckShutdown, ReadChunk([0])];
  }

  /** Blocking is reachable for every chunk size: enough small chunks fill the buffer. */
  lemma BlockingIsReachable(run: RunId, generation: nat, maxChunk: nat) returns (steps: seq<Step>)
    requires 0 < maxChunk
    ensures Runs(Spawned(run, generation, maxChunk), steps)
    ensures var h := After(Spawned(run, generation, maxChunk), steps);
            && h.reader.Pushing? && !HasRoom(h.items, h.outputBytes, |h.reader.chunk|)
            && |h.Stream()| == MAX_QUEUED_OBSERVATIONS
  {
    hide Enabled, Take, HasRoom;
    var h := Spawned(run, generation, maxChunk);
    var full := FillUp(h, maxChunk, MAX_QUEUED_OBSERVATIONS - 1);
    FullBlocks(After(h, full), maxChunk);
    RunOn(h, full, [CheckShutdown, ReadChunk([0])]);
    steps := full + [CheckShutdown, ReadChunk([0])];
  }

  // ---------- as plays of the whole pipeline ----------

  function HostMoves(steps: seq<Step>): seq<Move> {
    if steps == [] then [] else HostMoves(steps[..|steps| - 1]) + [HostMove(steps[|steps| - 1])]
  }

  lemma {:induction false} RunsArePlays(h: Host, s: State, steps: seq<Step>)
    requires Runs(h, steps)
    ensures Plays(System(h, s, []), HostMoves(steps))
    ensures Reached(System(h, s, []), HostMoves(steps)).host == After(h, steps)
  {
    hide Enabled, Take;
    if steps != [] {
      var before := steps[..|steps| - 1];
      RunsArePlays(h, s, before);
      var moves := HostMoves(steps);
      assert moves[..|moves| - 1] == HostMoves(before);
    }
  }

  /** For every chunk size there is a play that drops one chunk, has the authority refuse the final
      observation as out of order, and leaves the finished run reported as live. */
  lemma LostTailIsPlayed(run: RunId, generation: nat, maxChunk: nat, s: State) returns (moves: seq<Move>)
    requires Ready(s, run, generation) && 0 < maxChunk
    ensures Plays(System(Spawned(run, generation, maxChunk), s, []), moves)
    ensures var y := Reached(System(Spawned(run, generation, maxChunk), s, []), moves);
            && y.host.reader.Finished? && LostTail(y.host)
            && y.answers != [] && y.answers[|y.answers| - 1] == Err(OutOfOrder)
            && LivenessOf(y.authority.liveness, run) == ScriptedLive
  {
    hide Enabled, Take, HasRoom, Plays, Reached, Ready;
    var h := Spawned(run, generation, maxChunk);
    var blocked := BlockingIsReachable(run, generation, maxChunk);
    BlockedCancelLosesTail(After(h, blocked));
    RunOn(h, blocked, BLOCKED_CANCEL);
    RunsArePlays(h, s, blocked + BLOCKED_CANCEL);
    moves := HostMoves(blocked + BLOCKED_CANCEL);
    ComposedPipeline(run, generation, maxChunk, s, moves);
  }
}

/** How a run of the process host ends, read off the steps it took. */
module ProcessHostEndings {
  import opened Basics
  import opened Observations
  import opened ProcessHost
  import opened ProcessHostRuns

  // ---------- what the steps say ----------

  /** The reader looked for a cancel after one had been asked for. */
  ghost predicate CancelSeen(steps: seq<Step>) {
    exists i | 0 <= i < |steps| :: (steps[i].CheckShutdown? || steps[i].CheckCancelled?) && Cancel in steps[..i]
  }

  function LastWait(steps: seq<Step>): Option<WaitResult> {
    if steps == [] then None
    else if steps[|steps| - 1].Wait? then Some(steps[|steps| - 1].result)
    else LastWait(steps[..|steps| - 1])
  }

  function ExitOf(steps: seq<Step>): Option<ExitStatus> {
    if steps == [] then None
    else if steps[|steps| - 1].ChildExit? then Some(steps[|steps| - 1].status)
    else ExitOf(steps[..|steps| - 1])
  }

  /** What the host says at the end, given what happened. A read that fails uncancelled and an end of file
      whose wait expires are a lost pipe. Otherwise a status that was seen decides; a signal is a crash
      unless the reader saw a cancel; without a status a cancelled run failed, and a wait that itself
      failed leaves the end unknown. */
  ghost predicate Tells(steps: seq<Step>, k: Kind) {
    var cancelled, wait, exit := CancelSeen(steps), LastWait(steps), ExitOf(steps);
    var seen := wait == Some(StatusSeen) && exit.Some?;
    var lost := (ReadEnd(true) in steps && !cancelled) || (ReadEnd(false) in steps && wait == Some(GraceExpired));
    match k
    case ObservationDisconnected => lost
    case KnownSuccess => !lost && seen && exit.value == Exited(0)
    case KnownFailure =>
      && !lost
      && if seen then if exit.value.Exited? then exit.value.code != 0 else cancelled
         else cancelled
    case HarnessCrashed => !lost && seen && exit.value == Signalled && !cancelled
    case UnknownLiveness => !lost && !seen && !cancelled && wait == Some(WaitFailed)
    case _ => false
  }

  // ---------- the reader's state, read off the steps ----------

  ghost predicate NoEnd(steps: seq<Step>) {
    ReadEnd(false) !in steps && ReadEnd(true) !in steps
  }

  ghost predicate ReaderTells(h: Host, steps: seq<Step>) {
    match h.reader
    case LoopTop => !CancelSeen(steps) && NoEnd(steps) && LastWait(steps).None?
    case Reading => !CancelSeen(steps) && NoEnd(steps) && LastWait(steps).None?
    case Pushing(_) => !CancelSeen(steps) && NoEnd(steps) && LastWait(steps).None?
    case ShutdownWait(_) => CancelSeen(steps) && NoEnd(steps) && LastWait(steps) != Some(StatusSeen)
    case EndSeen(failed) =>
      !CancelSeen(steps) && ReadEnd(failed) in steps && ReadEnd(!failed) !in steps && LastWait(steps).None?
    case EofWait(cancelled) =>
      && (CancelSeen(steps) <==> cancelled) && LastWait(steps).None?
      && ReadEnd(false) in steps && ReadEnd(true) !in steps
    case ErrorWait => CancelSeen(steps) && LastWait(steps).None? && ReadEnd(true) in steps && ReadEnd(false) !in steps
    case Publishing(kind) => Tells(steps, kind)
    case Finished => h.Stream() != [] && Tells(steps, h.Stream()[|h.Stream()| - 1].kind)
  }

  ghost predicate Told(h: Host, steps: seq<Step>) {
    && (h.shutdown <==> Cancel in steps) && h.child == ExitOf(steps)
    && (LastWait(steps) == Some(StatusSeen) ==> h.child.Some?)
    && (ReadEnd(true) in steps && !CancelSeen(steps) ==> LastWait(steps).None?)
    && ReaderTells(h, steps)
  }

  lemma CancelSeenStep(steps: seq<Step>, step: Step)
    ensures CancelSeen(steps + [step]) <==>
            CancelSeen(steps) || ((step.CheckShutdown? || step.CheckCancelled?) && Cancel in steps)
  {
    var all := steps + [step];
    assert forall i | 0 <= i < |steps| :: all[i] == steps[i] && all[..i] == steps[..i];
    assert all[|steps|] == step && all[..|steps|] == steps;
    if CancelSeen(steps) {
      var i :| 0 <= i < |steps| && (steps[i].CheckShutdown? || steps[i].CheckCancelled?) && Cancel in steps[..i];
      assert (all[i].CheckShutdown? || all[i].CheckCancelled?) && Cancel in all[..i];
    }
  }

  lemma LastsStep(steps: seq<Step>, step: Step)
    ensures LastWait(steps + [step]) == if step.Wait? then Some(step.result) else LastWait(steps)
    ensures ExitOf(steps + [step]) == if step.ChildExit? then Some(step.status) else ExitOf(steps)
    ensures forall x :: x in steps + [step] <==> x in steps || x == step
  {
    assert (steps + [step])[..|steps|] == steps;
  }

  /** Steps that say nothing new leave what is told alone. */
  lemma TellsStays(steps: seq<Step>, step: Step, k: Kind)
    requires step.Drain? || step.Cancel? || step.Publish? || (step.ChildExit? && ExitOf(steps).None?)
    requires LastWait(steps) == Some(StatusSeen) ==> ExitOf(steps).Some?
    ensures Tells(steps + [step], k) <==> Tells(steps, k)
  {
    hide CancelSeen, LastWait, ExitOf;
    CancelSeenStep(steps, step);
    LastsStep(steps, step);
  }

  lemma QuietTold(h: Host, steps: seq<Step>, step: Step)
    requires Told(h, steps) && Enabled(h, step) && !ReaderStep(step)
    ensures Told(Take(h, step), steps + [step])
  {
    hide CancelSeen, LastWait, ExitOf, Tells;
    CancelSeenStep(steps, step);
    LastsStep(steps, step);
    StreamStep(h, step);
    if h.reader.Publishing? {
      TellsStays(steps, step, h.reader.kind);
    } else if h.reader.Finished? {
      TellsStays(steps, step, h.Stream()[|h.Stream()| - 1].kind);
    }
  }

  lemma WaitTold(h: Host, steps: seq<Step>, result: WaitResult)
    requires Told(h, steps) && Enabled(h, Wait(result))
    ensures Told(Take(h, Wait(result)), steps + [Wait(result)])
  {
    hide CancelSeen, LastWait, ExitOf;
    CancelSeenStep(steps, Wait(result));
    LastsStep(steps, Wait(result));
  }

  lemma ReaderTold(h: Host, steps: seq<Step>, step: Step)
    requires Told(h, steps) && Enabled(h, step) && ReaderStep(step) && !step.Wait? && !step.Publish?
    ensures Told(Take(h, step), steps + [step])
  {
    hide CancelSeen, LastWait, ExitOf;
    CancelSeenStep(steps, step);
    LastsStep(steps, step);
  }

  lemma PublishTold(h: Host, steps: seq<Step>)
    requires Told(h, steps) && Enabled(h, Publish)
    ensures Told(Take(h, Publish), steps + [Publish])
  {
    hide CancelSeen, LastWait, ExitOf, Tells;
    CancelSeenStep(steps, Publish);
    LastsStep(steps, Publish);
    StreamStep(h, Publish);
    TellsStays(steps, Publish, h.reader.kind);
  }

  lemma {:induction false} RunsAreTold(run: RunId, generation: nat, maxChunk: nat, steps: seq<Step>)
    requires Runs(Spawned(run, generation, maxChunk), steps)
    ensures Told(After(Spawned(run, generation, maxChunk), steps), steps)
  {
    var h0 := Spawned(run, generation, maxChunk);
    if steps != [] {
      hide Told, Take;
      var before, step := steps[..|steps| - 1], steps[|steps| - 1];
      RunsAreTold(run, generation, maxChunk, before);
      var h := After(h0, before);
      assert before + [step] == steps;
      if step.Wait? {
        WaitTold(h, before, step.result);
      } else if step.Publish? {
        PublishTold(h, before);
      } else if ReaderStep(step) {
        ReaderTold(h, before, step);
      } else {
        QuietTold(h, before, step);
      }
    }
  }

  /** Of the kinds there are, the steps tell at most one. */
  lemma TellsOne(steps: seq<Step>, j: Kind, k: Kind)
    requires Tells(steps, j) && Tells(steps, k)
    ensures j == k
  {
  }

  /** Every run that finished ends with exactly what its steps tell: a kind is the last one published if and
      only if the steps tell it. */
  lemma FinalKindIsTold(run: RunId, generation: nat, maxChunk: nat, steps: seq<Step>, k: Kind)
    requires Runs(Spawned(run, generation, maxChunk), steps)
    requires After(Spawned(run, generation, maxChunk), steps).reader.Finished?
    ensures var t := After(Spawned(run, generation, maxChunk), steps).Stream();
            t != [] && (t[|t| - 1].kind == k <==> Tells(steps, k))
  {
    hide Tells, Runs, After;
    RunsAreTold(run, generation, maxChunk, steps);
    var t := After(Spawned(run, generation, maxChunk), steps).Stream();
    if Tells(steps, k) {
      TellsOne(steps, k, t[|t| - 1].kind);
    }
  }

  /** An exit code that was seen is told as it is, cancelled or not. */
  lemma SeenCodeIsTold(run: RunId, generation: nat, maxChunk: nat, steps: seq<Step>, code: int)
    requires Runs(Spawned(run, generation, maxChunk), steps)
    requires After(Spawned(run, generation, maxChunk), steps).reader.Finished?
    requires LastWait(steps) == Some(StatusSeen) && ExitOf(steps) == Some(Exited(code))
    ensures var t := After(Spawned(run, generation, maxChunk), steps).Stream();
            t != [] && t[|t| - 1].kind == if code == 0 then KnownSuccess else KnownFailure
  {
    hide Runs, After;
    RunsAreTold(run, generation, maxChunk, steps);
    var k := if code == 0 then KnownSuccess else KnownFailure;
    FinalKindIsTold(run, generation, maxChunk, steps, k);
  }

  // ---------- when a chunk is dropped ----------

  /** A push drops its chunk exactly if a cancel was asked for and the queue has 256 entries or would hold more
      than 262144 bytes of output; it publishes the chunk exactly if neither limit stands in the way. */
  lemma PushDropsIff(h: Host)
    requires Enabled(h, PushChunk) && Good(h)
    ensures var full := |h.items| >= 256 || QueuedBytes(h.items) + |h.reader.chunk| > 262144;
            && (full ==> h.shutdown && Take(h, PushChunk).dropped == Some(h.reader.chunk)
                         && Take(h, PushChunk).Stream() == h.Stream())
            && (!full ==> Take(h, PushChunk).dropped == h.dropped
                          && Take(h, PushChunk).Stream() == h.Stream() + [Observation(h, Output(h.reader.chunk))])
  {
    StreamStep(h, PushChunk);
    assert h.Stream() + [] == h.Stream();
  }
}

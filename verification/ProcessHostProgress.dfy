/** Progress of the process host: when backpressure can always be released, and how soon a
    cancelled reader finishes. */
module ProcessHostProgress {
  import opened Basics
  import opened Observations
  import opened ProcessHost

  // ---------- backpressure ----------

  /** Draining unblocks the pending push of this state. */
  predicate DrainUnblocks(h: Host) {
    h.reader.Pushing? && !h.shutdown ==> Enabled(Take(h, Drain), PushChunk)
  }

  ghost predicate ChunksFit(h: Host) {
    h.reader.Pushing? ==> |h.reader.chunk| <= h.maxChunk
  }

  lemma {:induction false} RunsFit(h: Host, steps: seq<Step>)
    requires ChunksFit(h) && Runs(h, steps)
    ensures ChunksFit(After(h, steps)) && After(h, steps).maxChunk == h.maxChunk
  {
    if steps != [] {
      RunsFit(h, steps[..|steps| - 1]);
    }
  }

  /** A reader that read a chunk larger than the whole byte budget stays blocked on it, however
      often the buffer is drained, until someone cancels. */
  lemma {:induction false} OversizedChunkSticks(h: Host, steps: seq<Step>)
    requires h.reader.Pushing? && |h.reader.chunk| > MAX_QUEUED_OUTPUT_BYTES && !h.shutdown
    requires Runs(h, steps) && forall i | 0 <= i < |steps| :: !steps[i].Cancel?
    ensures After(h, steps).reader == h.reader && !After(h, steps).shutdown
  {
    if steps != [] {
      OversizedChunkSticks(h, steps[..|steps| - 1]);
    }
  }

  lemma FirstRead(h: Host, chunk: seq<Byte>)
    requires h.reader.LoopTop? && !h.shutdown && 0 < |chunk| <= h.maxChunk
    ensures Runs(h, [CheckShutdown, ReadChunk(chunk)])
    ensures After(h, [CheckShutdown, ReadChunk(chunk)]).reader == Pushing(chunk)
    ensures !After(h, [CheckShutdown, ReadChunk(chunk)]).shutdown
  {
    var steps := [CheckShutdown, ReadChunk(chunk)];
    assert steps[..1] == [CheckShutdown] && steps[..1][..0] == [];
    assert Runs(h, []) && Runs(h, steps[..1]);
  }

  /** Every drain releases every pending push, in every reachable state, exactly when the
      configured chunk size fits the byte budget. */
  lemma DrainAlwaysUnblocksIff(run: RunId, generation: nat, maxChunk: nat)
    requires maxChunk > 0
    ensures (forall steps | Runs(Spawned(run, generation, maxChunk), steps) ::
               DrainUnblocks(After(Spawned(run, generation, maxChunk), steps)))
            <==> maxChunk <= MAX_QUEUED_OUTPUT_BYTES
  {
    var h := Spawned(run, generation, maxChunk);
    if maxChunk <= MAX_QUEUED_OUTPUT_BYTES {
      forall steps | Runs(h, steps)
        ensures DrainUnblocks(After(h, steps))
      {
        RunsFit(h, steps);
      }
    } else {
      var chunk: seq<Byte> := seq(maxChunk, _ => 0);
      FirstRead(h, chunk);
      assert !DrainUnblocks(After(h, [CheckShutdown, ReadChunk(chunk)]));
    }
  }

  // ---------- cancellation ----------

  /** How many reader steps can still follow once shutdown is set. */
  function Remaining(r: Reader): nat {
    match r
    case Reading => 6
    case Pushing(_) => 5
    case LoopTop => 4
    case ShutdownWait(killed) => if killed then 2 else 3
    case EndSeen(_) => 3
    case EofWait(_) => 2
    case ErrorWait => 2
    case Publishing(_) => 1
    case Finished => 0
  }

  lemma CancelledStep(h: Host, step: Step)
    requires h.shutdown && Enabled(h, step)
    ensures Take(h, step).shutdown
    ensures ReaderStep(step) ==> Remaining(Take(h, step).reader) < Remaining(h.reader)
    ensures !ReaderStep(step) ==> Take(h, step).reader == h.reader
  {
  }

  function ReaderSteps(steps: seq<Step>): nat {
    if steps == [] then 0
    else ReaderSteps(steps[..|steps| - 1]) + if ReaderStep(steps[|steps| - 1]) then 1 else 0
  }

  /** After a cancel the reader takes at most six more steps in any interleaving, and unless it
      is inside the pipe read it always has one it can take until it has finished. */
  lemma {:induction false} CancelledReaderFinishes(h: Host, steps: seq<Step>)
    requires h.shutdown && Runs(h, steps)
    ensures var h' := After(h, steps);
            && h'.shutdown
            && ReaderSteps(steps) + Remaining(h'.reader) <= Remaining(h.reader) <= 6
            && (h'.reader.Finished? || h'.reader.Reading? || exists step :: ReaderStep(step) && Enabled(h', step))
  {
    if steps != [] {
      CancelledReaderFinishes(h, steps[..|steps| - 1]);
      CancelledStep(After(h, steps[..|steps| - 1]), steps[|steps| - 1]);
    }
    CancelledReaderCanStep(After(h, steps));
  }

  lemma CancelledReaderCanStep(h: Host)
    requires h.shutdown
    ensures h.reader.Finished? || h.reader.Reading? || exists step :: ReaderStep(step) && Enabled(h, step)
  {
    var step := match h.reader
      case LoopTop => CheckShutdown
      case Reading => CheckShutdown
      case Pushing(_) => PushChunk
      case EndSeen(_) => CheckCancelled
      case Publishing(_) => Publish
      case _ => Wait(GraceExpired);
    if !h.reader.Finished? && !h.reader.Reading? {
      assert ReaderStep(step) && Enabled(h, step);
    }
  }
}

/** The standalone process host as a machine of interleaved atomic steps: a reader thread
    that turns child output into numbered observations, a drainer, a canceller and the
    child itself. The buffer between reader and drainer is bounded. */
module ProcessHost {
  import opened Basics
  import opened Observations

  const MAX_QUEUED_OBSERVATIONS: nat := 256
  const MAX_QUEUED_OUTPUT_BYTES: nat := 262144

  datatype ExitStatus = Exited(code: int) | Signalled

  datatype ExitKind = Completed | Failed | Crashed | Unknown

  /** Unsolicited signal death is a crash; any exit code is a known end. */
  function ClassifyExit(status: ExitStatus): ExitKind {
    if status == Exited(0) then Completed else if status.Exited? then Failed else Crashed
  }

  /** What one bounded wait for the child's exit returns. */
  datatype WaitResult = StatusSeen | WaitFailed | GraceExpired

  /** The reader's resolution of an ended stream; a cancelled run never reports a crash. */
  function ResolveExit(cancelled: bool, result: WaitResult, child: Option<ExitStatus>): Option<ExitKind> {
    if result.GraceExpired? then None
    else
      var kind := if result.StatusSeen? && child.Some? then ClassifyExit(child.value) else Unknown;
      Some(if cancelled && (kind.Crashed? || kind.Unknown?) then Failed else kind)
  }

  function TerminalKind(kind: ExitKind): Kind {
    match kind
    case Completed => KnownSuccess
    case Failed => KnownFailure
    case Crashed => HarnessCrashed
    case Unknown => UnknownLiveness
  }

  predicate IsFinal(k: Kind) {
    k.KnownSuccess? || k.KnownFailure? || k.HarnessCrashed? || k.UnknownLiveness? || k.ObservationDisconnected?
  }

  // ---------- the bounded buffer ----------

  function OutputLength(k: Kind): nat {
    if k.Output? then |k.bytes| else 0
  }

  predicate HasRoom(items: seq<HostObservation>, outputBytes: nat, add: nat) {
    |items| < MAX_QUEUED_OBSERVATIONS && outputBytes + add <= MAX_QUEUED_OUTPUT_BYTES
  }

  datatype PushOutcome = Pushed | Dropped | MustWait

  function PushVerdict(
      items: seq<HostObservation>, outputBytes: nat, k: Kind, shutdown: bool, bypass: bool): PushOutcome
  {
    if bypass || IsFinal(k) || HasRoom(items, outputBytes, OutputLength(k)) then Pushed
    else if shutdown then Dropped
    else MustWait
  }

  function QueuedBytes(items: seq<HostObservation>): nat {
    if items == [] then 0
    else QueuedBytes(items[..|items| - 1]) + OutputLength(items[|items| - 1].kind)
  }

  class ObservationBuffer {
    var items: seq<HostObservation>
    var outputBytes: nat

    ghost predicate Valid()
      reads this
    {
      outputBytes == QueuedBytes(items)
    }

    constructor ()
      ensures Valid() && items == []
    {
      items, outputBytes := [], 0;
    }

    /** One pass of the push loop under the buffer lock; `MustWait` releases the lock and waits. */
    method PushObservation(o: HostObservation, shutdown: bool, bypass: bool) returns (outcome: PushOutcome)
      requires Valid()
      modifies this
      ensures Valid()
      ensures outcome == PushVerdict(old(items), QueuedBytes(old(items)), o.kind, shutdown, bypass)
      ensures items == if outcome.Pushed? then old(items) + [o] else old(items)
    {
      var add := OutputLength(o.kind);
      if !bypass && !IsFinal(o.kind) {
        if |items| >= MAX_QUEUED_OBSERVATIONS || outputBytes + add > MAX_QUEUED_OUTPUT_BYTES {
          return if shutdown then Dropped else MustWait;
        }
      }
      assert (items + [o])[..|items|] == items;
      outputBytes := outputBytes + add;
      items := items + [o];
      outcome := Pushed;
    }

    method Drain() returns (drained: seq<HostObservation>)
      requires Valid()
      modifies this
      ensures Valid() && items == [] && drained == old(items)
    {
      drained := items;
      items, outputBytes := [], 0;
    }
  }

  // ---------- the machine ----------

  datatype Reader =
    | LoopTop
    | Reading
    | Pushing(chunk: seq<Byte>)
    | ShutdownWait(killed: bool)
    | EndSeen(failed: bool)
    | EofWait(cancelled: bool)
    | ErrorWait
    | Publishing(kind: Kind)
    | Finished

  /** The machine's state, with the history a claim about whole runs needs: everything
      drained so far, every byte read, and the chunk dropped, if any. */
  datatype Host = Host(
    run: RunId,
    generation: nat,
    maxChunk: nat,
    items: seq<HostObservation>,
    outputBytes: nat,
    shutdown: bool,
    reader: Reader,
    nextOrdinal: nat,
    child: Option<ExitStatus>,
    drained: seq<HostObservation>,
    bytesRead: seq<Byte>,
    dropped: Option<seq<Byte>>)
  {
    /** Everything published so far, in order. */
    function Stream(): seq<HostObservation> {
      drained + items
    }
  }

  function Spawned(run: RunId, generation: nat, maxChunk: nat): Host {
    Host(run, generation, maxChunk, [HostObservation(run, generation, 1, Started)], 0, false, LoopTop, 2,
         None, [], [], None)
  }

  datatype Step =
    | CheckShutdown
    | ReadChunk(chunk: seq<Byte>)
    | ReadEnd(failed: bool)
    | PushChunk
    | CheckCancelled
    | Wait(result: WaitResult)
    | Publish
    | Drain
    | Cancel
    | ChildExit(status: ExitStatus)

  predicate ReaderStep(step: Step) {
    !step.Drain? && !step.Cancel? && !step.ChildExit?
  }

  predicate Enabled(h: Host, step: Step) {
    match step
    case CheckShutdown => h.reader.LoopTop?
    case ReadChunk(chunk) => h.reader.Reading? && 0 < |chunk| <= h.maxChunk
    case ReadEnd(_) => h.reader.Reading?
    case PushChunk =>
      h.reader.Pushing? &&
      !PushVerdict(h.items, h.outputBytes, Output(h.reader.chunk), h.shutdown, false).MustWait?
    case CheckCancelled => h.reader.EndSeen?
    case Wait(result) =>
      (h.reader.ShutdownWait? || h.reader.EofWait? || h.reader.ErrorWait?) && (result.StatusSeen? ==> h.child.Some?)
    case Publish => h.reader.Publishing?
    case Drain => true
    case Cancel => true
    case ChildExit(_) => h.child.None?
  }

  function Observation(h: Host, k: Kind): HostObservation {
    HostObservation(h.run, h.generation, h.nextOrdinal, k)
  }

  function Queue(h: Host, k: Kind, next: Reader): Host {
    h.(items := h.items + [Observation(h, k)], outputBytes := h.outputBytes + OutputLength(k),
       nextOrdinal := SaturatingSucc(h.nextOrdinal), reader := next)
  }

  /** Where the reader goes once the bounded wait answered. */
  function Resolved(h: Host, result: WaitResult): Reader
    requires h.reader.ShutdownWait? || h.reader.EofWait? || h.reader.ErrorWait?
  {
    var cancelled := !h.reader.EofWait? || h.reader.cancelled;
    match ResolveExit(cancelled, result, h.child)
    case Some(kind) => Publishing(TerminalKind(kind))
    case None =>
      if h.reader.EofWait? then Publishing(ObservationDisconnected)
      else if h.reader.ShutdownWait? && !h.reader.killed then ShutdownWait(true)
      else Publishing(KnownFailure)
  }

  function Take(h: Host, step: Step): Host
    requires Enabled(h, step)
  {
    match step
    case CheckShutdown => h.(reader := if h.shutdown then ShutdownWait(false) else Reading)
    case ReadChunk(chunk) => h.(reader := Pushing(chunk), bytesRead := h.bytesRead + chunk)
    case ReadEnd(failed) => h.(reader := EndSeen(failed))
    case PushChunk =>
      if PushVerdict(h.items, h.outputBytes, Output(h.reader.chunk), h.shutdown, false).Pushed? then
        Queue(h, Output(h.reader.chunk), LoopTop)
      else
        h.(nextOrdinal := SaturatingSucc(h.nextOrdinal), reader := LoopTop, dropped := Some(h.reader.chunk))
    case CheckCancelled =>
      h.(reader := if !h.reader.failed then EofWait(h.shutdown)
                   else if h.shutdown then ErrorWait
                   else Publishing(ObservationDisconnected))
    case Wait(result) => h.(reader := Resolved(h, result))
    case Publish => Queue(h, h.reader.kind, Finished)
    case Drain => h.(items := [], outputBytes := 0, drained := h.drained + h.items)
    case Cancel => h.(shutdown := true)
    case ChildExit(status) => h.(child := Some(status))
  }

  /** `steps` is an interleaving the machine can take from `h`. */
  ghost predicate Runs(h: Host, steps: seq<Step>)
    decreases |steps|, 0
  {
    steps == [] || (Runs(h, steps[..|steps| - 1]) && Enabled(After(h, steps[..|steps| - 1]), steps[|steps| - 1]))
  }

  ghost function After(h: Host, steps: seq<Step>): Host
    requires Runs(h, steps)
    decreases |steps|, 1
  {
    if steps == [] then h else Take(After(h, steps[..|steps| - 1]), steps[|steps| - 1])
  }
}

/** What every interleaving of the process host keeps: the shape of the published stream,
    conservation of the bytes read, the buffer bounds, and the evidence behind a terminal. */
module ProcessHostRuns {
  import opened Basics
  import opened Observations
  import opened ProcessHost

  /** What a step publishes. */
  function Published(h: Host, step: Step): seq<HostObservation>
    requires Enabled(h, step)
  {
    match step
    case PushChunk =>
      if PushVerdict(h.items, h.outputBytes, Output(h.reader.chunk), h.shutdown, false).Pushed?
      then [Observation(h, Output(h.reader.chunk))] else []
    case Publish => [Observation(h, h.reader.kind)]
    case _ => []
  }

  lemma StreamStep(h: Host, step: Step)
    requires Enabled(h, step)
    ensures Take(h, step).Stream() == h.Stream() + Published(h, step)
  {
    var h' := Take(h, step);
    if step.Drain? {
      assert h'.Stream() == h.Stream();
    } else {
      assert h'.items == h.items + Published(h, step);
    }
  }

  // ---------- shape of the stream ----------

  function Clamp(n: nat): nat {
    if n <= U64_MAX then n else U64_MAX
  }

  function Gap(h: Host): nat {
    if h.dropped.Some? then 1 else 0
  }

  /** Started first, then outputs at consecutive ordinals, then at most one final observation;
      a dropped chunk leaves one gap, just before that final observation. */
  ghost predicate Shaped(h: Host) {
    var s := h.Stream();
    var body := if h.reader.Finished? then |s| - 1 else |s|;
    && 1 <= body
    && (forall i | 0 <= i < |s| :: s[i].runId == h.run && s[i].generation == h.generation)
    && s[0].kind == Started
    && (forall i | 1 <= i < body :: s[i].kind.Output? && 0 < |s[i].kind.bytes| <= h.maxChunk)
    && (forall i | 0 <= i < body :: s[i].ordinal == Clamp(i + 1))
    && (h.reader.Finished? ==> IsFinal(s[body].kind) && s[body].ordinal == Clamp(body + 1 + Gap(h)))
    && h.nextOrdinal == Clamp(|s| + 1 + Gap(h))
  }

  /** Control facts: a drop happens only under shutdown and ends the reading. */
  ghost predicate Controlled(h: Host) {
    && (h.dropped.Some? ==>
          h.shutdown && (h.reader.LoopTop? || h.reader.ShutdownWait? || h.reader.Publishing? || h.reader.Finished?))
    && (h.reader.Pushing? ==> 0 < |h.reader.chunk| <= h.maxChunk)
    && (h.reader.Publishing? ==> IsFinal(h.reader.kind))
    && (h.reader.ShutdownWait? || h.reader.ErrorWait? || (h.reader.EofWait? && h.reader.cancelled) ==> h.shutdown)
  }

  lemma ControlledStep(h: Host, step: Step)
    requires Controlled(h) && Enabled(h, step)
    ensures Controlled(Take(h, step))
  {
  }

  lemma QuietShaped(h: Host, h': Host)
    requires Shaped(h) && h'.Stream() == h.Stream()
    requires h'.(items := h.items, drained := h.drained, outputBytes := h.outputBytes, shutdown := h.shutdown,
                 child := h.child, bytesRead := h.bytesRead, reader := h.reader) == h
    requires h'.reader.Finished? == h.reader.Finished?
    ensures Shaped(h')
  {
  }

  lemma DropShaped(h: Host, h': Host)
    requires Shaped(h) && !h.reader.Finished? && h.dropped.None? && h'.Stream() == h.Stream() && h'.dropped.Some?
    requires h' == h.(nextOrdinal := SaturatingSucc(h.nextOrdinal), reader := LoopTop, dropped := h'.dropped)
    ensures Shaped(h')
  {
  }

  lemma PublishShaped(h: Host, h': Host, k: Kind)
    requires Shaped(h) && !h.reader.Finished? && h'.Stream() == h.Stream() + [Observation(h, k)]
    requires h'.run == h.run && h'.generation == h.generation && h'.maxChunk == h.maxChunk
    requires h'.nextOrdinal == SaturatingSucc(h.nextOrdinal) && h'.dropped == h.dropped
    requires if h'.reader.Finished? then IsFinal(k) else k.Output? && 0 < |k.bytes| <= h.maxChunk && h.dropped.None?
    ensures Shaped(h')
  {
    var s, s' := h.Stream(), h'.Stream();
    assert forall i | 0 <= i < |s| :: s'[i] == s[i];
  }

  lemma ShapedStep(h: Host, step: Step)
    requires Controlled(h) && Shaped(h) && Enabled(h, step)
    ensures Shaped(Take(h, step))
  {
    StreamStep(h, step);
    var h' := Take(h, step);
    if Published(h, step) != [] {
      PublishShaped(h, h', if step.PushChunk? then Output(h.reader.chunk) else h.reader.kind);
    } else {
      assert h'.Stream() == h.Stream() + [] == h.Stream();
      if step.PushChunk? {
        DropShaped(h, h');
      } else {
        QuietShaped(h, h');
      }
    }
  }

  // ---------- conservation of bytes ----------

  function Payload(s: seq<HostObservation>): seq<Byte> {
    if s == [] then []
    else Payload(s[..|s| - 1]) + if s[|s| - 1].kind.Output? then s[|s| - 1].kind.bytes else []
  }

  function Unpublished(h: Host): seq<Byte> {
    (if h.reader.Pushing? then h.reader.chunk else []) + if h.dropped.Some? then h.dropped.value else []
  }

  /** Every byte read is published in order, still being pushed, or in the one dropped chunk. */
  ghost predicate Conserved(h: Host) {
    h.bytesRead == Payload(h.Stream()) + Unpublished(h)
  }

  lemma PayloadAppend(s: seq<HostObservation>, o: HostObservation)
    ensures Payload(s + [o]) == Payload(s) + if o.kind.Output? then o.kind.bytes else []
  {
    assert (s + [o])[..|s|] == s;
  }

  function Added(step: Step): seq<Byte> {
    if step.ReadChunk? then step.chunk else []
  }

  function Moved(h: Host, step: Step): seq<Byte>
    requires Enabled(h, step)
  {
    if step.PushChunk? && Published(h, step) != [] then h.reader.chunk else []
  }

  /** Reading adds to what is unpublished; pushing moves its front into the stream. */
  lemma UnpublishedStep(h: Host, step: Step)
    requires Controlled(h) && Enabled(h, step)
    ensures Take(h, step).bytesRead == h.bytesRead + Added(step)
    ensures Unpublished(h) + Added(step) == Moved(h, step) + Unpublished(Take(h, step))
  {
  }

  lemma PayloadStep(h: Host, step: Step)
    requires Controlled(h) && Enabled(h, step)
    ensures Payload(Take(h, step).Stream()) == Payload(h.Stream()) + Moved(h, step)
  {
    StreamStep(h, step);
    if step.PushChunk? && Published(h, step) != [] {
      PayloadAppend(h.Stream(), Observation(h, Output(h.reader.chunk)));
    } else if step.Publish? {
      PayloadAppend(h.Stream(), Observation(h, h.reader.kind));
    } else {
      assert h.Stream() + [] == h.Stream();
    }
  }

  lemma MoveConserves(
      read: seq<Byte>, sent: seq<Byte>, rest: seq<Byte>, added: seq<Byte>, moved: seq<Byte>, rest': seq<Byte>)
    requires read == sent + rest && rest + added == moved + rest'
    ensures read + added == (sent + moved) + rest'
  {
    calc {
      (sent + rest) + added;
      sent + (rest + added);
      sent + (moved + rest');
      (sent + moved) + rest';
    }
  }

  lemma ConservedStep(h: Host, step: Step)
    requires Controlled(h) && Conserved(h) && Enabled(h, step)
    ensures Conserved(Take(h, step))
  {
    UnpublishedStep(h, step);
    PayloadStep(h, step);
    MoveConserves(h.bytesRead, Payload(h.Stream()), Unpublished(h), Added(step), Moved(h, step),
                  Unpublished(Take(h, step)));
  }

  // ---------- buffer bounds ----------

  /** The byte count is exact, and both limits hold; only the final observation may exceed the entry limit. */
  ghost predicate Bounded(h: Host) {
    && h.outputBytes == QueuedBytes(h.items)
    && h.outputBytes <= MAX_QUEUED_OUTPUT_BYTES
    && |h.items| <= MAX_QUEUED_OBSERVATIONS + if h.reader.Finished? then 1 else 0
  }

  lemma BoundedStep(h: Host, step: Step)
    requires Controlled(h) && Bounded(h) && Enabled(h, step)
    ensures Bounded(Take(h, step))
  {
    if Published(h, step) != [] {
      var items' := h.items + Published(h, step);
      assert items'[..|items'| - 1] == h.items;
    }
  }

  // ---------- evidence ----------

  /** What must have happened for a final observation of kind `k` to be published. */
  predicate Justified(h: Host, k: Kind) {
    match k
    case KnownSuccess => h.child == Some(Exited(0))
    case KnownFailure => h.shutdown || (h.child.Some? && h.child.value.Exited? && h.child.value.code != 0)
    case HarnessCrashed => h.child == Some(Signalled)
    case _ => true
  }

  ghost predicate Evident(h: Host) {
    && (h.reader.Publishing? ==> Justified(h, h.reader.kind))
    && (forall i | 0 <= i < |h.Stream()| :: Justified(h, h.Stream()[i].kind))
  }

  lemma JustifiedStays(h: Host, step: Step, k: Kind)
    requires Enabled(h, step) && Justified(h, k)
    ensures Justified(Take(h, step), k)
  {
  }

  lemma ResolvedIsJustified(h: Host, result: WaitResult)
    requires Controlled(h) && Enabled(h, Wait(result))
    ensures Resolved(h, result).Publishing? ==> Justified(h, Resolved(h, result).kind)
  {
  }

  lemma EvidentStep(h: Host, step: Step)
    requires Controlled(h) && Evident(h) && Enabled(h, step)
    ensures Evident(Take(h, step))
  {
    StreamStep(h, step);
    var h' := Take(h, step);
    forall i | 0 <= i < |h'.Stream()|
      ensures Justified(h', h'.Stream()[i].kind)
    {
      if i < |h.Stream()| {
        assert h'.Stream()[i] == h.Stream()[i];
        JustifiedStays(h, step, h.Stream()[i].kind);
      } else {
        assert h'.Stream()[i] == Published(h, step)[0];
      }
    }
    if step.Wait? {
      ResolvedIsJustified(h, step.result);
    }
    if h.reader.Publishing? {
      JustifiedStays(h, step, h.reader.kind);
    }
  }

  predicate KnownEnd(k: Kind) {
    k.KnownSuccess? || k.KnownFailure?
  }

  /** A dropped chunk is always followed by a known end, never by a crash or a disconnect. */
  ghost predicate DropEndsKnown(h: Host) {
    h.dropped.Some? ==>
      && (h.reader.Publishing? ==> KnownEnd(h.reader.kind))
      && (h.reader.Finished? ==> h.Stream() != [] && KnownEnd(h.Stream()[|h.Stream()| - 1].kind))
  }

  lemma DropEndsKnownStep(h: Host, step: Step)
    requires Controlled(h) && DropEndsKnown(h) && Enabled(h, step)
    ensures DropEndsKnown(Take(h, step))
  {
    StreamStep(h, step);
    if h.reader.Finished? {
      assert h.Stream() + [] == h.Stream();
    }
  }

  // ---------- every reachable state ----------

  ghost predicate Good(h: Host) {
    Controlled(h) && Shaped(h) && Conserved(h) && Bounded(h) && Evident(h) && DropEndsKnown(h)
  }

  lemma GoodStep(h: Host, step: Step)
    requires Good(h) && Enabled(h, step)
    ensures Good(Take(h, step))
    ensures h.Stream() <= Take(h, step).Stream()
  {
    StreamStep(h, step);
    ControlledStep(h, step);
    ShapedStep(h, step);
    ConservedStep(h, step);
    BoundedStep(h, step);
    EvidentStep(h, step);
    DropEndsKnownStep(h, step);
  }

  lemma SpawnedIsGood(run: RunId, generation: nat, maxChunk: nat)
    ensures Good(Spawned(run, generation, maxChunk))
  {
    var h := Spawned(run, generation, maxChunk);
    assert h.Stream() == h.items;
    PayloadAppend([], h.items[0]);
    assert [] + h.items == h.items;
    assert h.items[..0] == [];
  }

  /** Stream shape, conservation, bounds and evidence hold after every interleaving. */
  lemma {:induction false} ReachableIsGood(run: RunId, generation: nat, maxChunk: nat, steps: seq<Step>)
    requires Runs(Spawned(run, generation, maxChunk), steps)
    ensures Good(After(Spawned(run, generation, maxChunk), steps))
  {
    var h0 := Spawned(run, generation, maxChunk);
    if steps == [] {
      SpawnedIsGood(run, generation, maxChunk);
    } else {
      var before, step := steps[..|steps| - 1], steps[|steps| - 1];
      ReachableIsGood(run, generation, maxChunk, before);
      GoodStep(After(h0, before), step);
    }
  }
}

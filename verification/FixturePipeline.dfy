/** Scripts end to end: what the fixture host plays, a fresh authority accepts completely. */
module FixturePipeline {
  import opened Basics
  import opened Observations
  import opened Authority
  import opened AuthorityRuns
  import opened DeliveryConvergence
  import opened Pipeline
  import opened Scripts
  import opened FixtureHost

  /** The authority holds exactly `kinds` for the run, on top of what it held in `s`. */
  ghost predicate Holds(s: State, t: State, run: RunId, generation: nat, kinds: seq<Kind>) {
    && Inv(t) && t.domain == s.domain
    && NextExpected(t.nextOrdinal, run) == |kinds| + 1
    && (forall i | 0 <= i < |kinds| :: (run, i + 1) in t.applied && t.applied[(run, i + 1)] == kinds[i])
    && |t.applied| == |s.applied| + |kinds|
  }

  lemma NewIsAccepted(s: State, t: State, run: RunId, generation: nat, kinds: seq<Kind>, k: Kind)
    requires Holds(s, t, run, generation, kinds) && run in s.domain && s.domain[run] == generation
    requires |kinds| + 1 < U64_MAX
    ensures var o := HostObservation(run, generation, |kinds| + 1, k);
            Judge(t, o).Accept? && Holds(s, Deliver(t, o), run, generation, kinds + [k])
  {
    var o := HostObservation(run, generation, |kinds| + 1, k);
    assert (run, |kinds| + 1) !in t.applied;
    AcceptedKeepsInv(t, o);
    AcceptedCounts(t, o);
  }

  lemma RepeatIsReplay(s: State, t: State, run: RunId, generation: nat, kinds: seq<Kind>)
    requires Holds(s, t, run, generation, kinds) && run in s.domain && s.domain[run] == generation && kinds != []
    ensures Judge(t, HostObservation(run, generation, |kinds|, kinds[|kinds| - 1])).Replay?
  {
    assert (run, |kinds| - 1 + 1) in t.applied;
  }

  /** The authority took the whole stream and holds exactly `kinds` for the run. */
  ghost predicate TakenInFull(s: State, run: RunId, generation: nat, stream: seq<HostObservation>, kinds: seq<Kind>) {
    AllOk(Answers(s, stream)) && Holds(s, DeliverAll(s, stream), run, generation, kinds)
  }

  /** A numbered stream is accepted completely; its repeats are acknowledged and change nothing. */
  lemma {:induction false} NumberedIsAccepted(
      s: State, run: RunId, generation: nat, stream: seq<HostObservation>, kinds: seq<Kind>)
    requires Ready(s, run, generation) && Numbered(stream, run, generation, kinds) && |kinds| < U64_MAX
    ensures TakenInFull(s, run, generation, stream, kinds)
  {
    hide Deliver, Judge, Inv;
    if stream != [] {
      var before, o := stream[..|stream| - 1], stream[|stream| - 1];
      var t := DeliverAll(s, before);
      var less := kinds[..|kinds| - 1];
      if Numbered(before, run, generation, less) {
        NumberedIsAccepted(s, run, generation, before, less);
        NewIsAccepted(s, t, run, generation, less, kinds[|kinds| - 1]);
        assert less + [kinds[|kinds| - 1]] == kinds;
      } else {
        NumberedIsAccepted(s, run, generation, before, kinds);
        RepeatIsReplay(s, t, run, generation, kinds);
        ReplayStays(t, o);
      }
    }
  }

  lemma ReplayStays(t: State, o: HostObservation)
    requires Judge(t, o).Replay?
    ensures Deliver(t, o) == t
  {
  }

  const MAX_STEP_KINDS: nat := 4096

  lemma StepKindsBound(step: ScriptStep, max: nat)
    requires max > 0 && Parsable(step)
    ensures |StepKinds(step, max)| <= MAX_STEP_KINDS
  {
    if step.Emit? && step.kind.Output? {
      ChunksCover(step.kind.bytes, max);
    }
  }

  lemma {:induction false} ParsedKindsBound(script: seq<ScriptStep>, max: nat)
    requires max > 0 && forall i | 0 <= i < |script| :: Parsable(script[i])
    ensures |ScriptKinds(script, max)| <= MAX_STEP_KINDS * |script|
  {
    hide StepKinds, Parsable;
    if script != [] {
      ParsedKindsBound(script[..|script| - 1], max);
      StepKindsBound(script[|script| - 1], max);
    }
  }

  lemma CancelIsAccepted(s: State, run: RunId, generation: nat, stream: seq<HostObservation>, kinds: seq<Kind>)
    requires Ready(s, run, generation) && TakenInFull(s, run, generation, stream, kinds) && |kinds| + 1 < U64_MAX
    ensures var cancelled := stream + [HostObservation(run, generation, |kinds| + 1, KnownFailure)];
            && TakenInFull(s, run, generation, cancelled, kinds + [KnownFailure])
            && LivenessOf(DeliverAll(s, cancelled).liveness, run) == KnownTerminated
  {
    hide Inv, Observe;
    var cancel := HostObservation(run, generation, |kinds| + 1, KnownFailure);
    NewIsAccepted(s, DeliverAll(s, stream), run, generation, kinds, KnownFailure);
    LivenessStep(DeliverAll(s, stream), Delivery(cancel), run);
    assert (stream + [cancel])[..|stream|] == stream;
  }

  /** The evidence of `m` cancels behind a stream whose next ordinal is `next`. */
  function WithCancels(
      stream: seq<HostObservation>, run: RunId, generation: nat, next: nat, m: nat): seq<HostObservation>
  {
    if m == 0 then stream
    else WithCancels(stream, run, generation, next, m - 1)
         + [HostObservation(run, generation, next + m - 1, KnownFailure)]
  }

  function Failures(m: nat): seq<Kind> {
    seq(m, _ => KnownFailure)
  }

  lemma {:induction false} CancelsAreAccepted(
      s: State, run: RunId, generation: nat, stream: seq<HostObservation>, kinds: seq<Kind>, m: nat)
    requires Ready(s, run, generation) && TakenInFull(s, run, generation, stream, kinds) && |kinds| + m < U64_MAX
    ensures var cancelled := WithCancels(stream, run, generation, |kinds| + 1, m);
            && TakenInFull(s, run, generation, cancelled, kinds + Failures(m))
            && (m > 0 ==> LivenessOf(DeliverAll(s, cancelled).liveness, run) == KnownTerminated)
  {
    hide TakenInFull, Ready, DeliverAll;
    if m == 0 {
      assert kinds + Failures(0) == kinds;
    } else {
      CancelsAreAccepted(s, run, generation, stream, kinds, m - 1);
      var before := WithCancels(stream, run, generation, |kinds| + 1, m - 1);
      CancelIsAccepted(s, run, generation, before, kinds + Failures(m - 1));
      assert kinds + Failures(m - 1) + [KnownFailure] == kinds + Failures(m);
    }
  }

  /** Every parsed script the host can play is accepted by a ready authority in full: the applied
      entries are exactly the script's kinds in order. The evidence of any number of cancels appended by
      the host is accepted too, and one leaves the run terminated. */
  lemma ParsedScriptEndToEnd(s: State, p: Player, script: seq<ScriptStep>, m: nat)
    requires Ready(s, p.run, p.generation) && p.max > 0
    requires |script| <= MAX_LINES && forall i | 0 <= i < |script| :: Parsable(script[i])
    requires Play(p, script).Done? && MAX_STEP_KINDS * MAX_LINES + m < U64_MAX
    ensures var stream, kinds := Play(p, script).value.observations, ScriptKinds(script, p.max);
            var cancelled := WithCancels(stream, p.run, p.generation, NextAfter(stream), m);
            && TakenInFull(s, p.run, p.generation, stream, kinds)
            && TakenInFull(s, p.run, p.generation, cancelled, kinds + Failures(m))
            && (m > 0 ==> LivenessOf(DeliverAll(s, cancelled).liveness, p.run) == KnownTerminated)
  {
    var stream, kinds := Play(p, script).value.observations, ScriptKinds(script, p.max);
    PlainPlayCarries(p, script);
    ParsedKindsBound(script, p.max);
    hide Play, ScriptKinds, Ready, DeliverAll, TakenInFull;
    assert NextAfter(stream) == |kinds| + 1;
    NumberedIsAccepted(s, p.run, p.generation, stream, kinds);
    CancelsAreAccepted(s, p.run, p.generation, stream, kinds, m);
  }

  // ---------- any state of the fixture host ----------

  predicate Ends(k: Kind) {
    k.KnownSuccess? || k.KnownFailure?
  }

  lemma TerminatedStays(t: State, o: HostObservation, run: RunId)
    requires LivenessOf(t.liveness, run) == KnownTerminated
    ensures LivenessOf(Deliver(t, o).liveness, run) == KnownTerminated
  {
  }

  lemma EndTerminates(t: State, o: HostObservation)
    requires Judge(t, o).Accept? && Ends(o.kind)
    ensures LivenessOf(Deliver(t, o).liveness, o.runId) == KnownTerminated
  {
  }

  lemma {:induction false} EndedIsTerminated(
      s: State, run: RunId, generation: nat, stream: seq<HostObservation>, kinds: seq<Kind>, i: nat)
    requires Ready(s, run, generation) && Numbered(stream, run, generation, kinds) && |kinds| < U64_MAX
    requires i < |kinds| && Ends(kinds[i])
    ensures LivenessOf(DeliverAll(s, stream).liveness, run) == KnownTerminated
  {
    hide Deliver, Judge, Inv, Holds;
    var before, o := stream[..|stream| - 1], stream[|stream| - 1];
    var t := DeliverAll(s, before);
    var less := kinds[..|kinds| - 1];
    if Numbered(before, run, generation, less) {
      if i < |less| {
        EndedIsTerminated(s, run, generation, before, less, i);
        TerminatedStays(t, o, run);
      } else {
        NumberedIsAccepted(s, run, generation, before, less);
        NewIsAccepted(s, t, run, generation, less, kinds[|kinds| - 1]);
        EndTerminates(t, o);
      }
    } else {
      EndedIsTerminated(s, run, generation, before, kinds, i);
      TerminatedStays(t, o, run);
    }
  }

  /** In every state the fixture host can be in, after any starts (also of scripts that fail to play), any
      number of cancels and any drains: what a plain handle has delivered and still holds, taken together,
      is accepted by a ready authority in full, and the run is terminated if it ends anywhere in it. */
  lemma HostStreamIsAccepted(
      nextHandle: nat, live: map<nat, Binding>, pending: Streams, delivered: Streams, kinds: map<nat, seq<Kind>>,
      h: nat, s: State)
    requires Consistent(nextHandle, live, pending, delivered, kinds) && h in kinds && |kinds[h]| < U64_MAX
    requires Ready(s, live[h].run, live[h].generation)
    ensures var stream, run := delivered[h] + pending[h], live[h].run;
            && TakenInFull(s, run, live[h].generation, stream, kinds[h])
            && ((exists i | 0 <= i < |kinds[h]| :: kinds[h][i].KnownSuccess? || kinds[h][i].KnownFailure?)
                ==> LivenessOf(DeliverAll(s, stream).liveness, run) == KnownTerminated)
  {
    hide TakenInFull, Ready, DeliverAll, Numbered;
    var stream, b := delivered[h] + pending[h], live[h];
    assert Continues(stream, b, kinds[h]);
    NumberedIsAccepted(s, b.run, b.generation, stream, kinds[h]);
    if i :| 0 <= i < |kinds[h]| && Ends(kinds[h][i]) {
      EndedIsTerminated(s, b.run, b.generation, stream, kinds[h], i);
    }
  }
}

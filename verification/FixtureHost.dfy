/** The deterministic fixture host: it plays a script into a numbered stream, and a cancel
    appends terminal evidence to whatever the script produced. */
module FixtureHost {
  import opened Basics
  import opened Observations
  import opened Scripts

  // ---------- chunking ----------

  function Chunks(bytes: seq<Byte>, max: nat): seq<seq<Byte>>
    requires max > 0
  {
    if bytes == [] then []
    else if |bytes| <= max then [bytes]
    else [bytes[..max]] + Chunks(bytes[max..], max)
  }

  function Concat(parts: seq<seq<Byte>>): seq<Byte> {
    if parts == [] then [] else parts[0] + Concat(parts[1..])
  }

  /** Chunks are non-empty, within the bound, at most one per byte, and concatenate to the original. */
  lemma {:induction false} ChunksCover(bytes: seq<Byte>, max: nat)
    requires max > 0
    ensures Concat(Chunks(bytes, max)) == bytes
    ensures |Chunks(bytes, max)| <= |bytes|
    ensures forall i | 0 <= i < |Chunks(bytes, max)| :: 0 < |Chunks(bytes, max)[i]| <= max
  {
    var cs := Chunks(bytes, max);
    if |bytes| <= max {
      if bytes != [] {
        assert cs[1..] == [];
        assert Concat(cs[1..]) == [];
      }
    } else {
      var rest := Chunks(bytes[max..], max);
      ChunksCover(bytes[max..], max);
      assert cs[0] == bytes[..max] && cs[1..] == rest;
      assert Concat(cs) == bytes[..max] + bytes[max..];
      forall i | 0 <= i < |cs|
        ensures 0 < |cs[i]| <= max
      {
        if i > 0 {
          assert cs[i] == rest[i - 1];
        }
      }
    }
  }

  // ---------- the stream a script means ----------

  function OutputKinds(chunks: seq<seq<Byte>>): seq<Kind> {
    seq(|chunks|, i requires 0 <= i < |chunks| => Output(chunks[i]))
  }

  /** The new observations one step adds, duplicates aside. */
  function StepKinds(step: ScriptStep, max: nat): seq<Kind>
    requires max > 0
  {
    match step
    case Emit(kind) => if kind.Output? then OutputKinds(Chunks(kind.bytes, max)) else [kind]
    case DelayTicks(ticks) => [Delayed(ticks)]
    case DuplicateLast => []
    case EmitExact(_, _, _) => []
  }

  function ScriptKinds(script: seq<ScriptStep>, max: nat): seq<Kind>
    requires max > 0
  {
    if script == [] then [] else ScriptKinds(script[..|script| - 1], max) + StepKinds(script[|script| - 1], max)
  }

  /** `stream` delivers exactly `kinds` under ordinals 1, 2, ..., each possibly repeated right away. */
  ghost predicate Numbered(stream: seq<HostObservation>, run: RunId, generation: nat, kinds: seq<Kind>) {
    if stream == [] then kinds == []
    else
      var before, o := stream[..|stream| - 1], stream[|stream| - 1];
      && kinds != []
      && o == HostObservation(run, generation, |kinds|, kinds[|kinds| - 1])
      && (Numbered(before, run, generation, kinds[..|kinds| - 1]) ||
          (before != [] && Numbered(before, run, generation, kinds)))
  }

  lemma NumberedNext(stream: seq<HostObservation>, run: RunId, generation: nat, kinds: seq<Kind>, k: Kind)
    requires Numbered(stream, run, generation, kinds)
    ensures Numbered(stream + [HostObservation(run, generation, |kinds| + 1, k)], run, generation, kinds + [k])
  {
    var o := HostObservation(run, generation, |kinds| + 1, k);
    assert (stream + [o])[..|stream|] == stream;
    assert (kinds + [k])[..|kinds|] == kinds;
  }

  lemma NumberedAgain(stream: seq<HostObservation>, run: RunId, generation: nat, kinds: seq<Kind>)
    requires stream != [] && Numbered(stream, run, generation, kinds)
    ensures Numbered(stream + [stream[|stream| - 1]], run, generation, kinds)
  {
    assert (stream + [stream[|stream| - 1]])[..|stream|] == stream;
  }

  // ---------- playing a script ----------

  /** The stream so far and the next ordinal to hand out. */
  datatype Tape = Tape(observations: seq<HostObservation>, next: nat)

  datatype Player = Player(run: RunId, generation: nat, max: nat)

  function Append(p: Player, tape: Tape, kind: Kind): Outcome<Tape> {
    if tape.next >= U64_MAX then Failed(OrdinalExhausted)
    else Done(Tape(tape.observations + [HostObservation(p.run, p.generation, tape.next, kind)], tape.next + 1))
  }

  function AppendAll(p: Player, tape: Tape, kinds: seq<Kind>): Outcome<Tape> {
    if kinds == [] then Done(tape)
    else
      match AppendAll(p, tape, kinds[..|kinds| - 1])
      case Failed(e) => Failed(e)
      case Done(t) => Append(p, t, kinds[|kinds| - 1])
  }

  function PlayStep(p: Player, tape: Tape, step: ScriptStep): Outcome<Tape>
    requires p.max > 0
  {
    match step
    case EmitExact(generation, ordinal, kind) =>
      Done(tape.(observations := tape.observations + [HostObservation(p.run, generation, ordinal, kind)]))
    case DuplicateLast =>
      if tape.observations == [] then Failed(DuplicateWithoutObservation)
      else Done(tape.(observations := tape.observations + [tape.observations[|tape.observations| - 1]]))
    case _ => AppendAll(p, tape, StepKinds(step, p.max))
  }

  function Play(p: Player, script: seq<ScriptStep>): Outcome<Tape>
    requires p.max > 0
  {
    if script == [] then Done(Tape([], 1))
    else
      match Play(p, script[..|script| - 1])
      case Failed(e) => Failed(e)
      case Done(tape) => PlayStep(p, tape, script[|script| - 1])
  }

  /** Plain scripts hold no exact emission; parsed scripts are plain. */
  predicate IsPlain(script: seq<ScriptStep>) {
    forall i | 0 <= i < |script| :: !script[i].EmitExact?
  }

  /** The tape carries exactly `kinds`, numbered, with ordinals left. */
  ghost predicate Carries(p: Player, tape: Tape, kinds: seq<Kind>) {
    Numbered(tape.observations, p.run, p.generation, kinds) && tape.next == |kinds| + 1 <= U64_MAX
  }

  lemma {:induction false} AppendAllCarries(p: Player, tape: Tape, kinds: seq<Kind>, more: seq<Kind>)
    requires Carries(p, tape, kinds)
    ensures match AppendAll(p, tape, more)
            case Done(t) => Carries(p, t, kinds + more)
            case Failed(e) => e == OrdinalExhausted && |kinds + more| >= U64_MAX
  {
    if more == [] {
      assert kinds + more == kinds;
    } else {
      var less, k := more[..|more| - 1], more[|more| - 1];
      AppendAllCarries(p, tape, kinds, less);
      assert kinds + more == (kinds + less) + [k];
      match AppendAll(p, tape, less) {
        case Done(t) => NumberedNext(t.observations, p.run, p.generation, kinds + less, k);
        case Failed(_) =>
      }
    }
  }

  /** Some duplicate comes before anything was emitted. */
  ghost predicate EarlyDuplicate(script: seq<ScriptStep>, max: nat)
    requires max > 0
  {
    exists i | 0 <= i < |script| :: script[i].DuplicateLast? && ScriptKinds(script[..i], max) == []
  }

  lemma EarlyDuplicateStep(script: seq<ScriptStep>, max: nat)
    requires max > 0 && script != []
    ensures var before, step := script[..|script| - 1], script[|script| - 1];
            EarlyDuplicate(script, max) <==>
            EarlyDuplicate(before, max) || (step.DuplicateLast? && ScriptKinds(before, max) == [])
  {
    hide ScriptKinds;
    var before := script[..|script| - 1];
    forall i | 0 <= i < |before| ensures script[..i] == before[..i] {
    }
    if EarlyDuplicate(before, max) {
      var i :| 0 <= i < |before| && before[i].DuplicateLast? && ScriptKinds(before[..i], max) == [];
      assert script[i].DuplicateLast? && script[..i] == before[..i];
    }
    if EarlyDuplicate(script, max) {
      var i :| 0 <= i < |script| && script[i].DuplicateLast? && ScriptKinds(script[..i], max) == [];
      if i < |before| {
        assert before[i].DuplicateLast? && script[..i] == before[..i];
      }
    }
  }

  /** Playing a plain script fails exactly on a duplicate before anything was emitted, and otherwise exactly
      if it would take all ordinals; else it yields exactly the script's kinds, numbered from 1. */
  lemma {:induction false} PlainPlayCarries(p: Player, script: seq<ScriptStep>)
    requires p.max > 0 && IsPlain(script)
    ensures if EarlyDuplicate(script, p.max) then Play(p, script) == Failed(DuplicateWithoutObservation)
            else if |ScriptKinds(script, p.max)| >= U64_MAX then Play(p, script) == Failed(OrdinalExhausted)
            else Play(p, script).Done? && Carries(p, Play(p, script).value, ScriptKinds(script, p.max))
  {
    hide EarlyDuplicate;
    if script == [] {
      NoStepsNoDuplicate(p.max);
    } else {
      var before, step := script[..|script| - 1], script[|script| - 1];
      PlainPlayCarries(p, before);
      EarlyDuplicateStep(script, p.max);
      if Play(p, before).Done? {
        var tape, kinds := Play(p, before).value, ScriptKinds(before, p.max);
        if step.DuplicateLast? {
          assert kinds + [] == kinds;
          if tape.observations != [] {
            NumberedAgain(tape.observations, p.run, p.generation, kinds);
          }
        } else {
          AppendAllCarries(p, tape, kinds, StepKinds(step, p.max));
        }
      }
    }
  }

  lemma NoStepsNoDuplicate(max: nat)
    requires max > 0
    ensures !EarlyDuplicate([], max)
  {
  }

  // ---------- the host ----------

  datatype StartReason = TtyRequired | SpawnFailed

  datatype StartOutcome = HostStarted(handle: nat) | NotStarted(reason: StartReason)

  datatype Binding = Binding(run: RunId, generation: nat, ordinal: nat)

  /** `stream` is numbered and carries `kinds`, and the binding's ordinal is the next one. */
  ghost predicate Continues(stream: seq<HostObservation>, b: Binding, kinds: seq<Kind>) {
    && Numbered(stream, b.run, b.generation, kinds)
    && b.ordinal == SaturatingSucc(|kinds|)
    && |kinds| <= U64_MAX
    && (|kinds| == U64_MAX ==> kinds[U64_MAX - 1] == KnownFailure)
  }

  function NextAfter(observations: seq<HostObservation>): nat {
    if observations == [] then 1 else SaturatingSucc(observations[|observations| - 1].ordinal)
  }

  function PlayedKinds(p: Player, script: seq<ScriptStep>): seq<Kind>
    requires p.max > 0
  {
    if Play(p, script).Done? then ScriptKinds(script, p.max) else []
  }

  lemma StartContinues(p: Player, script: seq<ScriptStep>, observations: seq<HostObservation>)
    requires p.max > 0 && IsPlain(script)
    requires observations == match Play(p, script) case Done(tape) => tape.observations case Failed(_) => []
    ensures Continues(observations, Binding(p.run, p.generation, NextAfter(observations)), PlayedKinds(p, script))
  {
    PlainPlayCarries(p, script);
  }

  /** The kinds once a cancel's terminal evidence was appended. */
  function CancelledKinds(kinds: seq<Kind>): seq<Kind> {
    if |kinds| < U64_MAX then kinds + [KnownFailure] else kinds
  }

  lemma CancelContinues(stream: seq<HostObservation>, b: Binding, kinds: seq<Kind>)
    requires Continues(stream, b, kinds)
    ensures Continues(stream + [HostObservation(b.run, b.generation, b.ordinal, KnownFailure)],
                      b.(ordinal := SaturatingSucc(b.ordinal)), CancelledKinds(kinds))
  {
    if |kinds| < U64_MAX {
      NumberedNext(stream, b.run, b.generation, kinds, KnownFailure);
    } else {
      NumberedAgain(stream, b.run, b.generation, kinds);
    }
  }

  type Streams = map<nat, seq<HostObservation>>

  /** For every live handle with known kinds, delivered and pending together are one numbered
      stream, and the recorded ordinal continues it. */
  ghost predicate Consistent(
      nextHandle: nat, live: map<nat, Binding>, pending: Streams, delivered: Streams, kinds: map<nat, seq<Kind>>)
  {
    && live.Keys == pending.Keys == delivered.Keys && kinds.Keys <= live.Keys
    && (forall h | h in live :: h < nextHandle)
    && (forall h | h in kinds :: Continues(delivered[h] + pending[h], live[h], kinds[h]))
  }

  lemma AdmitConsistent(
      n: nat, live: map<nat, Binding>, pending: Streams, delivered: Streams, kinds: map<nat, seq<Kind>>,
      b: Binding, stream: seq<HostObservation>, ks: seq<Kind>)
    requires Consistent(n, live, pending, delivered, kinds)
    ensures Consistent(n + 1, live[n := b], pending[n := stream], delivered[n := []], kinds)
    ensures Continues(stream, b, ks)
            ==> Consistent(n + 1, live[n := b], pending[n := stream], delivered[n := []], kinds[n := ks])
  {
    hide Continues;
    assert [] + stream == stream;
  }

  lemma CancelConsistent(
      n: nat, live: map<nat, Binding>, pending: Streams, delivered: Streams, kinds: map<nat, seq<Kind>>, h: nat)
    requires Consistent(n, live, pending, delivered, kinds) && h in live
    ensures var b := live[h];
            Consistent(n, live[h := b.(ordinal := SaturatingSucc(b.ordinal))],
                       pending[h := pending[h] + [HostObservation(b.run, b.generation, b.ordinal, KnownFailure)]],
                       delivered, if h in kinds then kinds[h := CancelledKinds(kinds[h])] else kinds)
  {
    hide Continues;
    if h in kinds {
      var o := HostObservation(live[h].run, live[h].generation, live[h].ordinal, KnownFailure);
      CancelContinues(delivered[h] + pending[h], live[h], kinds[h]);
      assert delivered[h] + (pending[h] + [o]) == delivered[h] + pending[h] + [o];
    }
  }

  lemma DrainConsistent(
      n: nat, live: map<nat, Binding>, pending: Streams, delivered: Streams, kinds: map<nat, seq<Kind>>, h: nat)
    requires Consistent(n, live, pending, delivered, kinds) && h in pending
    ensures Consistent(n, live, pending[h := []], delivered[h := delivered[h] + pending[h]], kinds)
  {
    hide Continues;
    assert delivered[h] + pending[h] + [] == delivered[h] + pending[h];
  }

  class FakeExecutionHost {
    const maxOutputChunk: nat
    var script: seq<ScriptStep>
    var nextHandle: nat
    var startOutcome: Option<StartOutcome>
    var pending: map<nat, seq<HostObservation>>
    var live: map<nat, Binding>
    /** Everything each live handle has delivered so far. */
    ghost var delivered: map<nat, seq<HostObservation>>
    /** For handles started from a plain script, the kinds of the whole stream. */
    ghost var kinds: map<nat, seq<Kind>>

    /** For every live plain handle, delivered and pending together are one numbered stream, and
        the recorded ordinal continues it. */
    ghost predicate Valid()
      reads this
    {
      && maxOutputChunk > 0
      && Consistent(nextHandle, live, pending, delivered, kinds)
    }

    constructor (maxOutputChunk: nat)
      requires maxOutputChunk > 0
      ensures Valid() && script == [] && live == map[] && this.maxOutputChunk == maxOutputChunk
    {
      this.maxOutputChunk := maxOutputChunk;
      script, nextHandle, startOutcome := [], 1, None;
      pending, live, delivered, kinds := map[], map[], map[], map[];
    }

    method Execute(run: RunId, generation: nat, steps: seq<ScriptStep>) returns (r: Outcome<seq<HostObservation>>)
      requires maxOutputChunk > 0
      ensures r == match Play(Player(run, generation, maxOutputChunk), steps)
                   case Done(tape) => Done(tape.observations)
                   case Failed(e) => Failed(e)
    {
      ghost var p := Player(run, generation, maxOutputChunk);
      var observations: seq<HostObservation> := [];
      var nextOrdinal := 1;
      for i := 0 to |steps|
        invariant Play(p, steps[..i]) == Done(Tape(observations, nextOrdinal))
      {
        assert steps[..i + 1][..i] == steps[..i];
        if Play(p, steps[..i + 1]).Failed? {
          PlayPrefixFails(p, steps, i + 1);
        }
        if steps[i].EmitExact? {
          observations := observations + [HostObservation(run, steps[i].generation, steps[i].ordinal, steps[i].kind)];
        } else if steps[i].DuplicateLast? {
          if observations == [] {
            return Failed(DuplicateWithoutObservation);
          }
          observations := observations + [observations[|observations| - 1]];
        } else {
          ghost var start := Tape(observations, nextOrdinal);
          var added := StepKinds(steps[i], maxOutputChunk);
          for j := 0 to |added|
            invariant AppendAll(p, start, added[..j]) == Done(Tape(observations, nextOrdinal))
          {
            assert added[..j + 1][..j] == added[..j];
            if AppendAll(p, start, added[..j + 1]).Failed? {
              AppendPrefixFails(p, start, added, j + 1);
            }
            if nextOrdinal >= U64_MAX {
              return Failed(OrdinalExhausted);
            }
            observations := observations + [HostObservation(run, generation, nextOrdinal, added[j])];
            nextOrdinal := nextOrdinal + 1;
          }
          assert added[..|added|] == added;
        }
      }
      assert steps[..|steps|] == steps;
      r := Done(observations);
    }

    method Start(run: RunId, generation: nat) returns (outcome: StartOutcome)
      requires Valid()
      modifies this
      ensures Valid() && script == old(script)
      ensures old(startOutcome).Some? ==> outcome == old(startOutcome).value && live == old(live) && startOutcome.None?
      ensures old(startOutcome).None? ==>
                && outcome == HostStarted(old(nextHandle))
                && live.Keys == old(live).Keys + {old(nextHandle)} && delivered[old(nextHandle)] == []
                && live[old(nextHandle)].run == run && live[old(nextHandle)].generation == generation
      ensures old(startOutcome).None? && IsPlain(script) ==>
                && old(nextHandle) in kinds
                && kinds[old(nextHandle)] == PlayedKinds(Player(run, generation, maxOutputChunk), script)
      ensures forall h | h in old(live) :: h in live && live[h] == old(live)[h] && pending[h] == old(pending)[h]
    {
      hide Play, ScriptKinds, Continues, IsPlain;
      if startOutcome.Some? {
        outcome := startOutcome.value;
        startOutcome := None;
        return;
      }
      var played := Execute(run, generation, script);
      var observations: seq<HostObservation> := if played.Done? then played.value else [];
      var plain := IsPlain(script);
      if plain {
        StartContinues(Player(run, generation, maxOutputChunk), script, observations);
      }
      var handle := Admit(Binding(run, generation, NextAfter(observations)), observations, plain,
                          PlayedKinds(Player(run, generation, maxOutputChunk), script));
      outcome := HostStarted(handle);
    }

    /** Register a new live handle with its stream. */
    method Admit(b: Binding, observations: seq<HostObservation>, ghost plain: bool, ghost ks: seq<Kind>)
      returns (handle: nat)
      requires Valid() && (plain ==> Continues(observations, b, ks))
      modifies this`nextHandle, this`live, this`pending, this`delivered, this`kinds
      ensures Valid()
      ensures handle == old(nextHandle) && live == old(live)[handle := b]
              && pending == old(pending)[handle := observations]
      ensures delivered == old(delivered)[handle := []]
      ensures kinds == if plain then old(kinds)[handle := ks] else old(kinds)
    {
      hide Continues, Consistent;
      AdmitConsistent(nextHandle, live, pending, delivered, kinds, b, observations, ks);
      handle := nextHandle;
      nextHandle := nextHandle + 1;
      live := live[handle := b];
      pending := pending[handle := observations];
      delivered := delivered[handle := []];
      if plain {
        kinds := kinds[handle := ks];
      }
    }

    method Observe(handle: nat) returns (r: Option<seq<HostObservation>>)
      requires Valid()
      modifies this
      ensures Valid() && live == old(live) && kinds == old(kinds)
      ensures r.Some? <==> handle in old(pending)
      ensures r.None? ==> pending == old(pending)
      ensures r.Some? ==> r.value == old(pending)[handle] && pending == old(pending)[handle := []]
                          && delivered == old(delivered)[handle := old(delivered)[handle] + r.value]
    {
      if handle !in pending {
        return None;
      }
      var drained := pending[handle];
      DrainConsistent(nextHandle, live, pending, delivered, kinds, handle);
      delivered := delivered[handle := delivered[handle] + drained];
      pending := pending[handle := []];
      r := Some(drained);
    }

    /** Terminal evidence for a cancel continues the numbering of whatever was emitted; once the
        ordinals are used up it can only repeat itself. */
    method SignalCancel(handle: nat) returns (ok: bool)
      requires Valid()
      modifies this
      ensures Valid() && delivered == old(delivered)
      ensures ok <==> handle in old(live)
      ensures handle in old(kinds) ==>
                kinds == old(kinds)[handle := CancelledKinds(old(kinds)[handle])]
      ensures !ok ==> pending == old(pending) && live == old(live)
      ensures ok ==>
                var b := old(live)[handle];
                var o := HostObservation(b.run, b.generation, b.ordinal, KnownFailure);
                && pending == old(pending)[handle := old(pending)[handle] + [o]]
                && live == old(live)[handle := Binding(b.run, b.generation, SaturatingSucc(b.ordinal))]
    {
      hide Continues;
      if handle !in live {
        return false;
      }
      var b := live[handle];
      var o := HostObservation(b.run, b.generation, b.ordinal, KnownFailure);
      CancelConsistent(nextHandle, live, pending, delivered, kinds, handle);
      if handle in kinds {
        kinds := kinds[handle := CancelledKinds(kinds[handle])];
      }
      pending := pending[handle := pending[handle] + [o]];
      live := live[handle := Binding(b.run, b.generation, SaturatingSucc(b.ordinal))];
      ok := true;
    }

    method Reap(handle: nat)
      requires Valid()
      modifies this
      ensures Valid() && live == old(live) - {handle} && pending == old(pending) - {handle}
    {
      live, pending := live - {handle}, pending - {handle};
      delivered, kinds := delivered - {handle}, kinds - {handle};
    }
  }

  /** A failed prefix decides the whole. */
  lemma {:induction false} PlayPrefixFails(p: Player, script: seq<ScriptStep>, n: nat)
    requires p.max > 0 && n <= |script| && Play(p, script[..n]).Failed?
    ensures Play(p, script) == Play(p, script[..n])
    decreases |script| - n
  {
    if n < |script| {
      assert script[..n + 1][..n] == script[..n];
      PlayPrefixFails(p, script, n + 1);
    } else {
      assert script[..n] == script;
    }
  }

  lemma {:induction false} AppendPrefixFails(p: Player, tape: Tape, kinds: seq<Kind>, n: nat)
    requires n <= |kinds| && AppendAll(p, tape, kinds[..n]).Failed?
    ensures AppendAll(p, tape, kinds) == AppendAll(p, tape, kinds[..n])
    decreases |kinds| - n
  {
    if n < |kinds| {
      assert kinds[..n + 1][..n] == kinds[..n];
      AppendPrefixFails(p, tape, kinds, n + 1);
    } else {
      assert kinds[..n] == kinds;
    }
  }

  // ---------- how long a play is ----------

  predicate Repeats(step: ScriptStep) {
    step.DuplicateLast? || step.EmitExact?
  }

  function RepeatCount(script: seq<ScriptStep>): nat {
    if script == [] then 0
    else RepeatCount(script[..|script| - 1]) + if Repeats(script[|script| - 1]) then 1 else 0
  }

  lemma {:induction false} AppendAllGrows(p: Player, tape: Tape, kinds: seq<Kind>)
    requires AppendAll(p, tape, kinds).Done?
    ensures tape.observations <= AppendAll(p, tape, kinds).value.observations
    ensures |AppendAll(p, tape, kinds).value.observations| == |tape.observations| + |kinds|
  {
    if kinds != [] {
      AppendAllGrows(p, tape, kinds[..|kinds| - 1]);
    }
  }

  /** Every script that plays, exact emissions included: one observation per new kind, one per repeat, and
      one per exact emission, which stands in the stream as it was written. */
  lemma {:induction false} PlayHasAll(p: Player, script: seq<ScriptStep>, i: nat)
    requires p.max > 0 && Play(p, script).Done?
    ensures |Play(p, script).value.observations| == |ScriptKinds(script, p.max)| + RepeatCount(script)
    ensures i < |script| && script[i].EmitExact? ==>
            HostObservation(p.run, script[i].generation, script[i].ordinal, script[i].kind)
            in Play(p, script).value.observations
  {
    if script != [] {
      hide StepKinds;
      var less, last := script[..|script| - 1], script[|script| - 1];
      PlayHasAll(p, less, i);
      if Repeats(last) {
        RepeatsAddNoKinds(last, p.max);
      } else {
        AppendAllGrows(p, Play(p, less).value, StepKinds(last, p.max));
      }
      assert i < |less| ==> script[i] == less[i];
    }
  }

  lemma RepeatsAddNoKinds(step: ScriptStep, max: nat)
    requires max > 0 && Repeats(step)
    ensures StepKinds(step, max) == []
  {
  }
}

/** What every run of the observation authority keeps: the applied log of a run is
    gap-free, effects are counted exactly, taking back is an exact inverse, and
    liveness has a closed form over the run's history. */
module AuthorityRuns {
  import opened Basics
  import opened Observations
  import opened Authority

  // ---------- the state invariant ----------

  function EffectKeys(applied: map<(RunId, nat), Kind>): set<(RunId, nat)> {
    set k | k in applied && IsEffect(applied[k])
  }

  /** Every run's applied ordinals are exactly 1 .. next-1, and the effect counter
      equals the number of applied results and outputs. */
  ghost predicate Inv(s: State) {
    && (forall r: RunId, n: nat :: (r, n) in s.applied <==> 1 <= n < NextExpected(s.nextOrdinal, r))
    && (forall r | r in s.nextOrdinal :: 2 <= s.nextOrdinal[r] <= U64_MAX)
    && s.effects == |EffectKeys(s.applied)|
  }

  datatype Op =
    | Delivery(o: HostObservation)
    | Recovery(run: RunId)
    | TerminalNote(run: RunId)
    | AdvanceBinding(run: RunId, presented: nat)

  function Perform(s: State, op: Op): State {
    match op
    case Delivery(o) => Deliver(s, o)
    case Recovery(run) => s.(liveness := SetLiveness(s.liveness, run, UnknownAfterCrash))
    case TerminalNote(run) => s.(liveness := s.liveness[run := KnownTerminated])
    case AdvanceBinding(run, presented) =>
      if run in s.domain && s.domain[run] == presented && presented < U64_MAX then
        s.(domain := s.domain[run := presented + 1])
      else s
  }

  function PerformAll(s: State, ops: seq<Op>): State {
    if ops == [] then s else Perform(PerformAll(s, ops[..|ops| - 1]), ops[|ops| - 1])
  }

  lemma AcceptedCounts(s: State, o: HostObservation)
    requires (o.runId, o.ordinal) !in s.applied
    ensures |EffectKeys(Accepted(s, o).applied)|
            == |EffectKeys(s.applied)| + if o.kind.Result? || o.kind.Output? then 1 else 0
    ensures |Accepted(s, o).applied| == |s.applied| + 1
  {
    var key := (o.runId, o.ordinal);
    var applied' := s.applied[key := o.kind];
    assert EffectKeys(applied') == if IsEffect(o.kind) then EffectKeys(s.applied) + {key} else EffectKeys(s.applied);
    assert applied'.Keys == s.applied.Keys + {key};
  }

  lemma AcceptedKeepsInv(s: State, o: HostObservation)
    requires Inv(s) && Judge(s, o).Accept?
    ensures Inv(Accepted(s, o))
  {
    AcceptedCounts(s, o);
    var s' := Accepted(s, o);
    forall r: RunId, n: nat
      ensures (r, n) in s'.applied <==> 1 <= n < NextExpected(s'.nextOrdinal, r)
    {
      assert (r, n) in s.applied <==> 1 <= n < NextExpected(s.nextOrdinal, r);
    }
  }

  lemma {:induction false} RunsKeepInv(s: State, ops: seq<Op>)
    requires Inv(s)
    ensures Inv(PerformAll(s, ops))
  {
    if ops != [] {
      var before := PerformAll(s, ops[..|ops| - 1]);
      RunsKeepInv(s, ops[..|ops| - 1]);
      var op := ops[|ops| - 1];
      if op.Delivery? && Judge(before, op.o).Accept? {
        AcceptedKeepsInv(before, op.o);
      }
    }
  }

  // ---------- taking back ----------

  /** Taking back a delivery the authority answered `Ok` restores the state exactly
      when the delivery was new; a replayed acknowledgement must not be taken back. */
  lemma UndoRestoresIffNew(s: State, o: HostObservation)
    requires Inv(s) && Answer(Judge(s, o)).Ok?
    ensures Undone(Deliver(s, o), o, Recorded(s.liveness, o.runId), s.effects) == s
            <==> (o.runId, o.ordinal) !in s.applied
  {
    var u := Undone(Deliver(s, o), o, Recorded(s.liveness, o.runId), s.effects);
    if (o.runId, o.ordinal) !in s.applied {
      assert u.applied == s.applied;
      assert u.nextOrdinal == s.nextOrdinal;
      assert u.liveness == s.liveness;
    } else {
      assert (o.runId, o.ordinal) !in u.applied;
    }
  }

  datatype Saved = Saved(o: HostObservation, liveness: Option<Liveness>, effects: nat)

  /** One step of a caller that keeps the accepted observations it may still take back. */
  datatype StackOp = Push(o: HostObservation) | Pop

  datatype Ledger = Ledger(state: State, kept: seq<Saved>)

  function StackStep(l: Ledger, op: StackOp): Ledger {
    match op
    case Push(o) =>
      if Judge(l.state, o).Accept? then
        Ledger(Accepted(l.state, o), l.kept + [Saved(o, Recorded(l.state.liveness, o.runId), l.state.effects)])
      else l
    case Pop =>
      if l.kept == [] then l
      else
        var top := l.kept[|l.kept| - 1];
        Ledger(Undone(l.state, top.o, top.liveness, top.effects), l.kept[..|l.kept| - 1])
  }

  function StackRun(l: Ledger, ops: seq<StackOp>): Ledger {
    if ops == [] then l else StackStep(StackRun(l, ops[..|ops| - 1]), ops[|ops| - 1])
  }

  /** The state reached by only ever accepting the observations still kept. */
  function Surviving(s: State, kept: seq<Saved>): State {
    if kept == [] then s else Accepted(Surviving(s, kept[..|kept| - 1]), kept[|kept| - 1].o)
  }

  /** Each kept entry was acceptable on top of those below it, and saved that state's facts. */
  ghost predicate WellKept(s: State, kept: seq<Saved>) {
    kept == [] ||
    (var below := kept[..|kept| - 1];
     var top := kept[|kept| - 1];
     var base := Surviving(s, below);
     && WellKept(s, below)
     && Judge(base, top.o).Accept?
     && top.liveness == Recorded(base.liveness, top.o.runId)
     && top.effects == base.effects)
  }

  lemma {:induction false} SurvivingKeepsInv(s: State, kept: seq<Saved>)
    requires Inv(s) && WellKept(s, kept)
    ensures Inv(Surviving(s, kept))
  {
    if kept != [] {
      SurvivingKeepsInv(s, kept[..|kept| - 1]);
      AcceptedKeepsInv(Surviving(s, kept[..|kept| - 1]), kept[|kept| - 1].o);
    }
  }

  lemma PopRestores(s: State, kept: seq<Saved>)
    requires Inv(s) && kept != [] && WellKept(s, kept)
    ensures var below, top := kept[..|kept| - 1], kept[|kept| - 1];
            WellKept(s, below) && Undone(Surviving(s, kept), top.o, top.liveness, top.effects) == Surviving(s, below)
  {
    hide Accepted, Undone, Inv;
    SurvivingKeepsInv(s, kept[..|kept| - 1]);
    UndoRestoresIffNew(Surviving(s, kept[..|kept| - 1]), kept[|kept| - 1].o);
  }

  /** Any mix of accepting and taking back in last-in-first-out order leaves exactly the
      state of the observations still kept: nothing of a taken-back observation remains. */
  lemma {:induction false} UndoIsExactInverse(s: State, ops: seq<StackOp>)
    requires Inv(s)
    ensures var l := StackRun(Ledger(s, []), ops);
            WellKept(s, l.kept) && l.state == Surviving(s, l.kept) && Inv(l.state)
  {
    hide Judge, Accepted, Undone, Inv, Recorded;
    if ops != [] {
      var op := ops[|ops| - 1];
      UndoIsExactInverse(s, ops[..|ops| - 1]);
      var l := StackRun(Ledger(s, []), ops[..|ops| - 1]);
      var l' := StackStep(l, op);
      if op.Push? {
        if Judge(l.state, op.o).Accept? {
          assert l'.kept[..|l'.kept| - 1] == l.kept;
          AcceptedKeepsInv(l.state, op.o);
        }
      } else if l.kept != [] {
        PopRestores(s, l.kept);
        SurvivingKeepsInv(s, l'.kept);
      }
    }
  }

  // ---------- liveness ----------

  datatype Event = Observed(kind: Kind) | Recovered | TerminalNoted

  /** What one operation adds to the history of `run`: rejected and replayed deliveries add nothing. */
  function EventOf(s: State, op: Op, run: RunId): Option<Event> {
    match op
    case Delivery(o) => if o.runId == run && Judge(s, o).Accept? then Some(Observed(o.kind)) else None
    case Recovery(r) => if r == run then Some(Recovered) else None
    case TerminalNote(r) => if r == run then Some(TerminalNoted) else None
    case AdvanceBinding(_, _) => None
  }

  function History(s: State, ops: seq<Op>, run: RunId): seq<Event> {
    if ops == [] then []
    else
      var before := ops[..|ops| - 1];
      match EventOf(PerformAll(s, before), ops[|ops| - 1], run)
      case None => History(s, before, run)
      case Some(e) => History(s, before, run) + [e]
  }

  predicate EndsRun(e: Event) {
    e == TerminalNoted || e == Observed(KnownSuccess) || e == Observed(KnownFailure)
  }

  predicate LosesRun(e: Event) {
    e == Recovered || e == Observed(HarnessCrashed) || e == Observed(UnknownLiveness)
  }

  ghost predicate Disconnected(h: seq<Event>) {
    exists i | 0 <= i < |h| ::
      h[i] == Observed(ObservationDisconnected) &&
      forall j | i < j < |h| :: h[j] != Observed(ObservationReconnected)
  }

  ghost function ClosedForm(h: seq<Event>): Liveness {
    if exists e | e in h :: EndsRun(e) then KnownTerminated
    else if exists e | e in h :: LosesRun(e) then UnknownAfterCrash
    else if Disconnected(h) then ObservationLost
    else ScriptedLive
  }

  lemma DisconnectedStep(h: seq<Event>, e: Event)
    ensures Disconnected(h + [e]) <==>
            e == Observed(ObservationDisconnected) || (e != Observed(ObservationReconnected) && Disconnected(h))
  {
    var h' := h + [e];
    if e == Observed(ObservationDisconnected) {
      assert h'[|h|] == e;
    } else {
      if Disconnected(h) && e != Observed(ObservationReconnected) {
        var i :| 0 <= i < |h| && h[i] == Observed(ObservationDisconnected) &&
                 forall j | i < j < |h| :: h[j] != Observed(ObservationReconnected);
        assert h'[i] == Observed(ObservationDisconnected);
      }
      if Disconnected(h') {
        var i :| 0 <= i < |h'| && h'[i] == Observed(ObservationDisconnected) &&
                 forall j | i < j < |h'| :: h'[j] != Observed(ObservationReconnected);
        assert i < |h| && h'[|h|] == e;
        assert h[i] == Observed(ObservationDisconnected) && forall j | i < j < |h| :: h[j] == h'[j];
      }
    }
  }

  /** The liveness after one more event, as the table-updating code computes it. */
  function AfterEvent(l: Liveness, e: Event): Liveness {
    match e
    case TerminalNoted => KnownTerminated
    case Recovered => if Blocks(l, UnknownAfterCrash) then l else UnknownAfterCrash
    case Observed(k) =>
      match k
      case ObservationDisconnected => if Blocks(l, ObservationLost) then l else ObservationLost
      case ObservationReconnected => if l.ObservationLost? then ScriptedLive else l
      case HarnessCrashed => if Blocks(l, UnknownAfterCrash) then l else UnknownAfterCrash
      case UnknownLiveness => if Blocks(l, UnknownAfterCrash) then l else UnknownAfterCrash
      case KnownSuccess => KnownTerminated
      case KnownFailure => KnownTerminated
      case _ => l
  }

  lemma ClosedFormStep(h: seq<Event>, e: Event)
    ensures ClosedForm(h + [e]) == AfterEvent(ClosedForm(h), e)
  {
    DisconnectedStep(h, e);
    assert (exists x | x in h + [e] :: EndsRun(x)) <==> EndsRun(e) || exists x | x in h :: EndsRun(x) by {
      assert e in h + [e];
    }
    assert (exists x | x in h + [e] :: LosesRun(x)) <==> LosesRun(e) || exists x | x in h :: LosesRun(x) by {
      assert e in h + [e];
    }
  }

  lemma LivenessStep(s: State, op: Op, run: RunId)
    ensures LivenessOf(Perform(s, op).liveness, run) ==
            match EventOf(s, op, run)
            case None => LivenessOf(s.liveness, run)
            case Some(e) => AfterEvent(LivenessOf(s.liveness, run), e)
  {
  }

  /** After any run from a fresh authority, the table's liveness of every run is the
      closed form of that run's history. */
  lemma {:induction false} LivenessIsClosedForm(domain: map<RunId, nat>, ops: seq<Op>, run: RunId)
    ensures LivenessOf(PerformAll(Fresh(domain), ops).liveness, run)
            == ClosedForm(History(Fresh(domain), ops, run))
  {
    if ops != [] {
      var before := ops[..|ops| - 1];
      LivenessIsClosedForm(domain, before, run);
      var s := PerformAll(Fresh(domain), before);
      LivenessStep(s, ops[|ops| - 1], run);
      match EventOf(s, ops[|ops| - 1], run) {
        case None =>
        case Some(e) => ClosedFormStep(History(Fresh(domain), before, run), e);
      }
    }
  }
}

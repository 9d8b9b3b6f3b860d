/** The composed pipeline: a process host is drained into the observation authority, while
    the authority also serves other runs. */
module Pipeline {
  import opened Basics
  import opened Observations
  import opened Authority
  import opened AuthorityRuns
  import opened DeliveryConvergence
  import opened ProcessHost
  import opened ProcessHostRuns

  /** The authority's answers to a drained batch, in order. */
  function Answers(s: State, os: seq<HostObservation>): seq<ObserveResult> {
    if os == [] then []
    else
      var before := os[..|os| - 1];
      Answers(s, before) + [Answer(Judge(DeliverAll(s, before), os[|os| - 1]))]
  }

  datatype System = System(host: Host, authority: State, answers: seq<ObserveResult>)

  datatype Move = HostMove(step: Step) | OtherRun(o: HostObservation)

  predicate Possible(y: System, m: Move) {
    match m
    case HostMove(step) => Enabled(y.host, step)
    case OtherRun(o) => o.runId != y.host.run
  }

  function Make(y: System, m: Move): System
    requires Possible(y, m)
  {
    match m
    case OtherRun(o) => y.(authority := Deliver(y.authority, o))
    case HostMove(step) =>
      if step.Drain? then
        System(Take(y.host, step), DeliverAll(y.authority, y.host.items),
               y.answers + Answers(y.authority, y.host.items))
      else y.(host := Take(y.host, step))
  }

  ghost predicate Plays(y: System, moves: seq<Move>)
    decreases |moves|, 0
  {
    moves == [] || (Plays(y, moves[..|moves| - 1]) && Possible(Reached(y, moves[..|moves| - 1]), moves[|moves| - 1]))
  }

  ghost function Reached(y: System, moves: seq<Move>): System
    requires Plays(y, moves)
    decreases |moves|, 1
  {
    if moves == [] then y else Make(Reached(y, moves[..|moves| - 1]), moves[|moves| - 1])
  }

  // ---------- following a stream ----------

  /** The liveness an accepted observation leaves behind on a run that was live before it. */
  function Reports(k: Kind): Liveness {
    match k
    case KnownSuccess => KnownTerminated
    case KnownFailure => KnownTerminated
    case HarnessCrashed => UnknownAfterCrash
    case UnknownLiveness => UnknownAfterCrash
    case ObservationDisconnected => ObservationLost
    case _ => ScriptedLive
  }

  /** The authority has applied exactly the first `n` observations of stream `t`. */
  ghost predicate Follows(s: State, run: RunId, generation: nat, t: seq<HostObservation>, n: nat) {
    && n <= |t| && Inv(s)
    && run in s.domain && s.domain[run] == generation
    && NextExpected(s.nextOrdinal, run) == n + 1
    && (forall i | 0 <= i < n :: (run, i + 1) in s.applied && s.applied[(run, i + 1)] == t[i].kind)
    && LivenessOf(s.liveness, run) == if n == 0 then ScriptedLive else Reports(t[n - 1].kind)
  }

  predicate Plain(k: Kind) {
    k.Started? || k.Output?
  }

  lemma FollowNext(s: State, run: RunId, generation: nat, t: seq<HostObservation>, n: nat)
    requires Follows(s, run, generation, t, n) && n < |t| && n + 1 < U64_MAX
    requires t[n].runId == run && t[n].generation == generation && t[n].ordinal == n + 1
    requires n > 0 ==> Plain(t[n - 1].kind)
    requires Plain(t[n].kind) || IsFinal(t[n].kind)
    ensures Judge(s, t[n]).Accept?
    ensures Follows(Deliver(s, t[n]), run, generation, t, n + 1)
  {
    assert (run, n + 1) !in s.applied;
    AcceptedKeepsInv(s, t[n]);
    LivenessStep(s, Delivery(t[n]), run);
  }

  lemma SkipGap(s: State, run: RunId, generation: nat, t: seq<HostObservation>, n: nat)
    requires Follows(s, run, generation, t, n) && n < |t|
    requires t[n].runId == run && t[n].generation == generation && t[n].ordinal == n + 2
    ensures Judge(s, t[n]) == Reject(OutOfOrder)
  {
    assert (run, n + 2) !in s.applied;
  }

  /** How many of the first `n` published observations the authority can take: all of them, except
      a final one that follows a dropped chunk. */
  function Takes(h: Host, n: nat): nat
    requires n <= |h.Stream()|
  {
    if h.dropped.Some? && h.reader.Finished? && n == |h.Stream()| && n > 0 then n - 1 else n
  }

  ghost predicate AllOk(answers: seq<ObserveResult>) {
    forall i | 0 <= i < |answers| :: answers[i].Ok?
  }

  ghost predicate Short(h: Host) {
    |h.Stream()| + 1 < U64_MAX
  }

  lemma DeliverOneMore(s: State, h: Host, n: nat)
    requires Shaped(h) && Short(h) && n < |h.Stream()|
    requires Follows(s, h.run, h.generation, h.Stream(), n)
    ensures var o := h.Stream()[n];
            && Follows(Deliver(s, o), h.run, h.generation, h.Stream(), Takes(h, n + 1))
            && Judge(s, o) == if Takes(h, n + 1) == n + 1 then Accept else Reject(OutOfOrder)
  {
    var t := h.Stream();
    if Takes(h, n + 1) == n + 1 {
      assert t[n].ordinal == n + 1;
      FollowNext(s, h.run, h.generation, t, n);
    } else {
      assert t[n].ordinal == n + 2;
      SkipGap(s, h.run, h.generation, t, n);
    }
  }

  /** The answer due for the `n`-th published observation. */
  function Due(h: Host, n: nat): ObserveResult
    requires 0 < n <= |h.Stream()|
  {
    if Takes(h, n) == n then Ok else Err(OutOfOrder)
  }

  function AllDue(h: Host, lo: nat, hi: nat): seq<ObserveResult>
    requires hi <= |h.Stream()|
  {
    if hi <= lo then [] else AllDue(h, lo, hi - 1) + [Due(h, hi)]
  }

  lemma {:induction false} AllDueSplit(h: Host, mid: nat, hi: nat)
    requires mid <= hi <= |h.Stream()|
    ensures AllDue(h, 0, hi) == AllDue(h, 0, mid) + AllDue(h, mid, hi)
    decreases hi
  {
    if mid < hi {
      AllDueSplit(h, mid, hi - 1);
    }
  }

  /** Delivering t[lo] .. t[hi - 1], one by one. */
  function Fed(s: State, t: seq<HostObservation>, lo: nat, hi: nat): State
    requires hi <= |t|
  {
    if hi <= lo then s else Deliver(Fed(s, t, lo, hi - 1), t[hi - 1])
  }

  function FedAnswers(s: State, t: seq<HostObservation>, lo: nat, hi: nat): seq<ObserveResult>
    requires hi <= |t|
  {
    if hi <= lo then [] else FedAnswers(s, t, lo, hi - 1) + [Answer(Judge(Fed(s, t, lo, hi - 1), t[hi - 1]))]
  }

  lemma {:induction false} FedIsDelivered(s: State, t: seq<HostObservation>, lo: nat, hi: nat)
    requires lo <= hi <= |t|
    ensures Fed(s, t, lo, hi) == DeliverAll(s, t[lo..hi])
    ensures FedAnswers(s, t, lo, hi) == Answers(s, t[lo..hi])
    decreases hi
  {
    hide Deliver, Judge;
    if lo < hi {
      FedIsDelivered(s, t, lo, hi - 1);
      assert t[lo..hi][..hi - 1 - lo] == t[lo..hi - 1];
    }
  }

  /** Delivering the next stretch of the stream advances the authority along it. */
  lemma {:induction false} FeedStretch(s: State, h: Host, t: seq<HostObservation>, lo: nat, hi: nat)
    requires Shaped(h) && Short(h) && t == h.Stream() && lo <= hi <= |t|
    requires Follows(s, h.run, h.generation, t, Takes(h, lo))
    ensures Follows(Fed(s, t, lo, hi), h.run, h.generation, t, Takes(h, hi))
    ensures FedAnswers(s, t, lo, hi) == AllDue(h, lo, hi)
    decreases hi
  {
    hide Deliver, Judge, Shaped, Follows;
    if lo < hi {
      FeedStretch(s, h, t, lo, hi - 1);
      DeliverOneMore(Fed(s, t, lo, hi - 1), h, hi - 1);
    }
  }

  // ---------- every run of the system ----------

  ghost predicate Tracks(y: System) {
    && Good(y.host)
    && Follows(y.authority, y.host.run, y.host.generation, y.host.Stream(), Takes(y.host, |y.host.drained|))
    && y.answers == AllDue(y.host, 0, |y.host.drained|)
  }

  lemma DrainTracks(y: System)
    requires Tracks(y) && Short(y.host)
    ensures Follows(DeliverAll(y.authority, y.host.items), y.host.run, y.host.generation, y.host.Stream(),
                    Takes(y.host, |y.host.Stream()|))
    ensures y.answers + Answers(y.authority, y.host.items) == AllDue(y.host, 0, |y.host.Stream()|)
  {
    var h := y.host;
    var lo, hi := |h.drained|, |h.Stream()|;
    assert h.Stream()[lo..hi] == h.items;
    FeedStretch(y.authority, h, h.Stream(), lo, hi);
    FedIsDelivered(y.authority, h.Stream(), lo, hi);
    AllDueSplit(h, lo, hi);
  }

  lemma FollowsLonger(s: State, run: RunId, generation: nat, t: seq<HostObservation>, t': seq<HostObservation>, n: nat)
    requires Follows(s, run, generation, t, n) && t <= t'
    ensures Follows(s, run, generation, t', n)
  {
    assert forall i | 0 <= i < n :: t'[i] == t[i];
  }

  lemma OtherRunKeepsFollowing(
      s: State, o: HostObservation, run: RunId, generation: nat, t: seq<HostObservation>, n: nat)
    requires Follows(s, run, generation, t, n) && o.runId != run
    ensures Follows(Deliver(s, o), run, generation, t, n)
  {
    if Judge(s, o).Accept? {
      AcceptedKeepsInv(s, o);
    }
    LivenessStep(s, Delivery(o), run);
  }

  /** A step other than draining never changes which observations already drained are takeable. */
  lemma TakesStable(h: Host, step: Step, n: nat)
    requires Good(h) && Enabled(h, step) && !step.Drain? && n <= |h.drained|
    ensures n <= |h.Stream()| && n <= |Take(h, step).Stream()| && Takes(Take(h, step), n) == Takes(h, n)
  {
    StreamStep(h, step);
  }

  lemma {:induction false} AllDueStable(h: Host, h': Host, n: nat)
    requires n <= |h.Stream()| && n <= |h'.Stream()|
    requires forall k: nat | k <= n :: Takes(h', k) == Takes(h, k)
    ensures AllDue(h', 0, n) == AllDue(h, 0, n)
  {
    if n > 0 {
      AllDueStable(h, h', n - 1);
    }
  }

  lemma QuietStepTracks(y: System, step: Step)
    requires Tracks(y) && Enabled(y.host, step) && !step.Drain?
    ensures Tracks(y.(host := Take(y.host, step)))
  {
    hide Good, Follows;
    var h, h' := y.host, Take(y.host, step);
    GoodStep(h, step);
    forall k: nat | k <= |h.drained|
      ensures Takes(h', k) == Takes(h, k)
    {
      TakesStable(h, step, k);
    }
    AllDueStable(h, h', |h.drained|);
    FollowsLonger(y.authority, h.run, h.generation, h.Stream(), h'.Stream(), Takes(h, |h.drained|));
  }

  lemma DrainStepTracks(y: System)
    requires Tracks(y) && Short(y.host)
    ensures Tracks(Make(y, HostMove(Drain)))
  {
    hide Good, Follows;
    var h, h' := y.host, Take(y.host, Drain);
    GoodStep(h, Drain);
    DrainTracks(y);
    assert h'.Stream() == h'.drained == h.Stream();
    AllDueStable(h, h', |h.Stream()|);
  }

  lemma MoveTracks(y: System, m: Move)
    requires Tracks(y) && Possible(y, m) && Short(Make(y, m).host)
    ensures Tracks(Make(y, m))
  {
    match m {
      case OtherRun(o) =>
        var h := y.host;
        OtherRunKeepsFollowing(y.authority, o, h.run, h.generation, h.Stream(), Takes(h, |h.drained|));
      case HostMove(step) =>
        if step.Drain? {
          StreamStep(y.host, step);
          DrainStepTracks(y);
        } else {
          QuietStepTracks(y, step);
        }
    }
  }

  /** The run is bound in the authority, and nothing has been observed of it yet. */
  ghost predicate Ready(s: State, run: RunId, generation: nat) {
    && Inv(s) && run in s.domain && s.domain[run] == generation
    && NextExpected(s.nextOrdinal, run) == 1 && LivenessOf(s.liveness, run) == ScriptedLive
  }

  lemma {:induction false} PlaysTrack(run: RunId, generation: nat, maxChunk: nat, s: State, moves: seq<Move>)
    requires Ready(s, run, generation)
    requires Plays(System(Spawned(run, generation, maxChunk), s, []), moves)
    requires Short(Reached(System(Spawned(run, generation, maxChunk), s, []), moves).host)
    ensures Tracks(Reached(System(Spawned(run, generation, maxChunk), s, []), moves))
    ensures Reached(System(Spawned(run, generation, maxChunk), s, []), moves).host.run == run
  {
    var y0 := System(Spawned(run, generation, maxChunk), s, []);
    if moves == [] {
      SpawnedIsGood(run, generation, maxChunk);
    } else {
      var before := moves[..|moves| - 1];
      var y, m := Reached(y0, before), moves[|moves| - 1];
      if m.HostMove? {
        StreamStep(y.host, m.step);
      }
      PlaysTrack(run, generation, maxChunk, s, before);
      MoveTracks(y, m);
    }
  }

  // ---------- the composed theorems ----------

  /** The final observation was drained although a chunk before it had been dropped. */
  predicate LostTail(h: Host) {
    h.dropped.Some? && h.reader.Finished? && h.items == [] && h.drained != []
  }

  lemma {:induction false} AllDueOk(h: Host, n: nat)
    requires n <= |h.Stream()|
    ensures |AllDue(h, 0, n)| == n
    ensures forall i | 0 <= i < n :: AllDue(h, 0, n)[i] == Due(h, i + 1)
  {
    if n > 0 {
      AllDueOk(h, n - 1);
    }
  }

  function AcceptedCount(h: Host): nat {
    if LostTail(h) then |h.drained| - 1 else |h.drained|
  }

  /** The authority answered `Ok` to every drained observation, exactly unless the tail was lost;
      then it refused the final one alone. What it accepted is what was drained, in order. */
  ghost predicate AcceptedInOrder(y: System) {
    var h, a := y.host, y.answers;
    && |a| == |h.drained|
    && (AllOk(a) <==> !LostTail(h))
    && (LostTail(h) ==> a[|a| - 1] == Err(OutOfOrder) && AllOk(a[..|a| - 1]))
    && NextExpected(y.authority.nextOrdinal, h.run) == 1 + AcceptedCount(h)
    && (forall i | 0 <= i < AcceptedCount(h) ::
          (h.run, i + 1) in y.authority.applied && y.authority.applied[(h.run, i + 1)] == h.drained[i].kind)
  }

  lemma AnswersInOrder(h: Host, a: seq<ObserveResult>)
    requires a == AllDue(h, 0, |h.drained|)
    ensures |a| == |h.drained|
    ensures AllOk(a) <==> !LostTail(h)
    ensures LostTail(h) ==> a[|a| - 1] == Err(OutOfOrder) && AllOk(a[..|a| - 1])
  {
    AllDueOk(h, |h.drained|);
    hide AllDue;
    assert forall i | 0 <= i < |a| :: a[i] == Due(h, i + 1);
    if LostTail(h) {
      assert a[|a| - 1] == Err(OutOfOrder);
    }
  }

  lemma TracksInOrder(y: System)
    requires Tracks(y)
    ensures AcceptedInOrder(y)
  {
    hide AllDue, Good, AllOk;
    AnswersInOrder(y.host, y.answers);
    assert Takes(y.host, |y.host.drained|) == AcceptedCount(y.host);
    assert forall i | 0 <= i < |y.host.drained| :: y.host.Stream()[i] == y.host.drained[i];
  }

  /** Termination is reported exactly when a known end was drained with nothing dropped, and only
      if the child was seen to exit with a status code or shutdown was requested. A lost pipe is
      reported as a lost observation, a crash only for a signalled child or a failed wait. */
  ghost predicate LivenessIsEvidenced(y: System) {
    var h, l := y.host, LivenessOf(y.authority.liveness, y.host.run);
    && (l.KnownTerminated? <==> h.drained != [] && KnownEnd(h.drained[|h.drained| - 1].kind) && h.dropped.None?)
    && (l.KnownTerminated? ==> h.shutdown || (h.child.Some? && h.child.value.Exited?))
    && (l.ObservationLost? <==> h.drained != [] && h.drained[|h.drained| - 1].kind == ObservationDisconnected)
    && (l.UnknownAfterCrash? ==> h.dropped.None? && h.drained != [] &&
                                 (h.child == Some(Signalled) || h.drained[|h.drained| - 1].kind == UnknownLiveness))
  }

  lemma TracksEvidenced(y: System)
    requires Tracks(y)
    ensures LivenessIsEvidenced(y)
  {
    var h := y.host;
    var n := Takes(h, |h.drained|);
    var t := h.Stream();
    assert forall i | 0 <= i < |h.drained| :: t[i] == h.drained[i];
    if n > 0 {
      assert Justified(h, t[n - 1].kind);
      assert n < |h.drained| ==> Plain(t[n - 1].kind) && KnownEnd(t[n].kind);
      assert h.dropped.Some? ==> Plain(t[n - 1].kind);
    }
  }

  /** In every interleaving of reader, drainer, canceller, child and other runs, draining the host
      into the authority accepts the stream in order, and the reported liveness has its evidence. */
  lemma ComposedPipeline(run: RunId, generation: nat, maxChunk: nat, s: State, moves: seq<Move>)
    requires Ready(s, run, generation)
    requires Plays(System(Spawned(run, generation, maxChunk), s, []), moves)
    requires Short(Reached(System(Spawned(run, generation, maxChunk), s, []), moves).host)
    ensures Reached(System(Spawned(run, generation, maxChunk), s, []), moves).host.run == run
    ensures AcceptedInOrder(Reached(System(Spawned(run, generation, maxChunk), s, []), moves))
    ensures LivenessIsEvidenced(Reached(System(Spawned(run, generation, maxChunk), s, []), moves))
  {
    hide Tracks, AcceptedInOrder, LivenessIsEvidenced, Ready, Short;
    PlaysTrack(run, generation, maxChunk, s, moves);
    var y := Reached(System(Spawned(run, generation, maxChunk), s, []), moves);
    TracksInOrder(y);
    TracksEvidenced(y);
  }
}

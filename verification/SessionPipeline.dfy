/** The pipeline as the session runs it: every drained batch goes through the commit, which the store may
    refuse; what a refused batch still held is not drained again. */
module SessionPipeline {
  import opened Basics
  import opened Observations
  import opened Authority
  import opened DeliveryConvergence
  import opened ProcessHost
  import opened ProcessHostRuns
  import opened Pipeline
  import opened CommitSpec

  /** The host, the authority, the answers to the drained batches, and the events appended since launch. */
  datatype Hosted = Hosted(host: Host, authority: State, results: seq<CommitResult>, events: seq<DurableEvent>)

  /** A step of reader, canceller or child; a drain with the store's verdicts; a committed observation of
      another run. */
  datatype Turn = Work(step: Step) | DrainAndCommit(verdicts: seq<StoreVerdict>) | Elsewhere(o: HostObservation)

  predicate CanTurn(y: Hosted, m: Turn) {
    match m
    case Work(step) => Enabled(y.host, step) && !step.Drain?
    case DrainAndCommit(verdicts) => Enabled(y.host, Drain) && |verdicts| == |y.host.items|
    case Elsewhere(o) => o.runId != y.host.run
  }

  function TakeTurn(y: Hosted, m: Turn): Hosted
    requires CanTurn(y, m)
  {
    match m
    case Work(step) => y.(host := Take(y.host, step))
    case Elsewhere(o) =>
      y.(authority := Deliver(y.authority, o), events := y.events + UnitEvents(y.authority, [o]))
    case DrainAndCommit(verdicts) =>
      var p := CommitFrom(y.authority, y.host.items, verdicts, 0);
      Hosted(Take(y.host, Drain), p.state, y.results + [p.result], y.events + p.events)
  }

  ghost predicate CanTake(y: Hosted, turns: seq<Turn>)
    decreases |turns|, 0
  {
    turns == [] || (CanTake(y, turns[..|turns| - 1]) && CanTurn(Taken(y, turns[..|turns| - 1]), turns[|turns| - 1]))
  }

  ghost function Taken(y: Hosted, turns: seq<Turn>): Hosted
    requires CanTake(y, turns)
    decreases |turns|, 1
  {
    if turns == [] then y else TakeTurn(Taken(y, turns[..|turns| - 1]), turns[|turns| - 1])
  }

  // ---------- what the store decides ----------

  /** The store takes the unit that starts with `o`: it accepts the append, and the payload fits if the
      unit is a single observation. */
  predicate StoreTakesUnit(o: HostObservation, v: StoreVerdict) {
    v.accepts && (o.kind.Output? || !v.oversized)
  }

  /** It takes every unit of the batch from `index` on. */
  predicate StoreTakes(os: seq<HostObservation>, verdicts: seq<StoreVerdict>, index: nat)
    requires |verdicts| == |os| && index <= |os|
    decreases |os| - index
  {
    index == |os| || (StoreTakesUnit(os[index], verdicts[index]) && StoreTakes(os, verdicts, UnitEnd(os, index)))
  }

  /** It took every batch that was drained in these turns. */
  ghost predicate StoreTook(y: Hosted, turns: seq<Turn>)
    requires CanTake(y, turns)
    decreases |turns|
  {
    turns == [] ||
    (var less, m := turns[..|turns| - 1], turns[|turns| - 1];
     StoreTook(y, less) && (m.DrainAndCommit? ==> StoreTakes(Taken(y, less).host.items, m.verdicts, 0)))
  }

  // ---------- committing a stretch of the host's stream ----------

  /** Every observation of t[lo..hi] is one the authority can take. */
  ghost predicate AllTakeable(h: Host, lo: nat, hi: nat) {
    hi <= |h.Stream()| && forall m | lo < m <= hi :: Takes(h, m) == m
  }

  lemma AppendAccepted(s: State, os: seq<HostObservation>, o: HostObservation)
    requires FirstRejection(s, os).None? && NewlyAccepted(s, os) == os && Judge(DeliverAll(s, os), o).Accept?
    ensures FirstRejection(s, os + [o]).None? && NewlyAccepted(s, os + [o]) == os + [o]
    ensures DeliverAll(s, os + [o]) == Deliver(DeliverAll(s, os), o)
  {
    hide Judge, Deliver;
    assert (os + [o])[..|os|] == os;
  }

  lemma {:induction false} StretchIsAccepted(s: State, h: Host, t: seq<HostObservation>, lo: nat, hi: nat)
    requires Shaped(h) && Short(h) && t == h.Stream() && lo <= hi <= |t| && AllTakeable(h, lo, hi)
    requires Follows(s, h.run, h.generation, t, lo)
    ensures Follows(DeliverAll(s, t[lo..hi]), h.run, h.generation, t, hi)
    ensures FirstRejection(s, t[lo..hi]).None? && NewlyAccepted(s, t[lo..hi]) == t[lo..hi]
    decreases hi
  {
    hide *;
    if lo < hi {
      LastTakeable(h, lo, hi);
      StretchIsAccepted(s, h, t, lo, hi - 1);
      DeliverOneMore(DeliverAll(s, t[lo..hi - 1]), h, hi - 1);
      AppendAccepted(s, t[lo..hi - 1], t[hi - 1]);
      assert t[lo..hi - 1] + [t[hi - 1]] == t[lo..hi];
    } else {
      NothingToAccept(s, t, lo);
    }
  }

  lemma LastTakeable(h: Host, lo: nat, hi: nat)
    requires lo < hi && AllTakeable(h, lo, hi)
    ensures hi <= |h.Stream()| && AllTakeable(h, lo, hi - 1) && Takes(h, hi) == hi
  {
    hide Takes;
  }

  lemma NothingToAccept(s: State, t: seq<HostObservation>, lo: nat)
    requires lo <= |t|
    ensures t[lo..lo] == [] && DeliverAll(s, []) == s
    ensures FirstRejection(s, []).None? && NewlyAccepted(s, []) == []
  {
  }

  /** The only observation that cannot be taken is the final one after a dropped chunk, and it is no output. */
  lemma UntakeableIsFinal(h: Host, m: nat)
    requires Shaped(h) && 0 < m <= |h.Stream()| && Takes(h, m) != m
    ensures m == |h.Stream()| && !h.Stream()[m - 1].kind.Output? && h.dropped.Some? && h.reader.Finished?
  {
  }

  /** What a commit of the drained items comes to when the authority has followed the stream so far. */
  ghost predicate CommitsStretch(h: Host, lo: nat, p: BatchEnd) {
    && p.end <= |h.items|
    && Follows(p.state, h.run, h.generation, h.Stream(), lo + p.end)
    && match p.result
       case Committed => p.end == |h.items| && AllTakeable(h, lo, |h.Stream()|)
       case Rejected(e) =>
         e == OutOfOrder && p.end == |h.items| - 1 && Takes(h, |h.Stream()|) == |h.Stream()| - 1
       case Failed => p.end < |h.items|
  }

  lemma OutputUnitIsTakeable(h: Host, index: nat)
    requires Shaped(h) && index < |h.items| && h.items[index].kind.Output?
    ensures AllTakeable(h, |h.drained| + index, |h.drained| + UnitEnd(h.items, index))
  {
    hide Shaped, Takes, GroupEnd;
    var end, lo, t := UnitEnd(h.items, index), |h.drained|, h.Stream();
    GroupIsOutput(h.items, index, index + 1);
    forall m | lo + index < m <= lo + end ensures Takes(h, m) == m {
      assert t[m - 1] == h.items[m - 1 - lo];
      if Takes(h, m) != m {
        UntakeableIsFinal(h, m);
      }
    }
  }

  /** A unit of the drained items can be taken as a whole, or it is the final observation after a gap. */
  lemma UnitOfStream(h: Host, index: nat)
    requires Shaped(h) && index < |h.items|
    ensures var end, lo := UnitEnd(h.items, index), |h.drained|;
            || AllTakeable(h, lo + index, lo + end)
            || (end == index + 1 == |h.items| && Takes(h, |h.Stream()|) != |h.Stream()|
                && !h.items[index].kind.Output?)
  {
    if h.items[index].kind.Output? {
      OutputUnitIsTakeable(h, index);
    } else {
      hide Shaped, Takes;
      var m := |h.drained| + index + 1;
      if Takes(h, m) != m {
        UntakeableIsFinal(h, m);
      }
    }
  }

  lemma TakeableCommits(s: State, h: Host, index: nat, v: StoreVerdict)
    requires Shaped(h) && Short(h) && index < |h.items|
    requires Follows(s, h.run, h.generation, h.Stream(), |h.drained| + index)
    requires AllTakeable(h, |h.drained| + index, |h.drained| + UnitEnd(h.items, index))
    ensures var unit := h.items[index..UnitEnd(h.items, index)];
            && !UnitResult(s, unit, v).Rejected?
            && (UnitResult(s, unit, v).Committed? <==> StoreTakesUnit(h.items[index], v))
            && Follows(DeliverAll(s, unit), h.run, h.generation, h.Stream(), |h.drained| + UnitEnd(h.items, index))
  {
    hide Shaped, Follows, Short, UnitEnd, AllTakeable, FirstRejection, NewlyAccepted, DeliverAll;
    var lo, t, end := |h.drained|, h.Stream(), UnitEnd(h.items, index);
    var unit := h.items[index..end];
    assert unit == t[lo + index..lo + end];
    StretchIsAccepted(s, h, t, lo + index, lo + end);
    SingleUnit(h.items, index);
  }

  lemma FinalAfterGapIsRejected(s: State, h: Host, index: nat, v: StoreVerdict)
    requires Shaped(h) && Short(h) && index + 1 == |h.items| && !h.items[index].kind.Output?
    requires Follows(s, h.run, h.generation, h.Stream(), |h.drained| + index)
    requires Takes(h, |h.Stream()|) != |h.Stream()|
    ensures UnitEnd(h.items, index) == |h.items| && Takes(h, |h.Stream()|) == |h.Stream()| - 1
    ensures var r := UnitResult(s, h.items[index..|h.items|], v); r == Rejected(OutOfOrder) || r.Failed?
  {
    hide Shaped, Follows, Short, FirstRejection, NewlyAccepted, Judge;
    var o := h.items[index];
    assert h.Stream()[|h.drained| + index] == o && h.items[index..|h.items|] == [o];
    DeliverOneMore(s, h, |h.drained| + index);
    NewlyAcceptedOne(s, o);
  }

  lemma TakeableJoins(h: Host, lo: nat, mid: nat, hi: nat)
    requires AllTakeable(h, lo, mid) && AllTakeable(h, mid, hi)
    ensures AllTakeable(h, lo, hi)
  {
  }

  lemma {:induction false} CommitFollows(s: State, h: Host, verdicts: seq<StoreVerdict>, index: nat)
    requires Shaped(h) && Short(h) && index <= |h.items| == |verdicts|
    requires Follows(s, h.run, h.generation, h.Stream(), |h.drained| + index)
    requires AllTakeable(h, |h.drained|, |h.drained| + index)
    ensures CommitsStretch(h, |h.drained|, CommitFrom(s, h.items, verdicts, index))
    decreases |h.items| - index
  {
    hide Shaped, Follows, Takes, Short, UnitEnd, UnitResult, UnitEvents, AllTakeable, DeliverAll, StoreTakesUnit;
    var lo := |h.drained|;
    if index < |h.items| {
      var end := UnitEnd(h.items, index);
      UnitOfStream(h, index);
      if AllTakeable(h, lo + index, lo + end) {
        TakeableCommits(s, h, index, verdicts[index]);
        TakeableJoins(h, lo, lo + index, lo + end);
        if UnitResult(s, h.items[index..end], verdicts[index]).Committed? {
          CommitFollows(DeliverAll(s, h.items[index..end]), h, verdicts, end);
        }
      } else {
        FinalAfterGapIsRejected(s, h, index, verdicts[index]);
      }
    }
  }

  /** In step, a batch commits exactly if no observation in it comes after a gap and the store takes every
      unit of it. */
  lemma {:induction false} CommitsIff(s: State, h: Host, verdicts: seq<StoreVerdict>, index: nat)
    requires Shaped(h) && Short(h) && index <= |h.items| == |verdicts|
    requires Follows(s, h.run, h.generation, h.Stream(), |h.drained| + index)
    ensures CommitFrom(s, h.items, verdicts, index).result.Committed? <==>
            AllTakeable(h, |h.drained| + index, |h.Stream()|) && StoreTakes(h.items, verdicts, index)
    decreases |h.items| - index
  {
    hide Shaped, Follows, Takes, Short, UnitEnd, UnitResult, UnitEvents, AllTakeable, DeliverAll, StoreTakesUnit;
    var lo := |h.drained|;
    if index == |h.items| {
      NothingLeftToTake(h);
    } else {
      var end := UnitEnd(h.items, index);
      UnitOfStream(h, index);
      if AllTakeable(h, lo + index, lo + end) {
        TakeableCommits(s, h, index, verdicts[index]);
        TakeableSplits(h, lo + index, lo + end, |h.Stream()|);
        if UnitResult(s, h.items[index..end], verdicts[index]).Committed? {
          CommitsIff(DeliverAll(s, h.items[index..end]), h, verdicts, end);
        }
      } else {
        FinalAfterGapIsRejected(s, h, index, verdicts[index]);
      }
    }
  }

  lemma NothingLeftToTake(h: Host)
    ensures AllTakeable(h, |h.Stream()|, |h.Stream()|)
  {
  }

  lemma TakeableSplits(h: Host, lo: nat, mid: nat, hi: nat)
    requires lo <= mid <= hi
    ensures AllTakeable(h, lo, hi) ==> AllTakeable(h, lo, mid) && AllTakeable(h, mid, hi)
    ensures AllTakeable(h, lo, mid) && AllTakeable(h, mid, hi) ==> AllTakeable(h, lo, hi)
  {
  }

  // ---------- stuck for good ----------

  lemma {:induction false} HeadRejected(s: State, os: seq<HostObservation>)
    requires os != [] && Judge(s, os[0]).Reject?
    ensures FirstRejection(s, os) == Some(Judge(s, os[0]).error)
  {
    hide Judge;
    if |os| == 1 {
      assert os == [os[0]];
      NewlyAcceptedOne(s, os[0]);
    } else {
      HeadRejected(s, os[..|os| - 1]);
    }
  }

  /** The authority is behind what was drained; then the next drained observation comes after a gap. */
  lemma BehindIsRejected(s: State, h: Host, n: nat)
    requires Shaped(h) && Short(h) && n < |h.drained| && h.items != []
    requires Follows(s, h.run, h.generation, h.Stream(), n)
    ensures Judge(s, h.items[0]) == Reject(OutOfOrder)
  {
    var m := |h.drained|;
    assert h.Stream()[m] == h.items[0];
    assert h.items[0].ordinal >= m + 1;
    assert (h.run, h.items[0].ordinal) !in s.applied;
  }

  lemma BehindCommitsNothing(s: State, h: Host, n: nat, verdicts: seq<StoreVerdict>)
    requires Shaped(h) && Short(h) && n < |h.drained| && |verdicts| == |h.items|
    requires Follows(s, h.run, h.generation, h.Stream(), n)
    ensures var p := CommitFrom(s, h.items, verdicts, 0);
            p.state == s && p.events == [] && (p.result.Committed? <==> h.items == [])
  {
    hide Shaped, Follows, Judge, Short, UnitEnd;
    if h.items != [] {
      BehindIsRejected(s, h, n);
      var unit := h.items[0..UnitEnd(h.items, 0)];
      HeadRejected(s, unit);
      HeadRejected(s, [h.items[0]]);
    }
  }

  // ---------- every run ----------

  ghost predicate AllCommitted(results: seq<CommitResult>) {
    forall i | 0 <= i < |results| :: results[i].Committed?
  }

  /** No append was refused and no payload was too large. */
  ghost predicate NoneFailed(results: seq<CommitResult>) {
    forall i | 0 <= i < |results| :: !results[i].Failed?
  }

  function Known(y: Hosted): int {
    NextExpected(y.authority.nextOrdinal, y.host.run) - 1
  }

  /** The authority holds exactly the first `Known` observations of the stream; they are everything drained
      exactly if every batch committed. A batch that neither committed nor failed lost its tail. */
  ghost predicate InStep(y: Hosted) {
    var h := y.host;
    && Good(h) && 0 <= Known(y) <= |h.drained|
    && Follows(y.authority, h.run, h.generation, h.Stream(), Known(y))
    && (Known(y) == |h.drained| <==> AllCommitted(y.results))
    && (AllCommitted(y.results) <==> !LostTail(h) && NoneFailed(y.results))
  }

  lemma FollowsKnown(s: State, run: RunId, generation: nat, t: seq<HostObservation>, n: nat)
    requires Follows(s, run, generation, t, n)
    ensures NextExpected(s.nextOrdinal, run) - 1 == n
  {
  }

  lemma LostTailStays(h: Host, step: Step)
    requires Good(h) && Enabled(h, step) && !step.Drain?
    ensures LostTail(Take(h, step)) <==> LostTail(h)
  {
    StreamStep(h, step);
  }

  lemma WorkInStep(y: Hosted, step: Step)
    requires InStep(y) && CanTurn(y, Work(step))
    ensures InStep(TakeTurn(y, Work(step))) && Known(TakeTurn(y, Work(step))) == Known(y)
  {
    hide Good, Follows, AllCommitted, NoneFailed, LostTail;
    StreamStep(y.host, step);
    GoodStep(y.host, step);
    LostTailStays(y.host, step);
    FollowsLonger(y.authority, y.host.run, y.host.generation, y.host.Stream(), Take(y.host, step).Stream(), Known(y));
  }

  lemma ElsewhereInStep(y: Hosted, o: HostObservation)
    requires InStep(y) && CanTurn(y, Elsewhere(o))
    ensures InStep(TakeTurn(y, Elsewhere(o))) && Known(TakeTurn(y, Elsewhere(o))) == Known(y)
  {
    hide Good, Follows, Deliver;
    var h := y.host;
    OtherRunKeepsFollowing(y.authority, o, h.run, h.generation, h.Stream(), Known(y));
    FollowsKnown(Deliver(y.authority, o), h.run, h.generation, h.Stream(), Known(y));
  }

  lemma AppendResult(results: seq<CommitResult>, r: CommitResult)
    ensures AllCommitted(results + [r]) <==> AllCommitted(results) && r.Committed?
    ensures NoneFailed(results + [r]) <==> NoneFailed(results) && !r.Failed?
  {
    var all := results + [r];
    assert all[|results|] == r;
    assert forall i | 0 <= i < |results| :: all[i] == results[i];
  }

  /** After a drain the tail is lost exactly if the last observation cannot be taken. */
  lemma DrainedLosesTail(h: Host)
    requires Good(h)
    ensures var h' := Take(h, Drain);
            && h'.Stream() == h'.drained == h.Stream()
            && (LostTail(h') <==> Takes(h, |h.Stream()|) != |h.Stream()|)
  {
  }

  lemma DrainInStep(y: Hosted, verdicts: seq<StoreVerdict>)
    requires InStep(y) && CanTurn(y, DrainAndCommit(verdicts)) && Short(y.host)
    ensures InStep(TakeTurn(y, DrainAndCommit(verdicts)))
    ensures Known(y) < |y.host.drained| ==> TakeTurn(y, DrainAndCommit(verdicts)).authority == y.authority
  {
    hide Follows, AllCommitted, NoneFailed, CommitFrom, Bounded, Evident, DropEndsKnown, Conserved;
    var h, y' := y.host, TakeTurn(y, DrainAndCommit(verdicts));
    var p := CommitFrom(y.authority, h.items, verdicts, 0);
    GoodStep(h, Drain);
    DrainedLosesTail(h);
    AppendResult(y.results, p.result);
    if Known(y) == |h.drained| {
      CommitFollows(y.authority, h, verdicts, 0);
      FollowsKnown(p.state, h.run, h.generation, h.Stream(), |h.drained| + p.end);
    } else {
      BehindCommitsNothing(y.authority, h, Known(y), verdicts);
      FollowsKnown(y.authority, h.run, h.generation, h.Stream(), Known(y));
    }
  }

  lemma TurnInStep(y: Hosted, m: Turn)
    requires InStep(y) && CanTurn(y, m) && Short(y.host)
    ensures InStep(TakeTurn(y, m)) && TakeTurn(y, m).host.run == y.host.run
    ensures Known(y) < |y.host.drained| ==>
              Known(TakeTurn(y, m)) == Known(y) && |y.host.drained| <= |TakeTurn(y, m).host.drained|
  {
    hide InStep, Known, CommitFrom, Deliver, Short;
    match m {
      case Work(step) =>
        StreamStep(y.host, step);
        WorkInStep(y, step);
      case Elsewhere(o) => ElsewhereInStep(y, o);
      case DrainAndCommit(verdicts) =>
        StreamStep(y.host, Drain);
        DrainInStep(y, verdicts);
        KnownByAuthority(y, TakeTurn(y, m));
    }
  }

  lemma KnownByAuthority(y: Hosted, z: Hosted)
    ensures y.authority == z.authority && y.host.run == z.host.run ==> Known(y) == Known(z)
  {
  }

  lemma TurnLengthens(y: Hosted, m: Turn)
    requires CanTurn(y, m)
    ensures Short(TakeTurn(y, m).host) ==> Short(y.host)
  {
    if m.Work? {
      StreamStep(y.host, m.step);
    } else if m.DrainAndCommit? {
      StreamStep(y.host, Drain);
    }
  }

  lemma {:induction false} TurnsInStep(y: Hosted, turns: seq<Turn>)
    requires InStep(y) && CanTake(y, turns) && Short(Taken(y, turns).host)
    ensures InStep(Taken(y, turns)) && Taken(y, turns).host.run == y.host.run
    ensures Known(y) < |y.host.drained| ==>
              Known(Taken(y, turns)) == Known(y) && |y.host.drained| <= |Taken(y, turns).host.drained|
  {
    hide InStep, Known, TakeTurn, CanTurn, Short;
    if turns != [] {
      var less, m := turns[..|turns| - 1], turns[|turns| - 1];
      TurnLengthens(Taken(y, less), m);
      TurnsInStep(y, less);
      TurnInStep(Taken(y, less), m);
    }
  }

  // ---------- the theorems ----------

  function Launched(run: RunId, generation: nat, maxChunk: nat, s: State): Hosted {
    Hosted(Spawned(run, generation, maxChunk), s, [], [])
  }

  lemma StartsInStep(run: RunId, generation: nat, maxChunk: nat, s: State)
    requires Ready(s, run, generation)
    ensures InStep(Launched(run, generation, maxChunk, s))
  {
    SpawnedIsGood(run, generation, maxChunk);
  }

  lemma DrainTakesAll(h: Host)
    requires Good(h) && !LostTail(h)
    ensures AllTakeable(h, |h.drained|, |h.Stream()|) <==> !LostTail(Take(h, Drain))
  {
    DrainedLosesTail(h);
  }

  lemma DrainCommitsIff(y: Hosted, verdicts: seq<StoreVerdict>)
    requires InStep(y) && CanTurn(y, DrainAndCommit(verdicts)) && Short(y.host)
    ensures var z := TakeTurn(y, DrainAndCommit(verdicts));
            AllCommitted(z.results) <==>
            AllCommitted(y.results) && !LostTail(z.host) && StoreTakes(y.host.items, verdicts, 0)
  {
    hide Follows, AllCommitted, NoneFailed, CommitFrom, StoreTakes, AllTakeable, LostTail;
    var h, p := y.host, CommitFrom(y.authority, y.host.items, verdicts, 0);
    AppendResult(y.results, p.result);
    if AllCommitted(y.results) {
      CommitsIff(y.authority, h, verdicts, 0);
      DrainTakesAll(h);
    }
  }

  lemma LostTailForGood(h: Host)
    requires LostTail(h)
    ensures LostTail(Take(h, Drain))
  {
    assert h.drained + [] == h.drained;
  }

  /** From a host in step with nothing answered yet: every batch committed exactly if no tail was lost and
      the store took every batch that was drained. */
  lemma {:induction false} TurnsCommitIff(y: Hosted, turns: seq<Turn>)
    requires InStep(y) && AllCommitted(y.results) && CanTake(y, turns) && Short(Taken(y, turns).host)
    ensures AllCommitted(Taken(y, turns).results) <==> !LostTail(Taken(y, turns).host) && StoreTook(y, turns)
  {
    if turns == [] {
      assert Taken(y, turns) == y;
    } else {
      hide InStep, AllCommitted, Short, LostTail, StoreTakes, CommitFrom, Deliver, UnitEvents;
      var less, m := turns[..|turns| - 1], turns[|turns| - 1];
      var x := Taken(y, less);
      TurnLengthens(x, m);
      TurnsInStep(y, less);
      TurnsCommitIff(y, less);
      InStepIsGood(x);
      match m {
        case Work(step) => LostTailStays(x.host, step);
        case Elsewhere(_) =>
        case DrainAndCommit(verdicts) =>
          DrainCommitsIff(x, verdicts);
          if LostTail(x.host) {
            LostTailForGood(x.host);
          }
      }
    }
  }

  lemma InStepIsGood(y: Hosted)
    requires InStep(y)
    ensures Good(y.host)
  {
  }

  /** In every interleaving, whatever the store decides: the authority holds exactly a prefix of the stream;
      that prefix is everything drained exactly if every batch committed; and every batch committed exactly
      if no tail was lost and the store took every unit of every batch that was drained. */
  lemma SessionPipelineHolds(run: RunId, generation: nat, maxChunk: nat, s: State, turns: seq<Turn>)
    requires Ready(s, run, generation)
    requires CanTake(Launched(run, generation, maxChunk, s), turns)
    requires Short(Taken(Launched(run, generation, maxChunk, s), turns).host)
    ensures Taken(Launched(run, generation, maxChunk, s), turns).host.run == run
    ensures InStep(Taken(Launched(run, generation, maxChunk, s), turns))
    ensures var y := Launched(run, generation, maxChunk, s);
            AllCommitted(Taken(y, turns).results) <==> !LostTail(Taken(y, turns).host) && StoreTook(y, turns)
  {
    hide InStep, Ready, Short, LostTail, StoreTook;
    var y := Launched(run, generation, maxChunk, s);
    StartsInStep(run, generation, maxChunk, s);
    TurnsInStep(y, turns);
    TurnsCommitIff(y, turns);
  }

  // ---------- after a refusal ----------

  /** Once a batch did not commit, nothing of the run is ever accepted again, whatever follows: its log,
      and with it its reported liveness, stay as they are. */
  lemma RefusalIsFinal(run: RunId, generation: nat, maxChunk: nat, s: State, turns: seq<Turn>, more: seq<Turn>)
    requires Ready(s, run, generation)
    requires CanTake(Launched(run, generation, maxChunk, s), turns)
    requires CanTake(Taken(Launched(run, generation, maxChunk, s), turns), more)
    requires Short(Taken(Taken(Launched(run, generation, maxChunk, s), turns), more).host)
    requires !AllCommitted(Taken(Launched(run, generation, maxChunk, s), turns).results)
    ensures var y := Taken(Launched(run, generation, maxChunk, s), turns);
            var z := Taken(y, more);
            && NextExpected(z.authority.nextOrdinal, run) == NextExpected(y.authority.nextOrdinal, run)
            && LivenessOf(z.authority.liveness, run) == LivenessOf(y.authority.liveness, run)
            && (forall k: nat :: (run, k) in z.authority.applied <==> (run, k) in y.authority.applied)
            && (forall k: nat | (run, k) in y.authority.applied ::
                  z.authority.applied[(run, k)] == y.authority.applied[(run, k)])
  {
    var y := Taken(Launched(run, generation, maxChunk, s), turns);
    StreamOnlyGrows(y, more);
    SessionPipelineHolds(run, generation, maxChunk, s, turns);
    TurnsInStep(y, more);
    SameKnownSameLog(y, Taken(y, more));
  }

  lemma {:induction false} StreamOnlyGrows(y: Hosted, turns: seq<Turn>)
    requires CanTake(y, turns)
    ensures y.host.Stream() <= Taken(y, turns).host.Stream()
  {
    hide CommitFrom, Deliver;
    if turns != [] {
      var less, m := turns[..|turns| - 1], turns[|turns| - 1];
      StreamOnlyGrows(y, less);
      if m.Work? {
        StreamStep(Taken(y, less).host, m.step);
      } else if m.DrainAndCommit? {
        StreamStep(Taken(y, less).host, Drain);
      }
    }
  }

  lemma SameKnownSameLog(y: Hosted, z: Hosted)
    requires InStep(y) && InStep(z) && Known(y) == Known(z) && y.host.run == z.host.run
    requires y.host.Stream() <= z.host.Stream()
    ensures LivenessOf(z.authority.liveness, y.host.run) == LivenessOf(y.authority.liveness, y.host.run)
    ensures forall k: nat :: (y.host.run, k) in z.authority.applied <==> (y.host.run, k) in y.authority.applied
    ensures forall k: nat | (y.host.run, k) in y.authority.applied ::
              z.authority.applied[(y.host.run, k)] == y.authority.applied[(y.host.run, k)]
  {
    hide Good, AllCommitted, NoneFailed;
    var n := Known(y);
    assert forall i | 0 <= i < n :: z.host.Stream()[i] == y.host.Stream()[i];
    forall k: nat | (y.host.run, k) in y.authority.applied
      ensures z.authority.applied[(y.host.run, k)] == y.authority.applied[(y.host.run, k)]
    {
      assert 1 <= k <= n;
      assert y.authority.applied[(y.host.run, k - 1 + 1)] == y.host.Stream()[k - 1].kind;
      assert z.authority.applied[(y.host.run, k - 1 + 1)] == z.host.Stream()[k - 1].kind;
    }
  }

  const REFUSED_START := [DrainAndCommit([StoreVerdict(false, false)])]

  lemma StartCanBeRefused(run: RunId, generation: nat, maxChunk: nat, s: State)
    requires Ready(s, run, generation)
    ensures CanTake(Launched(run, generation, maxChunk, s), REFUSED_START)
    ensures var y := Taken(Launched(run, generation, maxChunk, s), REFUSED_START);
            y.authority == s && !AllCommitted(y.results)
  {
    var y := Launched(run, generation, maxChunk, s);
    var o := y.host.items[0];
    assert Judge(s, o).Accept?;
    NewlyAcceptedOne(s, o);
    assert REFUSED_START[..0] == [] && y.host.items[0..1] == [o];
    assert CommitFrom(s, y.host.items, [StoreVerdict(false, false)], 0).result.Failed?;
    assert Taken(y, []) == y;
    assert Taken(y, REFUSED_START).results[0].Failed?;
  }

  /** One refused append is enough: if the very first batch is refused, the run is reported as live for
      ever, whatever the host goes on to publish, and even if it drops no chunk. */
  lemma RefusedStartStrandsRun(run: RunId, generation: nat, maxChunk: nat, s: State, more: seq<Turn>)
    requires Ready(s, run, generation)
    requires CanTake(Launched(run, generation, maxChunk, s), REFUSED_START)
    requires CanTake(Taken(Launched(run, generation, maxChunk, s), REFUSED_START), more)
    requires Short(Taken(Taken(Launched(run, generation, maxChunk, s), REFUSED_START), more).host)
    ensures var z := Taken(Taken(Launched(run, generation, maxChunk, s), REFUSED_START), more);
            NextExpected(z.authority.nextOrdinal, run) == 1 && LivenessOf(z.authority.liveness, run) == ScriptedLive
  {
    hide CanTake, Taken, AllCommitted;
    StartCanBeRefused(run, generation, maxChunk, s);
    RefusalIsFinal(run, generation, maxChunk, s, REFUSED_START, more);
  }
}

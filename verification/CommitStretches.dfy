/** The units of a batch are its stretches: the longest runs of output of one agent run, and every other
    observation by itself. */
module CommitStretches {
  import opened Observations
  import opened Authority
  import opened DeliveryConvergence
  import opened CommitSpec

  /** Positions `i - 1` and `i` are output of one run. */
  predicate Adjoins(os: seq<HostObservation>, i: int) {
    && 0 < i < |os| && os[i - 1].kind.Output? && os[i].kind.Output? && os[i - 1].runId == os[i].runId
  }

  /** `lo` to `hi` is a stretch: joined throughout, and to nothing on either side. */
  ghost predicate IsStretch(os: seq<HostObservation>, lo: nat, hi: nat) {
    && lo < hi <= |os| && !Adjoins(os, lo) && !Adjoins(os, hi)
    && forall i | lo < i < hi :: Adjoins(os, i)
  }

  lemma {:induction false} GroupEndJoins(os: seq<HostObservation>, index: nat, end: nat)
    requires index < end <= |os| && os[index].kind.Output?
    requires forall i | index < i < end :: Adjoins(os, i)
    ensures forall i | index < i < GroupEnd(os, index, end) :: Adjoins(os, i)
    ensures !Adjoins(os, GroupEnd(os, index, end))
    decreases |os| - end
  {
    SameRunThroughout(os, index, end - 1);
    if end < |os| && os[end].runId == os[index].runId && os[end].kind.Output? {
      GroupEndJoins(os, index, end + 1);
    }
  }

  lemma {:induction false} SameRunThroughout(os: seq<HostObservation>, index: nat, last: nat)
    requires index <= last < |os| && os[index].kind.Output? && forall i | index < i <= last :: Adjoins(os, i)
    ensures os[last].runId == os[index].runId && os[last].kind.Output?
  {
    if index < last {
      SameRunThroughout(os, index, last - 1);
      assert Adjoins(os, last);
    }
  }

  /** A unit that starts where nothing is joined is a stretch. */
  lemma UnitIsStretch(os: seq<HostObservation>, index: nat)
    requires index < |os| && !Adjoins(os, index)
    ensures IsStretch(os, index, UnitEnd(os, index))
  {
    if os[index].kind.Output? {
      GroupEndJoins(os, index, index + 1);
    }
  }

  lemma StretchesMatch(os: seq<HostObservation>, lo: nat, hi: nat, hi': nat)
    requires IsStretch(os, lo, hi) && IsStretch(os, lo, hi')
    ensures hi == hi'
  {
    assert hi < hi' ==> Adjoins(os, hi);
    assert hi' < hi ==> Adjoins(os, hi');
  }

  /** A batch never stops inside a stretch. */
  lemma {:induction false} StopsBetweenStretches(
      s: State, os: seq<HostObservation>, verdicts: seq<StoreVerdict>, index: nat)
    requires |verdicts| == |os| && index <= |os| && !Adjoins(os, index)
    ensures !Adjoins(os, CommitFrom(s, os, verdicts, index).end)
    decreases |os| - index
  {
    hide Adjoins, UnitResult, UnitEvents, UnitEnd, DeliverAll;
    if index < |os| {
      var end := UnitEnd(os, index);
      UnitIsStretch(os, index);
      if UnitResult(s, os[index..end], verdicts[index]).Committed? {
        StopsBetweenStretches(DeliverAll(s, os[index..end]), os, verdicts, end);
      }
    }
  }

  /** The events of a batch that got to `end`, cut at the stretch from `lo` to `hi`: those of what comes
      before it, one event for what is new in it or none if nothing is, and those of what comes after. */
  ghost predicate CutAt(
      s: State, os: seq<HostObservation>, from: nat, lo: nat, hi: nat, end: nat,
      before: seq<DurableEvent>, own: seq<DurableEvent>, after: seq<DurableEvent>)
    requires from <= lo <= hi <= end <= |os|
  {
    var t := DeliverAll(s, os[from..lo]);
    var news := NewlyAccepted(t, os[lo..hi]);
    && Transcribes(before, NewlyAccepted(s, os[from..lo]))
    && (if news == [] then own == [] else |own| == 1 && Describes(own[0], news))
    && Transcribes(after, NewlyAccepted(DeliverAll(t, os[lo..hi]), os[hi..end]))
  }

  lemma OwnEvent(s: State, os: seq<HostObservation>, index: nat)
    requires index < |os|
    ensures var unit := os[index..UnitEnd(os, index)];
            var own := UnitEvents(s, unit);
            if NewlyAccepted(s, unit) == [] then own == [] else |own| == 1 && Describes(own[0], NewlyAccepted(s, unit))
  {
    hide NewlyAccepted, DeliverAll, GroupEnd, Judge;
    var unit := os[index..UnitEnd(os, index)];
    if unit[0].kind.Output? {
      GroupIsOutput(os, index, index + 1);
      NewIsConsecutive(s, unit, unit[0].runId);
    } else {
      SingleUnit(os, index);
      NewlyAcceptedOne(s, unit[0]);
    }
  }

  /** Every committed stretch with something new in it has exactly one event of its own, every other has
      none, and no event belongs to two stretches. */
  lemma {:induction false} OneEventPerStretch(
      s: State, os: seq<HostObservation>, verdicts: seq<StoreVerdict>, index: nat, lo: nat, hi: nat)
    returns (before: seq<DurableEvent>, own: seq<DurableEvent>, after: seq<DurableEvent>)
    requires |verdicts| == |os| && index <= lo && !Adjoins(os, index) && IsStretch(os, lo, hi)
    requires hi <= CommitFrom(s, os, verdicts, index).end <= |os|
    ensures var p := CommitFrom(s, os, verdicts, index);
            p.events == before + own + after && CutAt(s, os, index, lo, hi, p.end, before, own, after)
    decreases |os| - index
  {
    hide Adjoins, UnitResult, UnitEvents, UnitEnd, DeliverAll, NewlyAccepted, Transcribes, Describes;
    var end := UnitEnd(os, index);
    var unit := os[index..end];
    var t := DeliverAll(s, unit);
    UnitIsStretch(os, index);
    CommitTranscribes(s, os, verdicts, index);
    assert UnitResult(s, unit, verdicts[index]).Committed?;
    var p := CommitFrom(t, os, verdicts, end);
    if index == lo {
      StretchesMatch(os, lo, hi, end);
      CommitTranscribes(t, os, verdicts, end);
      before, own, after := [], UnitEvents(s, unit), p.events;
      OwnEvent(s, os, index);
      assert os[index..index] == [];
      NothingToTranscribe();
      assert [] + own + after == own + after;
    } else {
      assert lo < end ==> Adjoins(os, lo);
      var first;
      first, own, after := OneEventPerStretch(t, os, verdicts, end, lo, hi);
      before := UnitEvents(s, unit) + first;
      assert os[index..lo] == unit + os[end..lo];
      DeliverAllAppend(s, unit, os[end..lo]);
      NewlyAcceptedAppend(s, unit, os[end..lo]);
      UnitTranscribes(s, os, index);
      TranscribesAppend(UnitEvents(s, unit), first, NewlyAccepted(s, unit), NewlyAccepted(t, os[end..lo]));
      assert UnitEvents(s, unit) + (first + own + after) == before + own + after;
    }
  }
}

/** What committing a batch of observations comes to, on values: a stretch of output of one run commits
    as a group, anything else by itself, and the first unit that does not commit ends the batch. */
module CommitSpec {
  import opened Basics
  import opened Observations
  import opened Authority
  import opened DeliveryConvergence

  datatype DurableEvent =
    | OutputEvent(run: RunId, bytes: seq<Byte>, first: nat, last: nat)
    | ObservationEvent(o: HostObservation)

  datatype CommitResult = Committed | Rejected(error: ObserveError) | Failed

  /** What the surroundings decide for the unit at one position: the payload is too large to store, and
      the store accepts the append. */
  datatype StoreVerdict = StoreVerdict(oversized: bool, accepts: bool)

  function OutputBytes(k: Kind): seq<Byte> {
    if k.Output? then k.bytes else []
  }

  /** The deliveries of `os` that are newly accepted, in order. */
  function NewlyAccepted(s: State, os: seq<HostObservation>): seq<HostObservation> {
    if os == [] then []
    else
      var before, o := os[..|os| - 1], os[|os| - 1];
      NewlyAccepted(s, before) + if Judge(DeliverAll(s, before), o).Accept? then [o] else []
  }

  /** The answer to the first delivery of `os` that is rejected. */
  function FirstRejection(s: State, os: seq<HostObservation>): Option<ObserveError> {
    if os == [] then None
    else
      var before := os[..|os| - 1];
      match FirstRejection(s, before)
      case Some(e) => Some(e)
      case None =>
        match Judge(DeliverAll(s, before), os[|os| - 1])
        case Reject(e) => Some(e)
        case _ => None
  }

  // ---------- units ----------

  function GroupEnd(os: seq<HostObservation>, index: nat, end: nat): (r: nat)
    requires index < end <= |os|
    ensures end <= r <= |os|
    decreases |os| - end
  {
    if end < |os| && os[end].runId == os[index].runId && os[end].kind.Output? then GroupEnd(os, index, end + 1)
    else end
  }

  /** Where the unit that starts at `index` ends. */
  function UnitEnd(os: seq<HostObservation>, index: nat): (r: nat)
    requires index < |os|
    ensures index < r <= |os|
  {
    if os[index].kind.Output? then GroupEnd(os, index, index + 1) else index + 1
  }

  /** A group is rejected with its first rejected member; the store is asked only if something is new. */
  function GroupResult(s: State, group: seq<HostObservation>, v: StoreVerdict): CommitResult {
    match FirstRejection(s, group)
    case Some(e) => Rejected(e)
    case None => if NewlyAccepted(s, group) != [] && !v.accepts then Failed else Committed
  }

  /** By itself an observation must also fit the store. */
  function ObservationResult(s: State, o: HostObservation, v: StoreVerdict): CommitResult {
    if v.oversized then Failed else GroupResult(s, [o], v)
  }

  function UnitResult(s: State, unit: seq<HostObservation>, v: StoreVerdict): CommitResult
    requires unit != []
  {
    if unit[0].kind.Output? then GroupResult(s, unit, v) else ObservationResult(s, unit[0], v)
  }

  function BytesOf(os: seq<HostObservation>): seq<Byte> {
    if os == [] then [] else BytesOf(os[..|os| - 1]) + OutputBytes(os[|os| - 1].kind)
  }

  /** What a committed unit appends: one event for what is new in it, if anything is. */
  function UnitEvents(s: State, unit: seq<HostObservation>): seq<DurableEvent>
    requires unit != []
  {
    var news := NewlyAccepted(s, unit);
    if news == [] then []
    else if unit[0].kind.Output? then
      [OutputEvent(news[0].runId, BytesOf(news), news[0].ordinal, news[|news| - 1].ordinal)]
    else [ObservationEvent(unit[0])]
  }

  /** Where a batch got to: the authority's state, the answer, the position of the first observation that
      was not committed, and the events appended on the way. */
  datatype BatchEnd = BatchEnd(state: State, result: CommitResult, end: nat, events: seq<DurableEvent>)

  function Prefixed(events: seq<DurableEvent>, p: BatchEnd): BatchEnd {
    p.(events := events + p.events)
  }

  function CommitFrom(s: State, os: seq<HostObservation>, verdicts: seq<StoreVerdict>, index: nat): BatchEnd
    requires |verdicts| == |os| && index <= |os|
    decreases |os| - index
  {
    if index == |os| then BatchEnd(s, Committed, index, [])
    else
      var end := UnitEnd(os, index);
      var unit := os[index..end];
      var r := UnitResult(s, unit, verdicts[index]);
      if r.Committed? then Prefixed(UnitEvents(s, unit), CommitFrom(DeliverAll(s, unit), os, verdicts, end))
      else BatchEnd(s, r, index, [])
  }

  // ---------- what the durable events say ----------

  /** The event is the record of exactly these observations. */
  predicate Describes(e: DurableEvent, os: seq<HostObservation>) {
    match e
    case ObservationEvent(o) => os == [o]
    case OutputEvent(run, bytes, first, last) =>
      && os != [] && last == first + |os| - 1 && bytes == BytesOf(os)
      && forall i | 0 <= i < |os| :: os[i].runId == run && os[i].kind.Output? && os[i].ordinal == first + i
  }

  /** The events are the record of exactly these observations, one stretch after the other. */
  ghost predicate Transcribes(events: seq<DurableEvent>, os: seq<HostObservation>)
    decreases |events|
  {
    if events == [] then os == []
    else
      exists k | 0 <= k <= |os| ::
        Transcribes(events[..|events| - 1], os[..k]) && Describes(events[|events| - 1], os[k..])
  }

  lemma TranscribesOne(e: DurableEvent, os: seq<HostObservation>)
    requires Describes(e, os)
    ensures Transcribes([e], os)
  {
    assert [e][..0] == [] && os[..0] == [] && os[0..] == os;
    assert Transcribes([e][..0], os[..0]) && Describes([e][0], os[0..]);
  }

  lemma {:induction false} TranscribesAppend(
      d: seq<DurableEvent>, e: seq<DurableEvent>, a: seq<HostObservation>, b: seq<HostObservation>)
    requires Transcribes(d, a) && Transcribes(e, b)
    ensures Transcribes(d + e, a + b)
    decreases |e|
  {
    hide Describes;
    if e == [] {
      assert d + e == d && a + b == a;
    } else {
      var n := |e| - 1;
      var k :| 0 <= k <= |b| && Transcribes(e[..n], b[..k]) && Describes(e[n], b[k..]);
      TranscribesAppend(d, e[..n], a, b[..k]);
      var i := |a| + k;
      assert (d + e)[..|d + e| - 1] == d + e[..n];
      assert (a + b)[..i] == a + b[..k] && (a + b)[i..] == b[k..];
    }
  }

  lemma {:induction false} NewlyAcceptedAppend(s: State, a: seq<HostObservation>, b: seq<HostObservation>)
    ensures NewlyAccepted(s, a + b) == NewlyAccepted(s, a) + NewlyAccepted(DeliverAll(s, a), b)
  {
    hide Judge, Deliver;
    if b == [] {
      assert a + b == a;
    } else {
      var b' := b[..|b| - 1];
      assert (a + b)[..|a + b| - 1] == a + b';
      NewlyAcceptedAppend(s, a, b');
      DeliverAllAppend(s, a, b');
    }
  }

  lemma NewlyAcceptedOne(s: State, o: HostObservation)
    ensures NewlyAccepted(s, [o]) == if Judge(s, o).Accept? then [o] else []
    ensures FirstRejection(s, [o]) == match Judge(s, o) case Reject(e) => Some(e) case _ => None
  {
    hide Judge;
    assert [o][..0] == [];
  }

  // ---------- a batch is transcribed ----------

  lemma {:induction false} GroupIsOutput(os: seq<HostObservation>, index: nat, end: nat)
    requires index < end <= |os|
    requires forall i | index <= i < end :: os[i].kind.Output? && os[i].runId == os[index].runId
    ensures forall i | index <= i < GroupEnd(os, index, end) :: os[i].kind.Output? && os[i].runId == os[index].runId
    decreases |os| - end
  {
    if end < |os| && os[end].runId == os[index].runId && os[end].kind.Output? {
      GroupIsOutput(os, index, end + 1);
    }
  }

  lemma SingleUnit(os: seq<HostObservation>, index: nat)
    requires index < |os|
    ensures !os[index].kind.Output? ==> os[index..UnitEnd(os, index)] == [os[index]]
  {
  }

  lemma AcceptedNext(s: State, o: HostObservation)
    requires Judge(s, o).Accept?
    ensures o.ordinal == NextExpected(s.nextOrdinal, o.runId)
    ensures NextExpected(Deliver(s, o).nextOrdinal, o.runId) == o.ordinal + 1
  {
  }

  /** What is new in a stretch of output of one run continues the run's log without a gap. */
  lemma {:induction false} NewIsConsecutive(s: State, group: seq<HostObservation>, run: RunId)
    requires forall i | 0 <= i < |group| :: group[i].kind.Output? && group[i].runId == run
    ensures var news, first := NewlyAccepted(s, group), NextExpected(s.nextOrdinal, run);
            && NextExpected(DeliverAll(s, group).nextOrdinal, run) == first + |news|
            && forall i | 0 <= i < |news| ::
                 news[i].runId == run && news[i].kind.Output? && news[i].ordinal == first + i
  {
    if group != [] {
      hide Judge, Deliver;
      var before, o := group[..|group| - 1], group[|group| - 1];
      NewIsConsecutive(s, before, run);
      var t := DeliverAll(s, before);
      if Judge(t, o).Accept? {
        AcceptedNext(t, o);
      } else {
        NotAcceptedStays(t, o);
      }
    }
  }

  lemma NotAcceptedStays(s: State, o: HostObservation)
    requires !Judge(s, o).Accept?
    ensures Deliver(s, o) == s
  {
  }

  lemma GroupTranscribes(s: State, group: seq<HostObservation>)
    requires group != []
    requires forall i | 0 <= i < |group| :: group[i].kind.Output? && group[i].runId == group[0].runId
    ensures Transcribes(UnitEvents(s, group), NewlyAccepted(s, group))
  {
    hide Judge, Transcribes, NewlyAccepted, DeliverAll;
    var news := NewlyAccepted(s, group);
    if news == [] {
      NothingToTranscribe();
    } else {
      NewIsConsecutive(s, group, group[0].runId);
      TranscribesOne(UnitEvents(s, group)[0], news);
    }
  }

  lemma UnitTranscribes(s: State, os: seq<HostObservation>, index: nat)
    requires index < |os|
    ensures var unit := os[index..UnitEnd(os, index)]; Transcribes(UnitEvents(s, unit), NewlyAccepted(s, unit))
  {
    hide Judge, Transcribes, NewlyAccepted, DeliverAll, GroupEnd;
    var unit := os[index..UnitEnd(os, index)];
    if unit[0].kind.Output? {
      GroupIsOutput(os, index, index + 1);
      GroupTranscribes(s, unit);
    } else {
      SingleUnit(os, index);
      NewlyAcceptedOne(s, unit[0]);
      NothingToTranscribe();
      TranscribesOne(ObservationEvent(unit[0]), [unit[0]]);
    }
  }

  lemma NothingToTranscribe()
    ensures Transcribes([], [])
    ensures forall s :: NewlyAccepted(s, []) == [] && DeliverAll(s, []) == s
  {
  }

  /** The batch got the authority exactly as far as its answer says, and the events appended are the record
      of exactly what was newly accepted on the way. */
  lemma {:induction false} CommitTranscribes(
      s: State, os: seq<HostObservation>, verdicts: seq<StoreVerdict>, index: nat)
    requires |verdicts| == |os| && index <= |os|
    ensures var p := CommitFrom(s, os, verdicts, index);
            && index <= p.end <= |os| && (p.result.Committed? <==> p.end == |os|)
            && p.state == DeliverAll(s, os[index..p.end])
            && Transcribes(p.events, NewlyAccepted(s, os[index..p.end]))
    decreases |os| - index
  {
    hide Transcribes, NewlyAccepted, DeliverAll, UnitResult, UnitEvents, UnitEnd;
    assert os[index..index] == [];
    NothingToTranscribe();
    if index < |os| {
      var end := UnitEnd(os, index);
      var unit := os[index..end];
      if UnitResult(s, unit, verdicts[index]).Committed? {
        var t := DeliverAll(s, unit);
        CommitTranscribes(t, os, verdicts, end);
        var p := CommitFrom(t, os, verdicts, end);
        assert os[index..p.end] == unit + os[end..p.end];
        UnitTranscribes(s, os, index);
        DeliverAllAppend(s, unit, os[end..p.end]);
        NewlyAcceptedAppend(s, unit, os[end..p.end]);
        TranscribesAppend(UnitEvents(s, unit), p.events, NewlyAccepted(s, unit), NewlyAccepted(t, os[end..p.end]));
      }
    }
  }
}

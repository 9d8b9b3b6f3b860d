/** Committing observations: the authority applies them in memory, the store appends the
    durable event, and a failed append or a rejected member takes the whole group back. */
module SessionCommit {
  import opened Basics
  import opened Observations
  import opened Authority
  import opened AuthorityRuns
  import opened DeliveryConvergence
  import opened CommitSpec

  /** The output payloads applied for `run` at ordinals first .. last, concatenated. */
  function AppliedBytes(applied: map<(RunId, nat), Kind>, run: RunId, first: nat, last: int): seq<Byte>
    decreases last
  {
    if last < first || last <= 0 then []
    else
      AppliedBytes(applied, run, first, last - 1) +
      if (run, last) in applied then OutputBytes(applied[(run, last)]) else []
  }

  function EventBytes(e: DurableEvent, run: RunId): seq<Byte> {
    match e
    case OutputEvent(r, bytes, _, _) => if r == run then bytes else []
    case ObservationEvent(o) => if o.runId == run then OutputBytes(o.kind) else []
  }

  /** The output payloads durably recorded for `run`. */
  function DurableBytes(events: seq<DurableEvent>, run: RunId): seq<Byte> {
    if events == [] then []
    else DurableBytes(events[..|events| - 1], run) + EventBytes(events[|events| - 1], run)
  }

  /** Memory and store agree: for every run, the durable output is the applied output. */
  ghost predicate DurableMatches(s: State, events: seq<DurableEvent>) {
    forall run: RunId ::
      DurableBytes(events, run) == AppliedBytes(s.applied, run, 1, NextExpected(s.nextOrdinal, run) - 1)
  }

  lemma {:induction false} AppliedBytesFrame(
      a: map<(RunId, nat), Kind>, b: map<(RunId, nat), Kind>, run: RunId, first: nat, last: int)
    requires forall n: nat | first <= n <= last ::
               ((run, n) in a <==> (run, n) in b) && ((run, n) in a ==> a[(run, n)] == b[(run, n)])
    ensures AppliedBytes(a, run, first, last) == AppliedBytes(b, run, first, last)
    decreases last
  {
    if first <= last && last > 0 {
      AppliedBytesFrame(a, b, run, first, last - 1);
    }
  }

  lemma {:induction false} AppliedBytesSplit(a: map<(RunId, nat), Kind>, run: RunId, mid: int, last: int)
    requires 0 <= mid <= last
    ensures AppliedBytes(a, run, 1, last) == AppliedBytes(a, run, 1, mid) + AppliedBytes(a, run, mid + 1, last)
    decreases last
  {
    if mid < last {
      AppliedBytesSplit(a, run, mid, last - 1);
    }
  }

  /** `t` extends `s` only in run `run`. */
  ghost predicate Extends(s: State, t: State, run: RunId) {
    && Inv(s) && Inv(t)
    && (forall k | k in s.applied :: k in t.applied && t.applied[k] == s.applied[k])
    && (forall r: RunId | r != run :: NextExpected(t.nextOrdinal, r) == NextExpected(s.nextOrdinal, r))
    && NextExpected(s.nextOrdinal, run) <= NextExpected(t.nextOrdinal, run)
  }

  lemma AcceptedExtends(s: State, t: State, o: HostObservation)
    requires Extends(s, t, o.runId) && Judge(t, o).Accept?
    ensures Extends(s, Accepted(t, o), o.runId)
  {
    AcceptedKeepsInv(t, o);
    assert (o.runId, o.ordinal) !in s.applied;
  }

  lemma SliceGrows(t: State, o: HostObservation, first: nat)
    requires Inv(t) && Judge(t, o).Accept? && 1 <= first <= o.ordinal
    ensures AppliedBytes(Accepted(t, o).applied, o.runId, first, o.ordinal)
            == AppliedBytes(t.applied, o.runId, first, o.ordinal - 1) + OutputBytes(o.kind)
  {
    AppliedBytesFrame(t.applied, Accepted(t, o).applied, o.runId, first, o.ordinal - 1);
  }

  lemma OldSliceStays(s: State, t: State, run: RunId, r: RunId)
    requires Extends(s, t, run)
    ensures var n := NextExpected(s.nextOrdinal, r) - 1;
            n >= 0 && AppliedBytes(s.applied, r, 1, n) == AppliedBytes(t.applied, r, 1, n)
  {
    var n := NextExpected(s.nextOrdinal, r) - 1;
    forall m: nat | 1 <= m <= n
      ensures (r, m) in s.applied && (r, m) in t.applied && s.applied[(r, m)] == t.applied[(r, m)]
    {
      assert (r, m) in s.applied;
    }
    AppliedBytesFrame(s.applied, t.applied, r, 1, n);
  }

  /** What `e` must carry for `r` when the authority goes from `s` to `t`. */
  function NewBytes(s: State, t: State, run: RunId, r: RunId): seq<Byte> {
    var first, last := NextExpected(s.nextOrdinal, run), NextExpected(t.nextOrdinal, run) - 1;
    if r == run then AppliedBytes(t.applied, run, first, last) else []
  }

  lemma EventMatchesRun(s: State, t: State, events: seq<DurableEvent>, e: DurableEvent, run: RunId, r: RunId)
    requires Extends(s, t, run) && EventBytes(e, r) == NewBytes(s, t, run, r)
    requires DurableBytes(events, r) == AppliedBytes(s.applied, r, 1, NextExpected(s.nextOrdinal, r) - 1)
    ensures DurableBytes(events + [e], r) == AppliedBytes(t.applied, r, 1, NextExpected(t.nextOrdinal, r) - 1)
  {
    hide Inv, AppliedBytes, EventBytes;
    assert (events + [e])[..|events|] == events;
    OldSliceStays(s, t, run, r);
    if r == run {
      AppliedBytesSplit(t.applied, r, NextExpected(s.nextOrdinal, r) - 1, NextExpected(t.nextOrdinal, r) - 1);
    }
  }

  /** Appending the event for exactly the newly applied ordinals keeps store and memory equal. */
  lemma EventKeepsMatch(s: State, t: State, events: seq<DurableEvent>, e: DurableEvent, run: RunId)
    requires Extends(s, t, run) && DurableMatches(s, events)
    requires forall r: RunId :: EventBytes(e, r) == NewBytes(s, t, run, r)
    ensures DurableMatches(t, events + [e])
  {
    hide Extends, AppliedBytes, DurableBytes, EventBytes, NewBytes;
    forall r: RunId
      ensures DurableBytes(events + [e], r) == AppliedBytes(t.applied, r, 1, NextExpected(t.nextOrdinal, r) - 1)
    {
      assert EventBytes(e, r) == NewBytes(s, t, run, r);
      EventMatchesRun(s, t, events, e, run, r);
    }
  }

  predicate OutputGroup(group: seq<HostObservation>) {
    group != [] && forall i | 0 <= i < |group| :: group[i].kind.Output? && group[i].runId == group[0].runId
  }

  function KeptOf(kept: seq<Saved>): seq<HostObservation> {
    seq(|kept|, i requires 0 <= i < |kept| => kept[i].o)
  }

  /** After the members `done` of a group, taking back `kept` leads to `s0`. */
  ghost predicate Reversible(s0: State, s: State, done: seq<HostObservation>, kept: seq<Saved>) {
    s == DeliverAll(s0, done) && s == Surviving(s0, kept) && WellKept(s0, kept)
  }

  /** None of the members `done` was rejected, and `kept` are the newly accepted ones. */
  ghost predicate KeepsNew(s0: State, done: seq<HostObservation>, kept: seq<Saved>) {
    FirstRejection(s0, done).None? && NewlyAccepted(s0, done) == KeptOf(kept)
  }

  /** `joined` is what the kept members added to run `run`, at consecutive ordinals. */
  ghost predicate Contiguous(s0: State, s: State, kept: seq<Saved>, joined: seq<Byte>, run: RunId) {
    var first := NextExpected(s0.nextOrdinal, run);
    && Extends(s0, s, run)
    && NextExpected(s.nextOrdinal, run) == first + |kept|
    && (kept != [] ==> kept[0].o.runId == run && kept[0].o.ordinal == first
                       && kept[|kept| - 1].o.ordinal == first + |kept| - 1)
    && joined == AppliedBytes(s.applied, run, first, first + |kept| - 1)
  }

  /** The kept members are output of `run` at consecutive ordinals, and `joined` is their bytes. */
  ghost predicate Spelled(kept: seq<Saved>, joined: seq<Byte>, run: RunId, first: nat) {
    && joined == BytesOf(KeptOf(kept))
    && forall i | 0 <= i < |kept| ::
         kept[i].o.runId == run && kept[i].o.kind.Output? && kept[i].o.ordinal == first + i
  }

  lemma AcceptKeepsNew(
      s0: State, s: State, done: seq<HostObservation>, kept: seq<Saved>, o: HostObservation, top: Saved)
    requires KeepsNew(s0, done, kept) && s == DeliverAll(s0, done) && Judge(s, o).Accept? && top.o == o
    ensures KeepsNew(s0, done + [o], kept + [top])
  {
    hide Judge, Deliver;
    assert (done + [o])[..|done|] == done;
    assert KeptOf(kept + [top]) == KeptOf(kept) + [o];
  }

  lemma ReplayKeepsNew(s0: State, s: State, done: seq<HostObservation>, kept: seq<Saved>, o: HostObservation)
    requires KeepsNew(s0, done, kept) && s == DeliverAll(s0, done) && Judge(s, o).Replay?
    ensures KeepsNew(s0, done + [o], kept)
  {
    hide Judge, Deliver;
    assert (done + [o])[..|done|] == done;
  }

  lemma RejectionIsFirst(s0: State, s: State, group: seq<HostObservation>, i: nat)
    requires i < |group| && s == DeliverAll(s0, group[..i]) && FirstRejection(s0, group[..i]).None?
             && Judge(s, group[i]).Reject?
    ensures FirstRejection(s0, group) == Some(Judge(s, group[i]).error)
  {
    hide Judge, Deliver, DeliverAll;
    assert group[..i + 1][..i] == group[..i];
    RejectionStays(s0, group, i + 1);
  }

  lemma {:induction false} RejectionStays(s0: State, group: seq<HostObservation>, i: nat)
    requires i <= |group| && FirstRejection(s0, group[..i]).Some?
    ensures FirstRejection(s0, group) == FirstRejection(s0, group[..i])
  {
    hide Judge, DeliverAll;
    if i == |group| {
      assert group[..i] == group;
    } else {
      var before := group[..|group| - 1];
      assert before[..i] == group[..i];
      RejectionStays(s0, before, i);
    }
  }

  lemma AcceptSpelled(s: State, kept: seq<Saved>, joined: seq<Byte>, first: nat, o: HostObservation, top: Saved)
    requires Spelled(kept, joined, o.runId, first) && o.kind.Output? && top.o == o && o.ordinal == first + |kept|
    ensures Spelled(kept + [top], joined + OutputBytes(o.kind), o.runId, first)
  {
    var os := KeptOf(kept + [top]);
    assert os[..|os| - 1] == KeptOf(kept);
  }

  lemma SpelledIsUnitEvents(
      s0: State, group: seq<HostObservation>, kept: seq<Saved>, joined: seq<Byte>, first: nat)
    requires group != [] && Spelled(kept, joined, group[0].runId, first) && NewlyAccepted(s0, group) == KeptOf(kept)
    ensures kept != [] ==> kept[0].o.runId == group[0].runId
    ensures kept == [] <==> NewlyAccepted(s0, group) == []
    ensures group[0].kind.Output? ==>
              UnitEvents(s0, group)
              == if kept == [] then []
                 else [OutputEvent(kept[0].o.runId, joined, kept[0].o.ordinal, kept[|kept| - 1].o.ordinal)]
  {
    hide NewlyAccepted, BytesOf;
    if kept != [] {
      assert KeptOf(kept)[0] == kept[0].o && KeptOf(kept)[|kept| - 1] == kept[|kept| - 1].o;
    }
  }

  lemma GroupStart(s0: State, run: RunId)
    requires Inv(s0)
    ensures Reversible(s0, s0, [], []) && Contiguous(s0, s0, [], [], run)
    ensures KeepsNew(s0, [], []) && Spelled([], [], run, NextExpected(s0.nextOrdinal, run))
  {
  }

  lemma ReversibleParts(s0: State, s: State, done: seq<HostObservation>, kept: seq<Saved>)
    requires Reversible(s0, s, done, kept)
    ensures WellKept(s0, kept) && s == Surviving(s0, kept) && s == DeliverAll(s0, done)
  {
  }

  lemma KeepsNewParts(s0: State, done: seq<HostObservation>, kept: seq<Saved>)
    requires KeepsNew(s0, done, kept)
    ensures FirstRejection(s0, done).None? && NewlyAccepted(s0, done) == KeptOf(kept)
  {
  }

  lemma NextOrdinalIs(s0: State, s: State, kept: seq<Saved>, joined: seq<Byte>, o: HostObservation)
    requires Contiguous(s0, s, kept, joined, o.runId) && Judge(s, o).Accept?
    ensures o.ordinal == NextExpected(s0.nextOrdinal, o.runId) + |kept|
  {
  }

  lemma AcceptReversible(
      s0: State, s: State, done: seq<HostObservation>, kept: seq<Saved>, o: HostObservation, top: Saved)
    requires Reversible(s0, s, done, kept) && Judge(s, o).Accept?
    requires top == Saved(o, Recorded(s.liveness, o.runId), s.effects)
    ensures Reversible(s0, Accepted(s, o), done + [o], kept + [top])
    ensures |Accepted(s, o).applied| == |s.applied| + 1
  {
    AcceptedCounts(s, o);
    var kept' := kept + [top];
    assert kept'[..|kept'| - 1] == kept;
    assert (done + [o])[..|done|] == done;
    assert Surviving(s0, kept') == Accepted(s, o);
  }

  lemma ReplayReversible(s0: State, s: State, done: seq<HostObservation>, kept: seq<Saved>, o: HostObservation)
    requires Reversible(s0, s, done, kept) && !Judge(s, o).Accept?
    ensures Reversible(s0, s, done + [o], kept)
  {
    assert (done + [o])[..|done|] == done;
  }

  lemma AcceptContiguous(s0: State, s: State, kept: seq<Saved>, joined: seq<Byte>, o: HostObservation, top: Saved)
    requires Contiguous(s0, s, kept, joined, o.runId) && Judge(s, o).Accept? && top.o == o
    ensures Contiguous(s0, Accepted(s, o), kept + [top], joined + OutputBytes(o.kind), o.runId)
  {
    AcceptedExtends(s0, s, o);
    SliceGrows(s, o, NextExpected(s0.nextOrdinal, o.runId));
  }

  /** The event a group appends, for exactly the newly applied ordinals and their bytes. */
  function GroupEvent(s: State, t: State, run: RunId): seq<DurableEvent> {
    var first, last := NextExpected(s.nextOrdinal, run), NextExpected(t.nextOrdinal, run) - 1;
    if last < first then [] else [OutputEvent(run, AppliedBytes(t.applied, run, first, last), first, last)]
  }

  lemma GroupEventKeepsMatch(
      s0: State, s: State, kept: seq<Saved>, joined: seq<Byte>, run: RunId, events: seq<DurableEvent>)
    requires Contiguous(s0, s, kept, joined, run) && kept != [] && DurableMatches(s0, events)
    ensures GroupEvent(s0, s, run) == [OutputEvent(run, joined, kept[0].o.ordinal, kept[|kept| - 1].o.ordinal)]
    ensures DurableMatches(s, events + GroupEvent(s0, s, run))
  {
    var first, last := kept[0].o.ordinal, kept[|kept| - 1].o.ordinal;
    assert last == NextExpected(s.nextOrdinal, run) - 1 && first <= last;
    var e := OutputEvent(run, joined, first, last);
    assert GroupEvent(s0, s, run) == [e];
    EventKeepsMatch(s0, s, events, e, run);
  }

  lemma NothingAppended(s0: State, s: State, joined: seq<Byte>, run: RunId, events: seq<DurableEvent>)
    requires Contiguous(s0, s, [], joined, run) && s == Surviving(s0, []) && DurableMatches(s0, events)
    ensures KeptOf([]) == [] && GroupEvent(s0, s, run) == []
    ensures DurableMatches(s, events + GroupEvent(s0, s, run))
  {
    hide DurableMatches;
    assert events + [] == events;
  }

  /** What a group that was applied without rejection appends, and what that keeps. */
  lemma GroupOutcome(
      s0: State, s: State, group: seq<HostObservation>, kept: seq<Saved>, joined: seq<Byte>, events: seq<DurableEvent>)
    requires group != [] && Inv(s0) && DurableMatches(s0, events) && Reversible(s0, s, group, kept)
    requires Contiguous(s0, s, kept, joined, group[0].runId) && KeepsNew(s0, group, kept)
    requires Spelled(kept, joined, group[0].runId, NextExpected(s0.nextOrdinal, group[0].runId))
    ensures Inv(s) && s == DeliverAll(s0, group) && FirstRejection(s0, group).None?
    ensures NewlyAccepted(s0, group) == [] <==> kept == []
    ensures GroupEvent(s0, s, group[0].runId)
            == if kept == [] then []
               else [OutputEvent(kept[0].o.runId, joined, kept[0].o.ordinal, kept[|kept| - 1].o.ordinal)]
    ensures DurableMatches(s, events + GroupEvent(s0, s, group[0].runId))
    ensures group[0].kind.Output? ==> GroupEvent(s0, s, group[0].runId) == UnitEvents(s0, group)
  {
    hide *;
    ReversibleParts(s0, s, group, kept);
    KeepsNewParts(s0, group, kept);
    SurvivingKeepsInv(s0, kept);
    var run := group[0].runId;
    if kept == [] {
      NothingAppended(s0, s, joined, run, events);
    } else {
      GroupEventKeepsMatch(s0, s, kept, joined, run, events);
    }
    SpelledIsUnitEvents(s0, group, kept, joined, NextExpected(s0.nextOrdinal, run));
  }

  lemma ObservationExtends(s: State, o: HostObservation)
    requires Inv(s) && Judge(s, o).Accept?
    ensures Extends(s, Accepted(s, o), o.runId)
    ensures forall r: RunId :: EventBytes(ObservationEvent(o), r) == NewBytes(s, Accepted(s, o), o.runId, r)
  {
    AcceptedExtends(s, s, o);
    SliceGrows(s, o, o.ordinal);
  }

  /** What one newly accepted observation appends, keeps, and can be taken back to. */
  lemma ObservationOutcome(s: State, o: HostObservation, events: seq<DurableEvent>)
    requires Inv(s) && DurableMatches(s, events) && Judge(s, o).Accept?
    ensures Inv(Accepted(s, o)) && |Accepted(s, o).applied| == |s.applied| + 1
    ensures DurableMatches(Accepted(s, o), events + [ObservationEvent(o)])
    ensures Undone(Accepted(s, o), o, Recorded(s.liveness, o.runId), s.effects) == s
  {
    hide Inv, DurableMatches, AppliedBytes;
    AcceptedCounts(s, o);
    AcceptedKeepsInv(s, o);
    UndoRestoresIffNew(s, o);
    ObservationExtends(s, o);
    EventKeepsMatch(s, Accepted(s, o), events, ObservationEvent(o), o.runId);
  }

  lemma DeliverOne(s: State, o: HostObservation)
    ensures DeliverAll(s, [o]) == Deliver(s, o)
  {
    assert [o][..0] == [];
  }

  class Session {
    const authority: ObservationAuthority
    var events: seq<DurableEvent>

    constructor (authority: ObservationAuthority)
      ensures this.authority == authority && events == []
    {
      this.authority := authority;
      events := [];
    }

    /** Take back, newest first, everything the group had applied. */
    method UndoAppliedGroup(kept: seq<Saved>, ghost base: State)
      requires Inv(base) && WellKept(base, kept) && authority.View() == Surviving(base, kept)
      modifies authority
      ensures authority.View() == base
    {
      hide Undone, Accepted, Judge, Inv;
      var n := |kept|;
      assert kept[..n] == kept;
      while n > 0
        invariant 0 <= n <= |kept|
        invariant WellKept(base, kept[..n]) && authority.View() == Surviving(base, kept[..n])
      {
        n := n - 1;
        assert kept[..n + 1][..n] == kept[..n];
        PopRestores(base, kept[..n + 1]);
        authority.UndoApply(kept[n].o, kept[n].liveness, kept[n].effects);
      }
    }

    /** Apply the members one by one; the first rejected one takes the whole group back. */
    method ApplyGroup(group: seq<HostObservation>) returns (r: ObserveResult, kept: seq<Saved>, joined: seq<Byte>)
      requires OutputGroup(group) && Inv(authority.View())
      modifies authority
      ensures r.Err? ==> authority.View() == old(authority.View())
      ensures r.Ok? ==> Reversible(old(authority.View()), authority.View(), group, kept)
      ensures r.Ok? ==> Contiguous(old(authority.View()), authority.View(), kept, joined, group[0].runId)
      ensures r.Ok? ==> KeepsNew(old(authority.View()), group, kept)
      ensures r.Ok? ==>
                Spelled(kept, joined, group[0].runId, NextExpected(old(authority.View()).nextOrdinal, group[0].runId))
      ensures r.Err? ==> FirstRejection(old(authority.View()), group) == Some(r.error)
    {
      hide Judge, Accepted, Inv, AppliedBytes, Reversible, Contiguous, KeepsNew, Spelled, FirstRejection;
      ghost var first := NextExpected(authority.View().nextOrdinal, group[0].runId);
      ghost var s0 := authority.View();
      kept, joined := [], [];
      GroupStart(s0, group[0].runId);
      assert group[..0] == [];
      for i := 0 to |group|
        invariant Reversible(s0, authority.View(), group[..i], kept)
        invariant Contiguous(s0, authority.View(), kept, joined, group[0].runId)
        invariant KeepsNew(s0, group[..i], kept) && Spelled(kept, joined, group[0].runId, first)
      {
        var o := group[i];
        ghost var s := authority.View();
        var saved := Saved(o, Recorded(authority.liveness, o.runId), authority.effectsPerformed);
        var before := |authority.applied|;
        r := authority.Apply(o);
        if r.Err? {
          ReversibleParts(s0, s, group[..i], kept);
          KeepsNewParts(s0, group[..i], kept);
          RejectionIsFirst(s0, s, group, i);
          UndoAppliedGroup(kept, s0);
          return;
        }
        assert group[..i + 1] == group[..i] + [o];
        if Judge(s, o).Accept? {
          AcceptReversible(s0, s, group[..i], kept, o, saved);
          AcceptContiguous(s0, s, kept, joined, o, saved);
          ReversibleParts(s0, s, group[..i], kept);
          AcceptKeepsNew(s0, s, group[..i], kept, o, saved);
          NextOrdinalIs(s0, s, kept, joined, o);
          AcceptSpelled(s, kept, joined, first, o, saved);
        } else {
          ReversibleParts(s0, s, group[..i], kept);
          ReplayReversible(s0, s, group[..i], kept, o);
          ReplayKeepsNew(s0, s, group[..i], kept, o);
        }
        if |authority.applied| != before {
          joined := joined + OutputBytes(o.kind);
          kept := kept + [saved];
        }
      }
      assert group[..|group|] == group;
      r := Ok;
    }

    /** A group commits as a whole or not at all. On success the one durable event carries
        exactly the newly applied ordinals, contiguously, and their bytes in order. */
    method CommitOutputGroup(group: seq<HostObservation>, v: StoreVerdict) returns (r: CommitResult)
      requires OutputGroup(group) && Inv(authority.View()) && DurableMatches(authority.View(), events)
      modifies this, authority
      ensures Inv(authority.View()) && DurableMatches(authority.View(), events)
      ensures r == GroupResult(old(authority.View()), group, v)
      ensures !r.Committed? ==> authority.View() == old(authority.View()) && events == old(events)
      ensures r.Committed? ==> authority.View() == DeliverAll(old(authority.View()), group)
      ensures r.Committed? ==>
                && events == old(events) + UnitEvents(old(authority.View()), group)
                && UnitEvents(old(authority.View()), group)
                   == GroupEvent(old(authority.View()), authority.View(), group[0].runId)
                && Transcribes(UnitEvents(old(authority.View()), group), NewlyAccepted(old(authority.View()), group))
    {
      hide KeepsNew, Spelled, Contiguous, Reversible, FirstRejection, UnitEvents, NewlyAccepted, GroupEvent;
      hide Transcribes, DurableMatches, Inv, DeliverAll, WellKept, Surviving;
      ghost var s0 := authority.View();
      var answer, kept, joined := ApplyGroup(group);
      if answer.Err? {
        return Rejected(answer.error);
      }
      GroupOutcome(s0, authority.View(), group, kept, joined, events);
      GroupTranscribes(s0, group);
      if kept == [] {
        assert events + [] == events;
        return Committed;
      }
      if !v.accepts {
        ReversibleParts(s0, authority.View(), group, kept);
        UndoAppliedGroup(kept, s0);
        return Failed;
      }
      events := events + [OutputEvent(kept[0].o.runId, joined, kept[0].o.ordinal, kept[|kept| - 1].o.ordinal)];
      r := Committed;
    }

    /** One observation outside an output group; an oversized payload is refused before it is applied. */
    method CommitObservation(o: HostObservation, v: StoreVerdict) returns (r: CommitResult)
      requires Inv(authority.View()) && DurableMatches(authority.View(), events)
      modifies this, authority
      ensures Inv(authority.View()) && DurableMatches(authority.View(), events)
      ensures r == ObservationResult(old(authority.View()), o, v)
      ensures !r.Committed? ==> authority.View() == old(authority.View()) && events == old(events)
      ensures r.Committed? ==>
                && authority.View() == Deliver(old(authority.View()), o)
                && events == old(events) + if Judge(old(authority.View()), o).Accept? then [ObservationEvent(o)] else []
    {
      hide FirstRejection, NewlyAccepted, Judge, Accepted, Undone, Inv, DurableMatches;
      if v.oversized {
        return Failed;
      }
      ghost var s := authority.View();
      NewlyAcceptedOne(s, o);
      var before := |authority.applied|;
      var previousLiveness := Recorded(authority.liveness, o.runId);
      var previousEffects := authority.effectsPerformed;
      var answer := authority.Apply(o);
      if answer.Err? {
        return Rejected(answer.error);
      }
      if Judge(s, o).Accept? {
        ObservationOutcome(s, o, events);
      }
      if |authority.applied| == before {
        return Committed;
      }
      if !v.accepts {
        authority.UndoApply(o, previousLiveness, previousEffects);
        return Failed;
      }
      events := events + [ObservationEvent(o)];
      r := Committed;
    }

    /** Commit the unit that starts at `index`: a maximal stretch of output of one agent run,
        or a single other observation. */
    method CommitNext(observations: seq<HostObservation>, index: nat, v: StoreVerdict)
      returns (r: CommitResult, end: nat)
      requires index < |observations|
      requires Inv(authority.View()) && DurableMatches(authority.View(), events)
      modifies this, authority
      ensures end == UnitEnd(observations, index)
      ensures Inv(authority.View()) && DurableMatches(authority.View(), events)
      ensures var s, unit := old(authority.View()), observations[index..end];
              && r == UnitResult(s, unit, v)
              && authority.View() == (if r.Committed? then DeliverAll(s, unit) else s)
              && events == old(events) + if r.Committed? then UnitEvents(s, unit) else []
    {
      hide NewlyAccepted, FirstRejection, GroupResult, Judge, Accepted, Inv;
      end := index + 1;
      if observations[index].kind.Output? {
        while end < |observations| && observations[end].runId == observations[index].runId
              && observations[end].kind.Output?
          invariant index < end <= |observations|
          invariant OutputGroup(observations[index..end])
          invariant UnitEnd(observations, index) == GroupEnd(observations, index, end)
        {
          assert observations[index..end + 1] == observations[index..end] + [observations[end]];
          end := end + 1;
        }
        r := CommitOutputGroup(observations[index..end], v);
      } else {
        var o := observations[index];
        r := CommitObservation(o, v);
        DeliverOne(old(authority.View()), o);
        NewlyAcceptedOne(old(authority.View()), o);
        assert observations[index..end] == [o];
      }
    }

    /** Whatever is refused on the way, the authority holds exactly a prefix of the batch, the store still
        matches it, and the events added are the record of exactly what was newly accepted, in order. */
    method CommitBatch(observations: seq<HostObservation>, verdicts: seq<StoreVerdict>) returns (r: CommitResult)
      requires |verdicts| == |observations|
      requires Inv(authority.View()) && DurableMatches(authority.View(), events)
      modifies this, authority
      ensures Inv(authority.View()) && DurableMatches(authority.View(), events)
      ensures var p := CommitFrom(old(authority.View()), observations, verdicts, 0);
              && r == p.result && authority.View() == p.state && events == old(events) + p.events
              && p.end <= |observations| && (r.Committed? <==> p.end == |observations|)
              && authority.View() == DeliverAll(old(authority.View()), observations[..p.end])
              && Transcribes(p.events, NewlyAccepted(old(authority.View()), observations[..p.end]))
    {
      hide Transcribes, NewlyAccepted, UnitResult, UnitEvents, Judge, Accepted, Inv, DeliverAll, UnitEnd;
      ghost var s0 := authority.View();
      ghost var log: seq<DurableEvent> := [];
      var index := 0;
      CommitTranscribes(s0, observations, verdicts, 0);
      assert observations[0..CommitFrom(s0, observations, verdicts, 0).end]
          == observations[..CommitFrom(s0, observations, verdicts, 0).end];
      while index < |observations|
        invariant 0 <= index <= |observations|
        invariant Inv(authority.View()) && DurableMatches(authority.View(), events)
        invariant CommitFrom(s0, observations, verdicts, 0)
                  == Prefixed(log, CommitFrom(authority.View(), observations, verdicts, index))
        invariant events == old(events) + log
      {
        ghost var s := authority.View();
        var end;
        r, end := CommitNext(observations, index, verdicts[index]);
        if !r.Committed? {
          return;
        }
        log := log + UnitEvents(s, observations[index..end]);
        index := end;
      }
      r := Committed;
    }
  }
}

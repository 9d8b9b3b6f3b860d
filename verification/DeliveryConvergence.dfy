/** Delivery convergence: whatever the order, duplication, replay or staleness of the
    deliveries, the authority holds exactly a prefix of each run's canonical stream. */
module DeliveryConvergence {
  import opened Basics
  import opened Observations
  import opened Authority
  import opened AuthorityRuns

  function DeliverAll(s: State, ds: seq<HostObservation>): State {
    if ds == [] then s else Deliver(DeliverAll(s, ds[..|ds| - 1]), ds[|ds| - 1])
  }

  lemma {:induction false} DeliverAllAppend(s: State, a: seq<HostObservation>, b: seq<HostObservation>)
    ensures DeliverAll(s, a + b) == DeliverAll(DeliverAll(s, a), b)
  {
    if b == [] {
      assert a + b == a;
    } else {
      assert (a + b)[..|a + b| - 1] == a + b[..|b| - 1];
      DeliverAllAppend(s, a, b[..|b| - 1]);
    }
  }

  /** One canonical stream of kinds per run, short enough for 64-bit ordinals. */
  type Canon = c: map<RunId, seq<Kind>> | forall r | r in c :: |c[r]| < U64_MAX witness map[]

  /** The delivery carries what the canonical stream has at its ordinal; any generation may be on it. */
  predicate Drawn(canon: Canon, o: HostObservation) {
    o.runId in canon && 1 <= o.ordinal <= |canon[o.runId]| && o.kind == canon[o.runId][o.ordinal - 1]
  }

  ghost predicate AllDrawn(canon: Canon, ds: seq<HostObservation>) {
    forall i | 0 <= i < |ds| :: Drawn(canon, ds[i])
  }

  /** The applied log of every run is a canonical prefix. */
  ghost predicate HoldsPrefix(s: State, canon: Canon) {
    forall r: RunId, n: nat | (r, n) in s.applied ::
      r in canon && 1 <= n <= |canon[r]| && s.applied[(r, n)] == canon[r][n - 1]
  }

  /** Every delivery that is not newly accepted leaves the whole state as it was; a
      delivery drawn from the canonical stream never conflicts. */
  lemma DrawnStep(s: State, canon: Canon, o: HostObservation)
    requires Inv(s) && HoldsPrefix(s, canon) && Drawn(canon, o)
    ensures Inv(Deliver(s, o)) && HoldsPrefix(Deliver(s, o), canon)
    ensures Judge(s, o) != Reject(Conflict)
    ensures Deliver(s, o) == s <==> !Judge(s, o).Accept?
  {
    if Judge(s, o).Accept? {
      AcceptedKeepsInv(s, o);
      assert (o.runId, o.ordinal) in Deliver(s, o).applied;
    }
  }

  lemma {:induction false} DeliveriesHoldPrefix(s: State, canon: Canon, ds: seq<HostObservation>)
    requires Inv(s) && HoldsPrefix(s, canon) && AllDrawn(canon, ds)
    ensures Inv(DeliverAll(s, ds)) && HoldsPrefix(DeliverAll(s, ds), canon)
    ensures DeliverAll(s, ds).domain == s.domain
  {
    if ds != [] {
      DeliveriesHoldPrefix(s, canon, ds[..|ds| - 1]);
      DrawnStep(DeliverAll(s, ds[..|ds| - 1]), canon, ds[|ds| - 1]);
    }
  }

  // ---------- exactly how far a run gets ----------

  function Length(s: State, run: RunId): int {
    NextExpected(s.nextOrdinal, run) - 1
  }

  /** `at` picks, in delivery order, unfenced deliveries of the run with ordinals 1 .. |at|. */
  ghost predicate Picks(ds: seq<HostObservation>, run: RunId, generation: nat, at: seq<nat>) {
    && (forall k | 0 <= k < |at| :: at[k] < |ds|)
    && (forall j, k | 0 <= j < k < |at| :: at[j] < at[k])
    && (forall k | 0 <= k < |at| ::
          ds[at[k]].runId == run && ds[at[k]].generation == generation && ds[at[k]].ordinal == k + 1)
  }

  /** 1 .. n occurs, in order, among the unfenced deliveries of the run. */
  ghost predicate InOrder(ds: seq<HostObservation>, run: RunId, generation: nat, n: nat) {
    exists at: seq<nat> :: |at| == n && Picks(ds, run, generation, at)
  }

  lemma InOrderStep(ds: seq<HostObservation>, o: HostObservation, run: RunId, generation: nat, n: nat)
    ensures InOrder(ds + [o], run, generation, n) <==>
            InOrder(ds, run, generation, n) ||
            (n > 0 && o.runId == run && o.generation == generation && o.ordinal == n
              && InOrder(ds, run, generation, n - 1))
  {
    var ds' := ds + [o];
    if InOrder(ds, run, generation, n) {
      var at: seq<nat> :| |at| == n && Picks(ds, run, generation, at);
      assert Picks(ds', run, generation, at);
    }
    if n > 0 && o.runId == run && o.generation == generation && o.ordinal == n && InOrder(ds, run, generation, n - 1) {
      var at: seq<nat> :| |at| == n - 1 && Picks(ds, run, generation, at);
      assert Picks(ds', run, generation, at + [|ds|]);
    }
    if InOrder(ds', run, generation, n) {
      var at: seq<nat> :| |at| == n && Picks(ds', run, generation, at);
      if n == 0 || at[n - 1] < |ds| {
        assert Picks(ds, run, generation, at);
      } else {
        assert Picks(ds, run, generation, at[..n - 1]);
      }
    }
  }

  /** Starting from nothing applied for the run, the run's log reaches ordinal n exactly
      when 1 .. n were delivered, in order, under the current generation. */
  lemma {:induction false} ReachesIffDeliveredInOrder(
      s: State, canon: Canon, ds: seq<HostObservation>, run: RunId, n: nat)
    requires Inv(s) && HoldsPrefix(s, canon) && AllDrawn(canon, ds)
    requires run in s.domain && Length(s, run) == 0
    ensures n <= Length(DeliverAll(s, ds), run) <==> InOrder(ds, run, s.domain[run], n)
  {
    var g := s.domain[run];
    if ds == [] {
      if n == 0 {
        assert Picks(ds, run, g, []);
      }
      forall at: seq<nat> | |at| == n > 0
        ensures !Picks(ds, run, g, at)
      {
        assert at[0] >= |ds|;
      }
    } else {
      var before := ds[..|ds| - 1];
      var o := ds[|ds| - 1];
      var b := DeliverAll(s, before);
      assert ds == before + [o];
      DeliveriesHoldPrefix(s, canon, before);
      ReachesIffDeliveredInOrder(s, canon, before, run, n);
      InOrderStep(before, o, run, g, n);
      if n > 0 {
        ReachesIffDeliveredInOrder(s, canon, before, run, n - 1);
        assert (run, n) in b.applied <==> n <= Length(b, run);
      }
    }
  }

  /** Two deliveries of the same streams that both contain a run completely, in order,
      agree on everything the authority has applied for it, however else they differ. */
  lemma CompleteDeliveriesAgree(s: State, canon: Canon, ds: seq<HostObservation>, es: seq<HostObservation>, run: RunId)
    requires Inv(s) && HoldsPrefix(s, canon) && AllDrawn(canon, ds) && AllDrawn(canon, es)
    requires run in s.domain && Length(s, run) == 0 && run in canon
    requires InOrder(ds, run, s.domain[run], |canon[run]|) && InOrder(es, run, s.domain[run], |canon[run]|)
    ensures forall n: nat :: (run, n) in DeliverAll(s, ds).applied <==> 1 <= n <= |canon[run]|
    ensures forall n: nat | 1 <= n <= |canon[run]| ::
              (run, n) in DeliverAll(s, es).applied &&
              DeliverAll(s, ds).applied[(run, n)] == DeliverAll(s, es).applied[(run, n)] == canon[run][n - 1]
  {
    CompleteDeliveryLength(s, canon, ds, run);
    CompleteDeliveryLength(s, canon, es, run);
  }

  lemma CompleteDeliveryLength(s: State, canon: Canon, ds: seq<HostObservation>, run: RunId)
    requires Inv(s) && HoldsPrefix(s, canon) && AllDrawn(canon, ds)
    requires run in s.domain && Length(s, run) == 0 && run in canon
    requires InOrder(ds, run, s.domain[run], |canon[run]|)
    ensures Length(DeliverAll(s, ds), run) == |canon[run]|
    ensures Inv(DeliverAll(s, ds)) && HoldsPrefix(DeliverAll(s, ds), canon)
  {
    DeliveriesHoldPrefix(s, canon, ds);
    ReachesIffDeliveredInOrder(s, canon, ds, run, |canon[run]|);
    var t := DeliverAll(s, ds);
    var n := Length(t, run);
    if n > 0 {
      assert (run, n) in t.applied;
    }
  }

  // ---------- independence of runs ----------

  lemma JudgeIgnoresOtherRuns(s: State, a: HostObservation, b: HostObservation)
    requires a.runId != b.runId
    ensures Judge(Deliver(s, a), b) == Judge(s, b)
  {
  }

  /** The record of one run after an observation depends only on its record before. */
  function NewRecord(record: Option<Liveness>, k: Kind): Option<Liveness> {
    Recorded(Observe(if record.Some? then map[0 := record.value] else map[], 0, k), 0)
  }

  function WithRecord(l: map<RunId, Liveness>, r: RunId, record: Option<Liveness>): map<RunId, Liveness> {
    if record.Some? then l[r := record.value] else l - {r}
  }

  lemma ObserveIsLocal(l: map<RunId, Liveness>, r: RunId, k: Kind)
    ensures Observe(l, r, k) == WithRecord(l, r, NewRecord(Recorded(l, r), k))
  {
    assert l == WithRecord(l, r, Recorded(l, r));
  }

  lemma ObserveOtherRuns(l: map<RunId, Liveness>, r: RunId, k: Kind, r': RunId, k': Kind)
    requires r != r'
    ensures Observe(Observe(l, r, k), r', k') == Observe(Observe(l, r', k'), r, k)
  {
    hide Observe, NewRecord;
    var n, n' := NewRecord(Recorded(l, r), k), NewRecord(Recorded(l, r'), k');
    ObserveIsLocal(l, r, k);
    ObserveIsLocal(l, r', k');
    ObserveIsLocal(WithRecord(l, r, n), r', k');
    ObserveIsLocal(WithRecord(l, r', n'), r, k);
    assert Recorded(WithRecord(l, r, n), r') == Recorded(l, r') && Recorded(WithRecord(l, r', n'), r) == Recorded(l, r);
    assert WithRecord(WithRecord(l, r, n), r', n') == WithRecord(WithRecord(l, r', n'), r, n);
  }

  lemma AcceptedCommute(s: State, a: HostObservation, b: HostObservation)
    requires a.runId != b.runId
    ensures Accepted(Accepted(s, a), b) == Accepted(Accepted(s, b), a)
  {
    ObserveOtherRuns(s.liveness, a.runId, a.kind, b.runId, b.kind);
    assert s.applied[(a.runId, a.ordinal) := a.kind][(b.runId, b.ordinal) := b.kind]
        == s.applied[(b.runId, b.ordinal) := b.kind][(a.runId, a.ordinal) := a.kind];
    assert s.nextOrdinal[a.runId := a.ordinal + 1][b.runId := b.ordinal + 1]
        == s.nextOrdinal[b.runId := b.ordinal + 1][a.runId := a.ordinal + 1];
  }

  /** Deliveries to different runs commute: same answers, same resulting state. */
  lemma DifferentRunsCommute(s: State, a: HostObservation, b: HostObservation)
    requires a.runId != b.runId
    ensures Deliver(Deliver(s, a), b) == Deliver(Deliver(s, b), a)
    ensures Judge(Deliver(s, a), b) == Judge(s, b) && Judge(Deliver(s, b), a) == Judge(s, a)
  {
    JudgeIgnoresOtherRuns(s, a, b);
    JudgeIgnoresOtherRuns(s, b, a);
    AcceptedCommute(s, a, b);
  }
}

/** Bundle assembly from materialized candidates: mark, sort, coalesce, optionally reorder, admit. */
module Assembly {
  import opened Basics
  import opened Ordering
  import opened ContextItems
  import opened Coalescing
  import opened Semantic
  import opened Admission

  /** What the caller asks for; an enhancer is any function from the eligible list to an outcome. */
  datatype Request = Request(
    pins: set<string>,
    required: seq<string>,
    enhancer: Option<seq<ContextItem> -> SemanticOutcome>,
    maxTokens: nat)

  datatype Assembled = Assembled(
    preSemanticOrder: seq<string>,
    eligible: seq<ContextItem>,
    conflicts: seq<string>,
    selected: seq<ContextItem>,
    status: BundleStatus,
    fellBack: bool,
    trace: seq<TraceEntry>)

  /** Pins raise or lower a candidate to the exact-task authority; required paths become mandatory. */
  function Marked(pins: set<string>, required: seq<string>, i: ContextItem): ContextItem {
    i.(authority := if i.provenance.path in pins then ExactTaskPin else i.authority,
       mandatory := i.mandatory || i.provenance.path in required)
  }

  function MarkAll(pins: set<string>, required: seq<string>, s: seq<ContextItem>): seq<ContextItem> {
    if s == [] then [] else MarkAll(pins, required, s[..|s| - 1]) + [Marked(pins, required, s[|s| - 1])]
  }

  predicate PathPresent(s: seq<ContextItem>, path: string) {
    exists i | 0 <= i < |s| :: s[i].provenance.path == path
  }

  predicate RequiredMissing(s: seq<ContextItem>, required: seq<string>) {
    exists i | 0 <= i < |required| :: !PathPresent(s, required[i])
  }

  function IdList(s: seq<ContextItem>): seq<string> {
    seq(|s|, i requires 0 <= i < |s| => s[i].id)
  }

  function Enhanced(
      enhancer: Option<seq<ContextItem> -> SemanticOutcome>, eligible: seq<ContextItem>): (seq<ContextItem>, bool)
  {
    match enhancer
    case None => (eligible, false)
    case Some(f) => Applied(f(eligible), eligible)
  }

  // ---------- the trace ----------

  function MissingTrace(s: seq<ContextItem>, required: seq<string>): seq<TraceEntry> {
    if required == [] then []
    else
      var path := required[|required| - 1];
      MissingTrace(s, required[..|required| - 1]) + if PathPresent(s, path) then [] else [RequiredContextMissing(path)]
  }

  predicate Reintroduces(outcome: SemanticOutcome, eligible: seq<ContextItem>) {
    outcome.Reordered? && exists i | 0 <= i < |outcome.order| :: outcome.order[i] !in Ids(eligible)
  }

  function SemanticTrace(
      enhancer: Option<seq<ContextItem> -> SemanticOutcome>, eligible: seq<ContextItem>): seq<TraceEntry>
  {
    match enhancer
    case None => []
    case Some(f) =>
      (if Reintroduces(f(eligible), eligible) then [SemanticRejectedReintroduce] else [])
      + if Applied(f(eligible), eligible).1 then [SemanticFellBack] else []
  }

  function ConflictTrace(conflicts: seq<string>): seq<TraceEntry> {
    seq(|conflicts|, i requires 0 <= i < |conflicts| => ConflictSurfaced(conflicts[i]))
  }

  function Inclusion(i: ContextItem): TraceEntry {
    var reason :=
      if i.mandatory then MandatoryAuthority else if i.authority == ExactTaskPin then PinnedForTask else RelevantSource;
    Included(i.id, reason, i.sensitivity.SecretLike())
  }

  function InclusionTrace(selected: seq<ContextItem>): seq<TraceEntry> {
    seq(|selected|, i requires 0 <= i < |selected| => Inclusion(selected[i]))
  }

  /** What is traced after the semantic step. */
  function LateTrace(conflicts: seq<string>, admitted: Admitted, status: BundleStatus): seq<TraceEntry> {
    ConflictTrace(conflicts) + admitted.trace + (if status == UnableToBuild then [CouldNotBuild] else [])
    + InclusionTrace(admitted.selected)
  }

  function Assemble(q: Request, candidates: seq<ContextItem>): Assembled {
    var sorted := Sort(PreSemanticLe, MarkAll(q.pins, q.required, candidates));
    var eligible := Eligible(sorted);
    var (items, fellBack) := Enhanced(q.enhancer, eligible);
    var admitted := Admit(items, q.maxTokens);
    var pass := Coalesce(sorted, Fingerprints(sorted));
    var status := if RequiredMissing(candidates, q.required) then UnableToBuild else admitted.status;
    Assembled(IdList(sorted), eligible, pass.conflicts, admitted.selected, status, fellBack,
              MissingTrace(candidates, q.required) + pass.trace + SemanticTrace(q.enhancer, eligible)
              + LateTrace(pass.conflicts, admitted, status))
  }

  // ---------- order independence ----------

  lemma {:induction false} MarkAllPointwise(pins: set<string>, required: seq<string>, s: seq<ContextItem>)
    ensures |MarkAll(pins, required, s)| == |s|
    ensures forall i | 0 <= i < |s| :: MarkAll(pins, required, s)[i] == Marked(pins, required, s[i])
  {
    if s != [] {
      MarkAllPointwise(pins, required, s[..|s| - 1]);
    }
  }

  lemma RemoveAt(s: seq<ContextItem>, k: nat)
    requires k < |s|
    ensures multiset(s) == multiset(s[..k] + s[k + 1..]) + multiset{s[k]}
  {
    assert s == s[..k] + [s[k]] + s[k + 1..];
  }

  /** Marking item by item preserves being a permutation. */
  lemma {:induction false} MarkAllPermutes(
      pins: set<string>, required: seq<string>, s: seq<ContextItem>, t: seq<ContextItem>)
    requires multiset(s) == multiset(t)
    ensures multiset(MarkAll(pins, required, s)) == multiset(MarkAll(pins, required, t))
    decreases |s|
  {
    SameLength(s, t);
    if s != [] {
      var x := s[|s| - 1];
      SameElements(s, t, x);
      assert x in s;
      var k :| 0 <= k < |t| && t[k] == x;
      var t' := t[..k] + t[k + 1..];
      MultisetLast(s);
      RemoveAt(t, k);
      assert multiset(s[..|s| - 1]) == multiset(s) - multiset{x} == multiset(t) - multiset{x} == multiset(t');
      MarkAllPermutes(pins, required, s[..|s| - 1], t');
      MarkAllRemove(pins, required, t, k);
    }
  }

  lemma MarkAllRemove(pins: set<string>, required: seq<string>, t: seq<ContextItem>, k: nat)
    requires k < |t|
    ensures multiset(MarkAll(pins, required, t))
            == multiset(MarkAll(pins, required, t[..k] + t[k + 1..])) + multiset{Marked(pins, required, t[k])}
  {
    var m := MarkAll(pins, required, t);
    MarkAllPointwise(pins, required, t);
    MarkAllPointwise(pins, required, t[..k] + t[k + 1..]);
    assert MarkAll(pins, required, t[..k] + t[k + 1..]) == m[..k] + m[k + 1..];
    RemoveAt(m, k);
  }

  lemma MarkAllDistinct(pins: set<string>, required: seq<string>, s: seq<ContextItem>)
    requires DistinctIds(s)
    ensures DistinctIds(MarkAll(pins, required, s))
  {
    MarkAllPointwise(pins, required, s);
  }

  lemma PathPresentPermuted(s: seq<ContextItem>, t: seq<ContextItem>, path: string)
    requires multiset(s) == multiset(t)
    ensures PathPresent(s, path) ==> PathPresent(t, path)
  {
    if PathPresent(s, path) {
      var i :| 0 <= i < |s| && s[i].provenance.path == path;
      SameElements(s, t, s[i]);
      assert s[i] in s;
      var j :| 0 <= j < |t| && t[j] == s[i];
      assert t[j].provenance.path == path;
    }
  }

  lemma {:induction false} MissingTraceAgrees(s: seq<ContextItem>, t: seq<ContextItem>, required: seq<string>)
    requires forall path :: PathPresent(s, path) == PathPresent(t, path)
    ensures MissingTrace(s, required) == MissingTrace(t, required)
  {
    hide PathPresent;
    if required != [] {
      MissingTraceAgrees(s, t, required[..|required| - 1]);
    }
  }

  /** With distinct candidate ids, the order in which candidates arrive changes nothing: not the
      pre-semantic order, the eligible list, the selection, the status or the trace. */
  lemma AssemblyForgetsCandidateOrder(q: Request, s: seq<ContextItem>, t: seq<ContextItem>)
    requires DistinctIds(s) && multiset(s) == multiset(t)
    ensures Assemble(q, s) == Assemble(q, t)
  {
    var a, b := MarkAll(q.pins, q.required, s), MarkAll(q.pins, q.required, t);
    MarkAllPermutes(q.pins, q.required, s, t);
    MarkAllDistinct(q.pins, q.required, s);
    OrdersAreTotal();
    DistinctIdsHaveNoTies(a);
    SortForgetsOrder(PreSemanticLe, a, b);
    forall path ensures PathPresent(s, path) == PathPresent(t, path) {
      PathPresentPermuted(s, t, path);
      PathPresentPermuted(t, s, path);
    }
    hide Sort, MarkAll, Eligible, Admit, Enhanced, LateTrace, SemanticTrace, Coalesce, Fingerprints;
    assert RequiredMissing(s, q.required) == RequiredMissing(t, q.required);
    MissingTraceAgrees(s, t, q.required);
  }

  // ---------- the enhancer cannot interfere ----------

  /** Whatever the enhancer answers, the eligible list, the selection and the status are those of a
      build without one, and the trace differs only by the entries of the semantic step; and the list it
      leads to is still sorted by authority. */
  lemma EnhancerCannotInterfere(q: Request, candidates: seq<ContextItem>)
    ensures var with, without := Assemble(q, candidates), Assemble(q.(enhancer := None), candidates);
            && with.(fellBack := false, trace := []) == without.(trace := [])
            && exists k | 0 <= k <= |without.trace| ::
                 with.trace == without.trace[..k] + SemanticTrace(q.enhancer, with.eligible) + without.trace[k..]
    ensures var eligible := Assemble(q, candidates).eligible;
            && ByAuthority(Enhanced(q.enhancer, eligible).0)
            && multiset(Enhanced(q.enhancer, eligible).0) == multiset(eligible)
  {
    hide Sort, MarkAll, Eligible, Admit, Applied, LateTrace, SemanticTrace, MissingTrace, Coalesce, Fingerprints;
    var eligible := Assemble(q, candidates).eligible;
    EligibleIsSound(Sort(PreSemanticLe, MarkAll(q.pins, q.required, candidates)));
    var outcome := if q.enhancer.Some? then q.enhancer.value(eligible) else Fallback;
    AppliedIsPermutation(outcome, eligible);
    AcceptedReorderKeepsAuthority(outcome, eligible);
    FallbackIsBaseline(eligible);
    var items := Enhanced(q.enhancer, eligible).0;
    AdmissionForgetsOrder(eligible, items, q.maxTokens);
    NoEnhancerNoTrace(eligible);
    var sorted := Sort(PreSemanticLe, MarkAll(q.pins, q.required, candidates));
    var pass := Coalesce(sorted, Fingerprints(sorted));
    var early := MissingTrace(candidates, q.required) + pass.trace;
    var late := LateTrace(pass.conflicts, Admit(eligible, q.maxTokens), Assemble(q, candidates).status);
    assert early + [] + late == early + late;
    assert (early + late)[..|early|] == early && (early + late)[|early|..] == late;
  }

  lemma NoEnhancerNoTrace(eligible: seq<ContextItem>)
    ensures SemanticTrace(None, eligible) == []
  {
  }

  lemma FallbackIsBaseline(eligible: seq<ContextItem>)
    ensures Applied(Fallback, eligible).0 == eligible
  {
  }

  // ---------- the loops ----------

  /** `m` is `c` with the exact-task authority exactly when `c` had it or its path is pinned, and mandatory
      exactly when `c` was or its path is required; nothing else differs. */
  ghost predicate Marks(pins: set<string>, required: seq<string>, c: ContextItem, m: ContextItem) {
    && (m.authority == ExactTaskPin <==> c.authority == ExactTaskPin || c.provenance.path in pins)
    && (m.authority == ExactTaskPin || m.authority == c.authority)
    && (m.mandatory <==> c.mandatory || c.provenance.path in required)
    && m == c.(authority := m.authority, mandatory := m.mandatory)
  }

  lemma {:induction false} MissingTraceHas(s: seq<ContextItem>, required: seq<string>, path: string)
    ensures RequiredContextMissing(path) in MissingTrace(s, required) <==> path in required && !PathPresent(s, path)
  {
    if required != [] {
      MissingTraceHas(s, required[..|required| - 1], path);
      assert required == required[..|required| - 1] + [required[|required| - 1]];
    }
  }

  lemma MarkingIsFieldwise(pins: set<string>, required: seq<string>, s: seq<ContextItem>)
    ensures |MarkAll(pins, required, s)| == |s|
    ensures forall i | 0 <= i < |s| :: Marks(pins, required, s[i], MarkAll(pins, required, s)[i])
  {
    MarkAllPointwise(pins, required, s);
  }

  lemma MissingIsTraced(s: seq<ContextItem>, required: seq<string>)
    ensures forall path :: RequiredContextMissing(path) in MissingTrace(s, required) <==>
                           path in required && forall i | 0 <= i < |s| :: s[i].provenance.path != path
  {
    forall path
      ensures RequiredContextMissing(path) in MissingTrace(s, required) <==> path in required && !PathPresent(s, path)
    {
      MissingTraceHas(s, required, path);
    }
  }

  method MarkCandidates(pins: set<string>, required: seq<string>, candidates: seq<ContextItem>)
    returns (marked: seq<ContextItem>, missing: bool, trace: seq<TraceEntry>)
    ensures marked == MarkAll(pins, required, candidates) && missing == RequiredMissing(candidates, required)
    ensures trace == MissingTrace(candidates, required)
    ensures |marked| == |candidates|
    ensures forall i | 0 <= i < |candidates| :: Marks(pins, required, candidates[i], marked[i])
    ensures forall path :: RequiredContextMissing(path) in trace <==>
                           path in required && forall i | 0 <= i < |candidates| :: candidates[i].provenance.path != path
  {
    hide Marks, Marked;
    marked := [];
    for i := 0 to |candidates|
      invariant marked == MarkAll(pins, required, candidates[..i])
    {
      assert candidates[..i + 1][..i] == candidates[..i];
      marked := marked + [Marked(pins, required, candidates[i])];
    }
    assert candidates[..|candidates|] == candidates;
    missing, trace := false, [];
    for i := 0 to |required|
      invariant missing <==> exists k | 0 <= k < i :: !PathPresent(candidates, required[k])
      invariant trace == MissingTrace(candidates, required[..i])
    {
      assert required[..i + 1][..i] == required[..i];
      if !PathPresent(candidates, required[i]) {
        missing, trace := true, trace + [RequiredContextMissing(required[i])];
      }
    }
    assert required[..|required|] == required;
    MarkingIsFieldwise(pins, required, candidates);
    MissingIsTraced(candidates, required);
  }

  method AssembleCandidates(q: Request, candidates: seq<ContextItem>) returns (r: Assembled)
    ensures r == Assemble(q, candidates)
  {
    hide Sort, MarkAll, Eligible, Admit, Applied, RequiredMissing, Coalesce, Fingerprints, MissingTrace, Reintroduces;
    var marked, missing, trace := MarkCandidates(q.pins, q.required, candidates);
    var sorted := Sort(PreSemanticLe, marked);
    var eligible, conflicts, coalesced := CoalesceCompatible(sorted);
    trace := trace + coalesced;
    var items, fellBack := eligible, false;
    var semantic: seq<TraceEntry> := [];
    if q.enhancer.Some? {
      var outcome := q.enhancer.value(eligible);
      items, fellBack := ApplySemanticOutcome(outcome, eligible);
      if Reintroduces(outcome, eligible) {
        semantic := semantic + [SemanticRejectedReintroduce];
      }
      if fellBack {
        semantic := semantic + [SemanticFellBack];
      }
    }
    trace := trace + semantic;
    var admitted := AdmitWithBudget(items, q.maxTokens);
    var status := if missing then UnableToBuild else admitted.status;
    var late := TraceLate(conflicts, admitted, status);
    r := Assembled(IdList(sorted), eligible, conflicts, admitted.selected, status, fellBack, trace + late);
  }

  method TraceLate(conflicts: seq<string>, admitted: Admitted, status: BundleStatus) returns (late: seq<TraceEntry>)
    ensures late == LateTrace(conflicts, admitted, status)
  {
    late := [];
    for i := 0 to |conflicts|
      invariant late == ConflictTrace(conflicts)[..i]
    {
      late := late + [ConflictSurfaced(conflicts[i])];
    }
    late := late + admitted.trace;
    if status == UnableToBuild {
      late := late + [CouldNotBuild];
    }
    ghost var before := late;
    for i := 0 to |admitted.selected|
      invariant late == before + InclusionTrace(admitted.selected)[..i]
    {
      late := late + [Inclusion(admitted.selected[i])];
    }
  }
}

/** The selection trace accounts for every candidate. */
module TraceAccounts {
  import opened Basics
  import opened Ordering
  import opened ContextItems
  import opened Coalescing
  import opened Semantic
  import opened Admission
  import opened Assembly
  import opened RequiredItems
  import opened CoalescingRecord

  /** The entry says what became of the item: included, coalesced, left out for budget, or cut. */
  predicate Accounts(e: TraceEntry, x: ContextItem) {
    || (e.Included? && e.id == x.id)
    || e == DuplicateCoalesced(x.id, x.sensitivity.SecretLike())
    || e == BudgetExcluded(x.id, x.sensitivity.SecretLike())
    || e == BudgetChunked(x.id, x.sensitivity.SecretLike())
  }

  ghost predicate AccountedFor(trace: seq<TraceEntry>, x: ContextItem) {
    exists e | e in trace :: Accounts(e, x)
  }

  lemma {:induction false} AdmissionOnlyAdds(t: Tally, s: seq<ContextItem>, max: nat)
    ensures t.selected <= AdmitAll(t, s, max).selected && t.trace <= AdmitAll(t, s, max).trace
    decreases |s|
  {
    if s != [] {
      AdmissionOnlyAdds(AdmitOne(t, s[0], max), s[1..], max);
    }
  }

  lemma AdmitOneAccounts(t: Tally, x: ContextItem, max: nat)
    ensures x in AdmitOne(t, x, max).selected || AccountedFor(AdmitOne(t, x, max).trace, x)
  {
    var r := AdmitOne(t, x, max);
    if |r.trace| > |t.trace| {
      assert r.trace[|t.trace|] in r.trace;
      assert Accounts(r.trace[|t.trace|], x);
    } else {
      assert r.selected[|t.selected|] == x;
    }
  }

  lemma {:induction false} AdmitAllAccounts(t: Tally, s: seq<ContextItem>, max: nat, i: nat)
    requires i < |s|
    ensures s[i] in AdmitAll(t, s, max).selected || AccountedFor(AdmitAll(t, s, max).trace, s[i])
    decreases |s|
  {
    hide AdmitOne, Accounts;
    var one := AdmitOne(t, s[0], max);
    if i == 0 {
      AdmitOneAccounts(t, s[0], max);
      AdmissionOnlyAdds(one, s[1..], max);
      if AccountedFor(one.trace, s[0]) {
        var e :| e in one.trace && Accounts(e, s[0]);
        assert e in AdmitAll(t, s, max).trace;
      }
    } else {
      AdmitAllAccounts(one, s[1..], max, i - 1);
    }
  }

  lemma AdmissionAccounts(items: seq<ContextItem>, max: nat, x: ContextItem)
    requires x in items && Admit(items, max).status == Dispatchable
    ensures x in Admit(items, max).selected || AccountedFor(Admit(items, max).trace, x)
  {
    hide AdmitAll, Mandatory, Optional, Cost, Accounts;
    var m, o := Mandatory(items), Optional(items);
    var t := Tally(m, Cost(m), []);
    PartsMembers(items, x);
    AdmissionOnlyAdds(t, o, max);
    if x in o {
      var i :| 0 <= i < |o| && o[i] == x;
      AdmitAllAccounts(t, o, max, i);
    }
  }

  lemma SelectedIsIncluded(selected: seq<ContextItem>, x: ContextItem)
    requires x in selected
    ensures AccountedFor(InclusionTrace(selected), x)
  {
    var i :| 0 <= i < |selected| && selected[i] == x;
    var e := InclusionTrace(selected)[i];
    assert e in InclusionTrace(selected) && Accounts(e, x);
  }

  lemma AccountedWithin(part: seq<TraceEntry>, whole: seq<TraceEntry>, x: ContextItem)
    requires AccountedFor(part, x) && forall e | e in part :: e in whole
    ensures AccountedFor(whole, x)
  {
    hide Accounts;
  }

  /** Whenever admission gives a dispatchable result, every candidate that takes part is accounted for: the
      trace says it was included, coalesced into another, left out for budget, or cut. */
  lemma EveryCandidateIsAccountedFor(q: Request, candidates: seq<ContextItem>, x: ContextItem)
    requires DistinctIds(candidates) && x in MarkAll(q.pins, q.required, candidates) && TakesPart(x)
    requires Admit(Offered(q, candidates), q.maxTokens).status == Dispatchable
    ensures AccountedFor(Assemble(q, candidates).trace, x)
  {
    hide Sort, MarkAll, Eligible, Admit, Applied, Enhanced, RequiredMissing, Coalesce, Fingerprints, DistinctIds;
    hide MissingTrace, SemanticTrace, ConflictTrace, InclusionTrace, AccountedFor;
    var marked, s, items := MarkAll(q.pins, q.required, candidates), Presented(q, candidates), Offered(q, candidates);
    var a := Assemble(q, candidates);
    PresentedIsMarked(q, candidates);
    SameElements(marked, s, x);
    AssembledAt(q, candidates, q.maxTokens);
    assert q.(maxTokens := q.maxTokens) == q;
    var pass, admitted := Coalesce(s, Fingerprints(s)), Admit(items, q.maxTokens);
    var r := CoalescingCovers(s, x);
    if x in Eligible(s) {
      SameElements(Eligible(s), items, x);
      AdmissionAccounts(items, q.maxTokens, x);
      if x in admitted.selected {
        SelectedIsIncluded(admitted.selected, x);
        AccountedWithin(InclusionTrace(admitted.selected), a.trace, x);
      } else {
        AccountedWithin(admitted.trace, a.trace, x);
      }
    } else {
      var e := DuplicateCoalesced(x.id, x.sensitivity.SecretLike());
      assert e in pass.trace;
      CoalescedIsAccounted(pass.trace, x);
      AccountedWithin(pass.trace, a.trace, x);
    }
  }

  lemma CoalescedIsAccounted(trace: seq<TraceEntry>, x: ContextItem)
    requires DuplicateCoalesced(x.id, x.sensitivity.SecretLike()) in trace
    ensures AccountedFor(trace, x)
  {
    assert Accounts(DuplicateCoalesced(x.id, x.sensitivity.SecretLike()), x);
  }

  // ---------- what the trace says of the outcome ----------

  /** The reason given for a selected item: mandatory before pinned before relevant; secrets are redacted. */
  ghost predicate IncludedAs(e: TraceEntry, x: ContextItem) {
    && e.Included? && e.id == x.id && (e.redacted <==> x.sensitivity == Secret || x.sensitivity == Excluded)
    && (e.reason == MandatoryAuthority <==> x.mandatory)
    && (e.reason == PinnedForTask <==> !x.mandatory && x.authority == ExactTaskPin)
  }

  lemma InclusionIs(selected: seq<ContextItem>, e: TraceEntry)
    ensures e in InclusionTrace(selected) <==> exists x | x in selected :: IncludedAs(e, x)
  {
    var t := InclusionTrace(selected);
    if e in t {
      var i :| 0 <= i < |t| && t[i] == e;
      assert selected[i] in selected && IncludedAs(e, selected[i]);
    }
    if x :| x in selected && IncludedAs(e, x) {
      var i :| 0 <= i < |selected| && selected[i] == x;
      assert t[i] == e;
    }
  }

  /** Entries of the last steps of a build come from nowhere else. */
  lemma TraceSplits(q: Request, candidates: seq<ContextItem>, e: TraceEntry)
    requires e.Included? || e.CouldNotBuild? || e.SemanticFellBack? || e.SemanticRejectedReintroduce?
    ensures var a := Assemble(q, candidates);
            e in a.trace <==>
            || e in SemanticTrace(q.enhancer, a.eligible)
            || (e.CouldNotBuild? && a.status == UnableToBuild)
            || e in InclusionTrace(a.selected)
  {
    hide Sort, MarkAll, Eligible, Admit, Applied, Enhanced, RequiredMissing, Coalesce, Fingerprints, MissingTrace;
    hide SemanticTrace, InclusionTrace;
    var s := Presented(q, candidates);
    var pass := Coalesce(s, Fingerprints(s));
    var items := Enhanced(q.enhancer, Eligible(s)).0;
    if e in MissingTrace(candidates, q.required) {
      MissingTracesMissing(candidates, q.required, e);
    }
    if e in Admit(items, q.maxTokens).trace {
      AdmitTracesBudget(items, q.maxTokens, e);
    }
    if e in pass.trace {
      PassTracesCoalescing(s, Fingerprints(s), e);
    }
    NoConflictEntry(pass.conflicts, e);
  }

  /** The trace tells the outcome. Exactly the selected items are traced as included, each with its reason.
      A failed build is traced as one, and fails exactly when a required path has no candidate or the
      mandatory items alone exceed the budget. A fallback is traced exactly when there was one, and a
      rejected reintroduction exactly when a proposal named an id that is not eligible. */
  lemma OutcomeIsTraced(q: Request, candidates: seq<ContextItem>)
    ensures var a := Assemble(q, candidates);
            && (forall e: TraceEntry | e.Included? ::
                  e in a.trace <==> exists x | x in a.selected :: IncludedAs(e, x))
            && (CouldNotBuild in a.trace <==> a.status == UnableToBuild)
            && (a.status == UnableToBuild <==>
                  || (exists i | 0 <= i < |q.required| :: forall j | 0 <= j < |candidates| ::
                        candidates[j].provenance.path != q.required[i])
                  || Cost(Mandatory(Offered(q, candidates))) > q.maxTokens)
            && (SemanticFellBack in a.trace <==> a.fellBack)
            && (SemanticRejectedReintroduce in a.trace <==>
                  && q.enhancer.Some? && q.enhancer.value(a.eligible).Reordered?
                  && exists id | id in q.enhancer.value(a.eligible).order :: id !in Ids(a.eligible))
  {
    var a := Assemble(q, candidates);
    forall e: TraceEntry | e.Included? ensures e in a.trace <==> exists x | x in a.selected :: IncludedAs(e, x) {
      hide Assemble, InclusionTrace;
      TraceSplits(q, candidates, e);
      InclusionIs(a.selected, e);
      SemanticEntries(q.enhancer, a.eligible, e);
    }
    OutcomeEntries(q, candidates);
    StatusIs(q, candidates);
  }

  lemma SemanticEntries(enhancer: Option<seq<ContextItem> -> SemanticOutcome>, s: seq<ContextItem>, e: TraceEntry)
    ensures e in SemanticTrace(enhancer, s) <==>
            && enhancer.Some?
            && match e
               case SemanticFellBack => Applied(enhancer.value(s), s).1
               case SemanticRejectedReintroduce =>
                 enhancer.value(s).Reordered? && exists id | id in enhancer.value(s).order :: id !in Ids(s)
               case _ => false
  {
    hide Applied, Ids;
  }

  lemma OutcomeEntries(q: Request, candidates: seq<ContextItem>)
    ensures var a := Assemble(q, candidates);
            && (CouldNotBuild in a.trace <==> a.status == UnableToBuild)
            && (SemanticFellBack in a.trace <==> a.fellBack)
            && (SemanticRejectedReintroduce in a.trace <==>
                  && q.enhancer.Some? && q.enhancer.value(a.eligible).Reordered?
                  && exists id | id in q.enhancer.value(a.eligible).order :: id !in Ids(a.eligible))
  {
    var a := Assemble(q, candidates);
    assert a.fellBack == (q.enhancer.Some? && Applied(q.enhancer.value(a.eligible), a.eligible).1) by {
      hide Sort, MarkAll, Eligible, Admit, Applied, Coalesce, Fingerprints;
    }
    hide Assemble, InclusionTrace, SemanticTrace, Applied, Ids;
    forall e: TraceEntry | !e.Included? ensures e !in InclusionTrace(a.selected) {
      InclusionIs(a.selected, e);
    }
    TraceSplits(q, candidates, CouldNotBuild);
    TraceSplits(q, candidates, SemanticFellBack);
    TraceSplits(q, candidates, SemanticRejectedReintroduce);
    SemanticEntries(q.enhancer, a.eligible, CouldNotBuild);
    SemanticEntries(q.enhancer, a.eligible, SemanticFellBack);
    SemanticEntries(q.enhancer, a.eligible, SemanticRejectedReintroduce);
  }

  lemma StatusIs(q: Request, candidates: seq<ContextItem>)
    ensures Assemble(q, candidates).status == UnableToBuild <==>
            || (exists i | 0 <= i < |q.required| :: forall j | 0 <= j < |candidates| ::
                  candidates[j].provenance.path != q.required[i])
            || Cost(Mandatory(Offered(q, candidates))) > q.maxTokens
  {
    hide Sort, MarkAll, Eligible, Enhanced, Coalesce, Fingerprints, Mandatory, Optional, Cost, AdmitAll;
    assert RequiredMissing(candidates, q.required) <==>
           exists i | 0 <= i < |q.required| :: forall j | 0 <= j < |candidates| ::
             candidates[j].provenance.path != q.required[i] by {
      assert forall i | 0 <= i < |q.required| ::
               !PathPresent(candidates, q.required[i]) <==>
               forall j | 0 <= j < |candidates| :: candidates[j].provenance.path != q.required[i];
    }
  }
}

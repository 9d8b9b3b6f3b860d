/** What a build records of coalescing: which candidates are traced as dropped, which as kept apart for
    their secrecy, and which ids are surfaced as conflicts. */
module CoalescingRecord {
  import opened Ordering
  import opened ContextItems
  import opened Coalescing
  import opened Admission
  import opened Assembly
  import opened RequiredItems

  // ---------- one group ----------

  lemma {:induction false} DroppedHas(s: seq<ContextItem>, winner: ContextItem, e: TraceEntry)
    ensures e in Dropped(s, winner) <==>
            exists y | y in s :: e == DuplicateCoalesced(y.id, y.sensitivity.SecretLike()) && y.id != winner.id
  {
    if s != [] {
      DroppedHas(s[..|s| - 1], winner, e);
      assert s == s[..|s| - 1] + [s[|s| - 1]];
    }
  }

  lemma {:induction false} BlockedHas(s: seq<ContextItem>, e: TraceEntry)
    ensures e in Blocked(s) <==> exists y | y in s :: e == CoalesceBlocked(y.id)
  {
    if s != [] {
      BlockedHas(s[..|s| - 1], e);
      assert s == s[..|s| - 1] + [s[|s| - 1]];
    }
  }

  function DroppedEntry(x: ContextItem): TraceEntry {
    DuplicateCoalesced(x.id, x.sensitivity.SecretLike())
  }

  /** A group without two items of one id traces a member as dropped exactly when it is not kept, and as
      blocked exactly when it is secret beside a public copy; it surfaces all its ids or none. */
  lemma GroupRecords(group: seq<ContextItem>, x: ContextItem)
    requires x in group && forall y, z | y in group && z in group && y.id == z.id :: y == z
    ensures DroppedEntry(x) in GroupTrace(group) <==> x !in Representatives(group)
    ensures CoalesceBlocked(x.id) in GroupTrace(group) <==> Mixed(group) && x.sensitivity.SecretLike()
    ensures x.id in GroupConflicts(group) <==> !Mixed(group) && !AllCompatible(group)
  {
    hide PublicOf, SecretOf, LeastId, HighestAuthority, AllCompatible, Dropped, Blocked;
    var p, s := PublicOf(group), SecretOf(group);
    SideMembers(group, x);
    if |group| == 1 {
      LoneIsPlain(group);
    } else if Mixed(group) {
      MixedRecords(group, x);
    } else if AllCompatible(group) {
      LeastIdIsMember(group);
      DroppedHas(group, LeastId(group), DroppedEntry(x));
      DroppedHas(group, LeastId(group), CoalesceBlocked(x.id));
    } else {
      var i :| 0 <= i < |group| && group[i] == x;
      assert GroupConflicts(group)[i] == x.id;
    }
  }

  lemma LoneIsPlain(group: seq<ContextItem>)
    requires |group| == 1
    ensures AllCompatible(group) && !Mixed(group)
  {
    assert group[..0] == [];
    assert SecretOf(group) == [] || PublicOf(group) == [];
  }

  lemma MixedRecords(group: seq<ContextItem>, x: ContextItem)
    requires |group| > 1 && Mixed(group) && x in group
    requires forall y, z | y in group && z in group && y.id == z.id :: y == z
    ensures DroppedEntry(x) in GroupTrace(group) <==> x !in Representatives(group)
    ensures CoalesceBlocked(x.id) in GroupTrace(group) <==> x.sensitivity.SecretLike()
  {
    hide PublicOf, SecretOf, HighestAuthority, AllCompatible, Dropped, Blocked;
    var p, s := PublicOf(group), SecretOf(group);
    var best := HighestAuthority(p);
    HighestAuthorityIsBest(p);
    forall y ensures y in s <==> y in group && y.sensitivity.SecretLike()
      ensures y in p <==> y in group && !y.sensitivity.SecretLike()
    {
      SideMembers(group, y);
    }
    DroppedHas(p, best, DroppedEntry(x));
    DroppedHas(p, best, CoalesceBlocked(x.id));
    BlockedHas(s, DroppedEntry(x));
    BlockedHas(s, CoalesceBlocked(x.id));
    assert x in Representatives(group) <==> x == best || x in s;
  }

  /** What a group records names its members only. */
  lemma GroupNames(group: seq<ContextItem>, e: TraceEntry)
    requires group != [] && e in GroupTrace(group)
    ensures exists y | y in group :: e == DroppedEntry(y) || e == CoalesceBlocked(y.id)
  {
    hide PublicOf, SecretOf, LeastId, HighestAuthority, AllCompatible, Dropped, Blocked;
    forall y ensures y in SecretOf(group) ==> y in group
      ensures y in PublicOf(group) ==> y in group
    {
      SideMembers(group, y);
    }
    if Mixed(group) {
      DroppedHas(PublicOf(group), HighestAuthority(PublicOf(group)), e);
      BlockedHas(SecretOf(group), e);
    } else {
      DroppedHas(group, LeastId(group), e);
    }
  }

  // ---------- the pass ----------

  lemma {:induction false} TraceIsOfGroups(s: seq<ContextItem>, fps: seq<string>, e: TraceEntry)
    ensures e in Coalesce(s, fps).trace <==>
            exists fp | fp in fps :: Group(s, fp) != [] && e in GroupTrace(Group(s, fp))
  {
    hide Group, GroupTrace, GroupConflicts, Representatives, Consume;
    if fps != [] {
      var less, last := fps[..|fps| - 1], fps[|fps| - 1];
      TraceIsOfGroups(s, less, e);
      assert fps == less + [last];
      if fp :| fp in less && Group(s, fp) != [] && e in GroupTrace(Group(s, fp)) {
        assert fp in fps;
      }
      assert last in fps;
    }
  }

  lemma {:induction false} ConflictsAreOfGroups(s: seq<ContextItem>, fps: seq<string>, id: string)
    ensures id in Coalesce(s, fps).conflicts <==>
            exists fp | fp in fps :: Group(s, fp) != [] && id in GroupConflicts(Group(s, fp))
  {
    hide Group, GroupTrace, GroupConflicts, Representatives, Consume;
    if fps != [] {
      var less, last := fps[..|fps| - 1], fps[|fps| - 1];
      ConflictsAreOfGroups(s, less, id);
      assert fps == less + [last];
      if fp :| fp in less && Group(s, fp) != [] && id in GroupConflicts(Group(s, fp)) {
        assert fp in fps;
      }
      assert last in fps;
    }
  }

  /** Only its own group speaks of a candidate. */
  lemma OwnGroupOnly(s: seq<ContextItem>, fp: string, x: ContextItem)
    requires DistinctIds(s) && x in s && Group(s, fp) != []
    ensures (DroppedEntry(x) in GroupTrace(Group(s, fp)) || CoalesceBlocked(x.id) in GroupTrace(Group(s, fp))
             || x.id in GroupConflicts(Group(s, fp)))
            ==> TakesPart(x) && x.fingerprint == fp
  {
    hide Group, GroupTrace;
    var group := Group(s, fp);
    forall y | y in group && y.id == x.id ensures TakesPart(x) && x.fingerprint == fp {
      GroupMembers(s, fp, y);
      IdDetermines(s, x, y);
    }
    if DroppedEntry(x) in GroupTrace(group) {
      GroupNames(group, DroppedEntry(x));
    }
    if CoalesceBlocked(x.id) in GroupTrace(group) {
      GroupNames(group, CoalesceBlocked(x.id));
    }
  }

  lemma PassRecords(s: seq<ContextItem>, x: ContextItem)
    requires DistinctIds(s) && Sorted(PreSemanticLe, s) && x in s
    ensures var pass := Coalesce(s, Fingerprints(s));
            && (DroppedEntry(x) in pass.trace <==> TakesPart(x) && !Elected(s, x))
            && (CoalesceBlocked(x.id) in pass.trace <==>
                  TakesPart(x) && x.sensitivity.SecretLike() && BothSides(s, x))
            && (x.id in pass.conflicts <==> TakesPart(x) && !BothSides(s, x) && !CopiesAgree(s, x))
  {
    hide Group, GroupTrace, GroupConflicts, Representatives, Coalesce, Fingerprints, Elected, PreSemanticLe, BothSides,
      Mixed, AllCompatible, CopiesAgree;
    var fps, group := Fingerprints(s), Group(s, x.fingerprint);
    TraceIsOfGroups(s, fps, DroppedEntry(x));
    TraceIsOfGroups(s, fps, CoalesceBlocked(x.id));
    ConflictsAreOfGroups(s, fps, x.id);
    forall fp | fp in fps && Group(s, fp) != []
      ensures (DroppedEntry(x) in GroupTrace(Group(s, fp)) || CoalesceBlocked(x.id) in GroupTrace(Group(s, fp))
               || x.id in GroupConflicts(Group(s, fp)))
              ==> TakesPart(x) && x.fingerprint == fp
    {
      OwnGroupOnly(s, fp, x);
    }
    if TakesPart(x) {
      FingerprintsCover(s, x);
      GroupElects(s, x);
      OwnGroupRecords(s, x);
    }
  }

  lemma OwnGroupRecords(s: seq<ContextItem>, x: ContextItem)
    requires DistinctIds(s) && x in s && TakesPart(x)
    ensures var group := Group(s, x.fingerprint);
            && group != []
            && (DroppedEntry(x) in GroupTrace(group) <==> x !in Representatives(group))
            && (CoalesceBlocked(x.id) in GroupTrace(group) <==> x.sensitivity.SecretLike() && BothSides(s, x))
            && (x.id in GroupConflicts(group) <==> !BothSides(s, x) && !CopiesAgree(s, x))
  {
    hide Group, GroupTrace, GroupConflicts, Representatives, BothSides, Mixed, AllCompatible, Compatible;
    var group := Group(s, x.fingerprint);
    forall y ensures y in group <==> IsCopy(s, x, y) {
      GroupMembers(s, x.fingerprint, y);
    }
    forall y, z | y in group && z in group && y.id == z.id ensures y == z {
      IdDetermines(s, y, z);
    }
    assert x in group;
    GroupRecords(group, x);
    MixedMeansBothSides(s, x, group);
    AdjacentIsPairwise(group);
  }

  // ---------- the build ----------

  lemma {:induction false} AdmissionTracesBudget(t: Tally, s: seq<ContextItem>, max: nat, e: TraceEntry)
    requires e in AdmitAll(t, s, max).trace
    ensures e in t.trace || e.BudgetExcluded? || e.BudgetChunked?
    decreases |s|
  {
    if s != [] {
      AdmissionTracesBudget(AdmitOne(t, s[0], max), s[1..], max, e);
    }
  }

  lemma AdmitTracesBudget(items: seq<ContextItem>, max: nat, e: TraceEntry)
    requires e in Admit(items, max).trace
    ensures e.BudgetExcluded? || e.BudgetChunked?
  {
    hide AdmitAll, Mandatory, Optional, Cost;
    AdmissionTracesBudget(Tally(Mandatory(items), Cost(Mandatory(items)), []), Optional(items), max, e);
  }

  lemma {:induction false} MissingTracesMissing(s: seq<ContextItem>, required: seq<string>, e: TraceEntry)
    requires e in MissingTrace(s, required)
    ensures e.RequiredContextMissing?
  {
    if e !in MissingTrace(s, required[..|required| - 1]) {
    } else {
      MissingTracesMissing(s, required[..|required| - 1], e);
    }
  }

  lemma ConflictTraceHas(conflicts: seq<string>, id: string)
    ensures ConflictSurfaced(id) in ConflictTrace(conflicts) <==> id in conflicts
  {
    if id in conflicts {
      var i :| 0 <= i < |conflicts| && conflicts[i] == id;
      assert ConflictTrace(conflicts)[i] == ConflictSurfaced(id);
    }
  }

  lemma PassTracesCoalescing(s: seq<ContextItem>, fps: seq<string>, e: TraceEntry)
    requires e in Coalesce(s, fps).trace
    ensures e.DuplicateCoalesced? || e.CoalesceBlocked?
  {
    hide Coalesce, GroupTrace, Group;
    TraceIsOfGroups(s, fps, e);
    var fp :| fp in fps && Group(s, fp) != [] && e in GroupTrace(Group(s, fp));
    GroupNames(Group(s, fp), e);
  }

  /** What coalescing traces, nothing else does. */
  lemma TraceParts(q: Request, candidates: seq<ContextItem>, e: TraceEntry)
    requires e.DuplicateCoalesced? || e.CoalesceBlocked? || e.ConflictSurfaced?
    ensures var a, s := Assemble(q, candidates), Presented(q, candidates);
            var pass := Coalesce(s, Fingerprints(s));
            && a.conflicts == pass.conflicts
            && (e in a.trace <==> if e.ConflictSurfaced? then e.id in a.conflicts else e in pass.trace)
  {
    hide Sort, MarkAll, Eligible, Admit, Enhanced, RequiredMissing, Coalesce, Fingerprints, MissingTrace,
      ConflictTrace;
    var s := Presented(q, candidates);
    var pass := Coalesce(s, Fingerprints(s));
    var admitted := Admit(Enhanced(q.enhancer, Eligible(s)).0, q.maxTokens);
    if e in MissingTrace(candidates, q.required) {
      MissingTracesMissing(candidates, q.required, e);
    }
    if e in admitted.trace {
      AdmitTracesBudget(Enhanced(q.enhancer, Eligible(s)).0, q.maxTokens, e);
    }
    if e in pass.trace {
      PassTracesCoalescing(s, Fingerprints(s), e);
    }
    if e.ConflictSurfaced? {
      ConflictTraceHas(pass.conflicts, e.id);
    } else {
      NoConflictEntry(pass.conflicts, e);
    }
    LateTraceHas(pass.conflicts, admitted, Assemble(q, candidates).status, e);
    assert e !in SemanticTrace(q.enhancer, Eligible(s));
  }

  lemma NoConflictEntry(conflicts: seq<string>, e: TraceEntry)
    requires !e.ConflictSurfaced?
    ensures e !in ConflictTrace(conflicts)
  {
  }

  lemma LateTraceHas(conflicts: seq<string>, admitted: Admitted, status: BundleStatus, e: TraceEntry)
    requires !e.Included? && !e.CouldNotBuild?
    ensures e in LateTrace(conflicts, admitted, status) <==> e in ConflictTrace(conflicts) || e in admitted.trace
  {
    hide ConflictTrace;
  }

  lemma SidesPermuted(s: seq<ContextItem>, t: seq<ContextItem>, x: ContextItem)
    requires multiset(s) == multiset(t)
    ensures BothSides(s, x) <==> BothSides(t, x)
    ensures CopiesAgree(s, x) <==> CopiesAgree(t, x)
  {
    hide Compatible;
    forall y ensures IsCopy(s, x, y) <==> IsCopy(t, x, y) {
      SameElements(s, t, y);
    }
  }

  /** A candidate of a build, as marked, that is not an empty git state: it is traced as dropped exactly
      when it is not elected, traced as kept apart exactly when it is secret and copies stand on both
      sides, and surfaced as a conflict exactly when all copies stand on one side and two of them
      disagree. */
  lemma CoalescingIsRecorded(q: Request, candidates: seq<ContextItem>, x: ContextItem)
    requires DistinctIds(candidates) && x in MarkAll(q.pins, q.required, candidates)
    ensures var s, a := MarkAll(q.pins, q.required, candidates), Assemble(q, candidates);
            var secret := x.sensitivity == Secret || x.sensitivity == Excluded;
            && (DuplicateCoalesced(x.id, secret) in a.trace <==> TakesPart(x) && !Elected(s, x))
            && (CoalesceBlocked(x.id) in a.trace <==> TakesPart(x) && secret && BothSides(s, x))
            && (x.id in a.conflicts <==> TakesPart(x) && !BothSides(s, x) && !CopiesAgree(s, x))
            && (ConflictSurfaced(x.id) in a.trace <==> x.id in a.conflicts)
  {
    hide Sort, MarkAll, Assemble, Coalesce, Fingerprints, DistinctIds, Elected, BothSides, CopiesAgree;
    var marked, s := MarkAll(q.pins, q.required, candidates), Presented(q, candidates);
    PresentedIsMarked(q, candidates);
    SameElements(marked, s, x);
    PassRecords(s, x);
    ElectedPermuted(s, marked, x);
    SidesPermuted(s, marked, x);
    TraceParts(q, candidates, DuplicateCoalesced(x.id, x.sensitivity.SecretLike()));
    TraceParts(q, candidates, CoalesceBlocked(x.id));
    TraceParts(q, candidates, ConflictSurfaced(x.id));
  }
}

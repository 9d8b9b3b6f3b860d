/** What becomes of mandatory items across a whole build: coalescing runs before admission and does
    not look at the mandatory mark. */
module RequiredItems {
  import opened Ordering
  import opened ContextItems
  import opened Coalescing
  import opened Semantic
  import opened Admission
  import opened Assembly

  // ---------- which copy of the same bytes is kept ----------

  /** `y` is a copy of the bytes of `x` among the candidates `s` that take part. */
  predicate IsCopy(s: seq<ContextItem>, x: ContextItem, y: ContextItem) {
    y in s && TakesPart(y) && y.fingerprint == x.fingerprint
  }

  /** Copies of these bytes stand on both sides of the secret threshold. */
  ghost predicate BothSides(s: seq<ContextItem>, x: ContextItem) {
    && (exists y | IsCopy(s, x, y) :: y.sensitivity.SecretLike())
    && (exists y | IsCopy(s, x, y) :: !y.sensitivity.SecretLike())
  }

  ghost predicate CopiesAgree(s: seq<ContextItem>, x: ContextItem) {
    forall y, z | IsCopy(s, x, y) && IsCopy(s, x, z) :: Compatible(y, z)
  }

  /** With copies on both sides every secret one is kept, and of the public ones the first in
      pre-semantic order. Otherwise copies that disagree are all kept, and of agreeing ones the one with
      the least id. */
  ghost predicate Elected(s: seq<ContextItem>, x: ContextItem) {
    && TakesPart(x)
    && if BothSides(s, x) then
         x.sensitivity.SecretLike() ||
         forall y | IsCopy(s, x, y) && !y.sensitivity.SecretLike() :: PreSemanticLe(x, y)
       else
         !CopiesAgree(s, x) || forall y | IsCopy(s, x, y) :: TextLe(x.id, y.id)
  }

  lemma {:induction false} GroupSorted(s: seq<ContextItem>, fp: string)
    requires Sorted(PreSemanticLe, s)
    ensures Sorted(PreSemanticLe, Group(s, fp))
  {
    hide PreSemanticLe;
    if s != [] {
      var front, last := s[..|s| - 1], s[|s| - 1];
      GroupSorted(front, fp);
      forall y | y in Group(front, fp) ensures PreSemanticLe(y, last) {
        GroupMembers(front, fp, y);
        var i :| 0 <= i < |front| && front[i] == y;
        assert PreSemanticLe(s[i], s[|s| - 1]);
      }
    }
  }

  lemma {:induction false} PublicSorted(s: seq<ContextItem>)
    requires Sorted(PreSemanticLe, s)
    ensures Sorted(PreSemanticLe, PublicOf(s))
  {
    hide PreSemanticLe;
    if s != [] {
      var front, last := s[..|s| - 1], s[|s| - 1];
      PublicSorted(front);
      forall y | y in PublicOf(front) ensures PreSemanticLe(y, last) {
        SideMembers(front, y);
        var i :| 0 <= i < |front| && front[i] == y;
        assert PreSemanticLe(s[i], s[|s| - 1]);
      }
    }
  }

  /** In pre-semantic order the highest authority comes first. */
  lemma {:induction false} HighestIsFirst(s: seq<ContextItem>)
    requires s != [] && Sorted(PreSemanticLe, s)
    ensures HighestAuthority(s) == s[0]
  {
    if |s| > 1 {
      HighestIsFirst(s[..|s| - 1]);
      assert PreSemanticLe(s[0], s[|s| - 1]);
    }
  }

  lemma FirstIsLeast(s: seq<ContextItem>, x: ContextItem)
    requires s != [] && Sorted(PreSemanticLe, s) && x in s
    requires forall y, z | y in s && z in s && y.id == z.id :: y == z
    ensures x == s[0] <==> forall y | y in s :: PreSemanticLe(x, y)
  {
    hide PreSemanticLe;
    OrdersAreTotal();
    assert forall y | y in s :: PreSemanticLe(s[0], y);
    if forall y | y in s :: PreSemanticLe(x, y) {
      TiesShareKeys(x, s[0]);
    }
  }

  lemma LeastIsLeastId(s: seq<ContextItem>, x: ContextItem)
    requires s != [] && x in s
    requires forall y, z | y in s && z in s && y.id == z.id :: y == z
    ensures x == LeastId(s) <==> forall y | y in s :: TextLe(x.id, y.id)
  {
    hide LeastId, TextLe;
    LeastIdIsMember(s);
    if forall y | y in s :: TextLe(x.id, y.id) {
      TextAntisymmetric(x.id, LeastId(s).id);
    }
  }

  lemma AdjacentIsPairwise(s: seq<ContextItem>)
    ensures AllCompatible(s) <==> forall y, z | y in s && z in s :: Compatible(y, z)
  {
    if AllCompatible(s) {
      forall y, z | y in s && z in s ensures Compatible(y, z) {
        var i :| 0 <= i < |s| && s[i] == y;
        var j :| 0 <= j < |s| && s[j] == z;
        if i <= j {
          CompatibleGroupAgrees(s, i, j);
        } else {
          CompatibleGroupAgrees(s, j, i);
        }
      }
    }
  }

  lemma MixedMeansBothSides(s: seq<ContextItem>, x: ContextItem, group: seq<ContextItem>)
    requires forall y :: y in group <==> IsCopy(s, x, y)
    ensures Mixed(group) <==> BothSides(s, x)
  {
    hide PublicOf, SecretOf, IsCopy;
    forall y ensures y in SecretOf(group) <==> y in group && y.sensitivity.SecretLike()
      ensures y in PublicOf(group) <==> y in group && !y.sensitivity.SecretLike()
    {
      SideMembers(group, y);
    }
    if Mixed(group) {
      assert SecretOf(group)[0] in SecretOf(group) && PublicOf(group)[0] in PublicOf(group);
      assert IsCopy(s, x, SecretOf(group)[0]) && IsCopy(s, x, PublicOf(group)[0]);
    }
  }

  lemma MixedElects(s: seq<ContextItem>, x: ContextItem, group: seq<ContextItem>)
    requires forall y :: y in group <==> IsCopy(s, x, y)
    requires Sorted(PreSemanticLe, group) && x in group && BothSides(s, x)
    requires forall y, z | y in group && z in group && y.id == z.id :: y == z
    ensures x in Representatives(group) <==> Elected(s, x)
  {
    hide PublicOf, SecretOf, PreSemanticLe;
    var p := PublicOf(group);
    MixedMeansBothSides(s, x, group);
    forall y ensures y in SecretOf(group) <==> y in group && y.sensitivity.SecretLike()
      ensures y in p <==> y in group && !y.sensitivity.SecretLike()
    {
      SideMembers(group, y);
    }
    PublicSorted(group);
    HighestIsFirst(p);
    assert |group| > 1;
    if x in p {
      FirstIsLeast(p, x);
      assert forall y :: y in p <==> IsCopy(s, x, y) && !y.sensitivity.SecretLike();
    }
  }

  lemma OneSideElects(s: seq<ContextItem>, x: ContextItem, group: seq<ContextItem>)
    requires forall y :: y in group <==> IsCopy(s, x, y)
    requires x in group && !BothSides(s, x)
    requires forall y, z | y in group && z in group && y.id == z.id :: y == z
    ensures x in Representatives(group) <==> Elected(s, x)
  {
    hide PublicOf, SecretOf, AllCompatible, LeastId, TextLe, Compatible;
    MixedMeansBothSides(s, x, group);
    AdjacentIsPairwise(group);
    LeastIsLeastId(group, x);
    if |group| == 1 {
      TextTotal(x.id, x.id);
      assert group == [x];
    }
  }

  lemma GroupElects(s: seq<ContextItem>, x: ContextItem)
    requires DistinctIds(s) && Sorted(PreSemanticLe, s) && x in s && TakesPart(x)
    ensures Group(s, x.fingerprint) != []
    ensures x in Representatives(Group(s, x.fingerprint)) <==> Elected(s, x)
  {
    hide Group, Representatives, Elected, PreSemanticLe, BothSides;
    var group := Group(s, x.fingerprint);
    forall y ensures y in group <==> IsCopy(s, x, y) {
      GroupMembers(s, x.fingerprint, y);
    }
    GroupSorted(s, x.fingerprint);
    forall y, z | y in group && z in group && y.id == z.id ensures y == z {
      IdDetermines(s, y, z);
    }
    if BothSides(s, x) {
      MixedElects(s, x, group);
    } else {
      OneSideElects(s, x, group);
    }
  }

  lemma {:induction false} SelectedIsRepresentative(s: seq<ContextItem>, fps: seq<string>, x: ContextItem)
    returns (fp: string)
    requires x in Coalesce(s, fps).selected
    ensures Group(s, fp) != [] && x in Representatives(Group(s, fp))
  {
    hide Representatives, GroupTrace, GroupConflicts, Consume;
    var less, last := fps[..|fps| - 1], fps[|fps| - 1];
    CoalesceSelects(s, less);
    if x in Coalesce(s, less).selected {
      fp := SelectedIsRepresentative(s, less, x);
    } else {
      fp := last;
      ConsumeMembers(Coalesce(s, less).selected, Representatives(Group(s, fp)));
    }
  }

  lemma EligibleIffRepresentative(s: seq<ContextItem>, x: ContextItem)
    requires DistinctIds(s) && x in s && TakesPart(x)
    ensures Group(s, x.fingerprint) != []
    ensures x in Eligible(s) <==> x in Representatives(Group(s, x.fingerprint))
  {
    hide Representatives, Sort, Coalesce, Fingerprints, Group;
    var fps := Fingerprints(s);
    GroupMembers(s, x.fingerprint, x);
    FingerprintsCover(s, x);
    SortIsPermutation(SelectionLe, Coalesce(s, fps).selected);
    SameElements(Coalesce(s, fps).selected, Eligible(s), x);
    if x in Representatives(Group(s, x.fingerprint)) {
      var k :| 0 <= k < |fps| && fps[k] == x.fingerprint;
      RepresentativesAreSelected(s, fps, k, x);
    }
    if x in Coalesce(s, fps).selected {
      var fp := SelectedIsRepresentative(s, fps, x);
      RepresentativesAreMembers(Group(s, fp), x);
      GroupMembers(s, fp, x);
    }
  }

  lemma ElectedPermuted(s: seq<ContextItem>, t: seq<ContextItem>, x: ContextItem)
    requires multiset(s) == multiset(t)
    ensures Elected(s, x) <==> Elected(t, x)
  {
    hide PreSemanticLe, TextLe, Compatible;
    forall y ensures IsCopy(s, x, y) <==> IsCopy(t, x, y) {
      SameElements(s, t, y);
    }
  }

  /** The list that coalescing sees. */
  function Presented(q: Request, candidates: seq<ContextItem>): seq<ContextItem> {
    Sort(PreSemanticLe, MarkAll(q.pins, q.required, candidates))
  }

  lemma PresentedIsMarked(q: Request, candidates: seq<ContextItem>)
    requires DistinctIds(candidates)
    ensures DistinctIds(Presented(q, candidates)) && Sorted(PreSemanticLe, Presented(q, candidates))
    ensures multiset(Presented(q, candidates)) == multiset(MarkAll(q.pins, q.required, candidates))
  {
    hide MarkAll, Sort;
    var marked := MarkAll(q.pins, q.required, candidates);
    MarkAllDistinct(q.pins, q.required, candidates);
    OrdersAreTotal();
    SortIsPermutation(PreSemanticLe, marked);
    SortIsSorted(PreSemanticLe, marked);
    DistinctIdsPermuted(marked, Presented(q, candidates));
  }

  /** A marked candidate is eligible exactly when it is elected among the marked candidates. */
  lemma SurvivesIff(q: Request, candidates: seq<ContextItem>, x: ContextItem)
    requires DistinctIds(candidates) && x in MarkAll(q.pins, q.required, candidates)
    ensures x in Assemble(q, candidates).eligible <==> Elected(MarkAll(q.pins, q.required, candidates), x)
  {
    hide Sort, MarkAll, Eligible, Admit, Enhanced, Representatives, Group, RequiredMissing, DistinctIds, Sorted;
    var marked, s := MarkAll(q.pins, q.required, candidates), Presented(q, candidates);
    PresentedIsMarked(q, candidates);
    SameElements(marked, s, x);
    if TakesPart(x) {
      EligibleIffRepresentative(s, x);
      GroupElects(s, x);
      ElectedPermuted(s, marked, x);
    } else {
      EligibleIsSound(s);
    }
  }

  // ---------- mandatory items ----------

  lemma {:induction false} AdmissionAddsOptional(t: Tally, s: seq<ContextItem>, max: nat, x: ContextItem)
    requires x.mandatory && forall i | 0 <= i < |s| :: !s[i].mandatory
    ensures x in AdmitAll(t, s, max).selected <==> x in t.selected
    decreases |s|
  {
    if s != [] {
      AdmissionAddsOptional(AdmitOne(t, s[0], max), s[1..], max, x);
    }
  }

  lemma PartsMembers(items: seq<ContextItem>, x: ContextItem)
    ensures x in Mandatory(items) <==> x in items && x.mandatory
    ensures x in Optional(items) <==> x in items && !x.mandatory
  {
    hide Sort, Only;
    SortIsPermutation(SelectionLe, Only(items, true));
    SortIsPermutation(SelectionLe, Only(items, false));
    SameElements(Only(items, true), Mandatory(items), x);
    SameElements(Only(items, false), Optional(items), x);
    OnlyMembers(items, true, x);
    OnlyMembers(items, false, x);
  }

  /** Admission selects every mandatory item it is given, or nothing. */
  lemma MandatoryIsAdmitted(items: seq<ContextItem>, max: nat, x: ContextItem)
    requires x.mandatory && Admit(items, max).status == Dispatchable
    ensures x in Admit(items, max).selected <==> x in items
  {
    hide AdmitAll, Mandatory, Optional, Cost;
    var m, o := Mandatory(items), Optional(items);
    PartsMembers(items, x);
    forall i | 0 <= i < |o| ensures !o[i].mandatory {
      PartsMembers(items, o[i]);
    }
    AdmissionAddsOptional(Tally(m, Cost(m), []), o, max, x);
  }

  /** In a dispatchable bundle a mandatory candidate is selected exactly when it is elected among the
      marked candidates. An empty git-state candidate never is. */
  lemma MandatoryIsSelectedIff(q: Request, candidates: seq<ContextItem>, x: ContextItem)
    requires DistinctIds(candidates) && x in MarkAll(q.pins, q.required, candidates) && x.mandatory
    requires Assemble(q, candidates).status == Dispatchable
    ensures x in Assemble(q, candidates).selected <==> Elected(MarkAll(q.pins, q.required, candidates), x)
  {
    hide Sort, MarkAll, Eligible, Admit, Applied, Elected, RequiredMissing, DistinctIds;
    SurvivesIff(q, candidates, x);
    EnhancerCannotInterfere(q, candidates);
    var eligible := Assemble(q, candidates).eligible;
    var items := Enhanced(q.enhancer, eligible).0;
    SameElements(eligible, items, x);
    MandatoryIsAdmitted(items, q.maxTokens, x);
  }

  /** A required empty git state is marked mandatory, takes no part, and is missing from the
      dispatchable bundle. */
  lemma RequiredGitStateIsSkipped(q: Request, candidates: seq<ContextItem>, x: ContextItem)
    requires DistinctIds(candidates) && x in MarkAll(q.pins, q.required, candidates)
    requires x.provenance.path in q.required && x.sourceClass.GitState? && x.payload == []
    requires Assemble(q, candidates).status == Dispatchable
    ensures x.mandatory && x !in Assemble(q, candidates).selected
  {
    hide Assemble, DistinctIds;
    MarkAllPointwise(q.pins, q.required, candidates);
    MandatoryIsSelectedIff(q, candidates, x);
  }

  /** Required by itself, it gives a dispatchable bundle with nothing in it, at every budget. */
  lemma RequiredGitStateAlone(q: Request, x: ContextItem)
    requires x.sourceClass.GitState? && x.payload == [] && q.required == [x.provenance.path]
    ensures Assemble(q, [x]).status == Dispatchable && Assemble(q, [x]).selected == []
  {
    hide Sort, Eligible, Applied, Enhanced, MarkAll, AdmitAll;
    var marked, s := MarkAll(q.pins, q.required, [x]), Presented(q, [x]);
    MarkAllPointwise(q.pins, q.required, [x]);
    PresentedIsMarked(q, [x]);
    EligibleIsSound(s);
    AssembledAt(q, [x], q.maxTokens);
    assert q.(maxTokens := q.maxTokens) == q;
    var items := Offered(q, [x]);
    if items != [] {
      SameElements(Eligible(s), items, items[0]);
      SameElements(s, marked, items[0]);
    }
    assert [x][0].provenance.path == x.provenance.path;
    assert PathPresent([x], x.provenance.path);
    NothingOffered(q.maxTokens);
  }

  lemma NothingOffered(max: nat)
    ensures Admit([], max).status == Dispatchable && Admit([], max).selected == []
  {
  }

  /** Among copies that agree, one with a lesser id takes the place of `x`. */
  lemma LesserCopyWins(s: seq<ContextItem>, x: ContextItem, other: ContextItem)
    requires CopiesAgree(s, x) && IsCopy(s, x, other) && other.id != x.id && TextLe(other.id, x.id)
    ensures !Elected(s, x)
  {
    hide TextLe, PreSemanticLe, IsCopy;
    assert !BothSides(s, x) by {
      forall y, z | IsCopy(s, x, y) && IsCopy(s, x, z) ensures y.sensitivity == z.sensitivity {
        assert Compatible(y, z);
      }
    }
    if TextLe(x.id, other.id) {
      TextAntisymmetric(x.id, other.id);
    }
  }

  /** A required file is not always in a dispatchable bundle: when another compatible candidate, on
      the same side of the secret threshold as all copies, has the same bytes and a lesser id, the
      required one is dropped. */
  lemma RequiredCopyIsCoalescedAway(q: Request, candidates: seq<ContextItem>, x: ContextItem, other: ContextItem)
    requires DistinctIds(candidates) && Assemble(q, candidates).status == Dispatchable
    requires x in MarkAll(q.pins, q.required, candidates) && x.provenance.path in q.required && TakesPart(x)
    requires IsCopy(MarkAll(q.pins, q.required, candidates), x, other) && other.id != x.id && TextLe(other.id, x.id)
    requires CopiesAgree(MarkAll(q.pins, q.required, candidates), x)
    ensures x.mandatory && x !in Assemble(q, candidates).selected
  {
    hide Assemble, DistinctIds, TextLe, Elected, CopiesAgree, IsCopy;
    MarkAllPointwise(q.pins, q.required, candidates);
    MandatoryIsSelectedIff(q, candidates, x);
    LesserCopyWins(MarkAll(q.pins, q.required, candidates), x, other);
  }

  // ---------- their bytes ----------

  /** Some selected item holds these bytes uncut. */
  ghost predicate CarriesWhole(a: Assembled, fingerprint: string) {
    exists y | y in a.selected :: y in a.eligible && y.fingerprint == fingerprint
  }

  /** An eligible item with these bytes that no budget can drop. */
  ghost predicate Anchored(a: Assembled, fingerprint: string) {
    exists e | e in a.eligible :: e.fingerprint == fingerprint && (e.mandatory || e.tokens == 0)
  }

  lemma {:induction false} FreeIsAdmitted(t: Tally, s: seq<ContextItem>, max: nat, x: ContextItem)
    requires t.used == Cost(t.selected) <= max && x.tokens == 0 && (x in s || x in t.selected)
    ensures x in AdmitAll(t, s, max).selected
    decreases |s|
  {
    if s != [] {
      hide Cost;
      AdmitOneWithin(t, s[0], max);
      FreeIsAdmitted(AdmitOne(t, s[0], max), s[1..], max, x);
    }
  }

  lemma {:induction false} FreeMembers(s: seq<ContextItem>, x: ContextItem)
    ensures x in Free(s) <==> x in s && x.tokens == 0
  {
    if s != [] {
      FreeMembers(s[1..], x);
      assert s == [s[0]] + s[1..];
    }
  }

  lemma AnchorIsSelected(items: seq<ContextItem>, max: nat, x: ContextItem)
    requires Admit(items, max).status == Dispatchable && x in items && (x.mandatory || x.tokens == 0)
    ensures x in Admit(items, max).selected
  {
    hide AdmitAll, Mandatory, Optional, Cost;
    PartsMembers(items, x);
    if x.mandatory {
      MandatoryIsAdmitted(items, max, x);
    } else {
      FreeIsAdmitted(Tally(Mandatory(items), Cost(Mandatory(items)), []), Optional(items), max, x);
    }
  }

  /** At the least budget that covers the mandatory items nothing else that costs is selected. */
  lemma LeastBudgetKeepsAnchors(items: seq<ContextItem>, x: ContextItem)
    requires x in Admit(items, Cost(Mandatory(items))).selected
    ensures x in items && (x.mandatory || x.tokens == 0)
  {
    hide AdmitAll, Mandatory, Optional, Cost, Free;
    var m, o := Mandatory(items), Optional(items);
    FullTakesFree(Tally(m, Cost(m), []), o, Cost(m));
    PartsMembers(items, x);
    FreeMembers(o, x);
  }

  /** The items handed to admission, whatever the budget. */
  function Offered(q: Request, candidates: seq<ContextItem>): seq<ContextItem> {
    Enhanced(q.enhancer, Eligible(Presented(q, candidates))).0
  }

  lemma AssembledAt(q: Request, candidates: seq<ContextItem>, max: nat)
    ensures var a := Assemble(q.(maxTokens := max), candidates);
            && a.eligible == Eligible(Presented(q, candidates))
            && multiset(Offered(q, candidates)) == multiset(a.eligible)
            && a.selected == Admit(Offered(q, candidates), max).selected
            && (a.status == Dispatchable <==>
                  !RequiredMissing(candidates, q.required) && Admit(Offered(q, candidates), max).status == Dispatchable)
  {
    hide Sort, MarkAll, Eligible, Admit, Applied, RequiredMissing;
    EnhancerCannotInterfere(q.(maxTokens := max), candidates);
  }

  /** Whatever budget gives a dispatchable bundle, some selected item holds the bytes whole: exactly
      when some eligible item with them is mandatory or free, or no budget gives one. */
  lemma BytesAlwaysKeptIff(q: Request, candidates: seq<ContextItem>, fingerprint: string)
    ensures (forall max: nat ::
               Assemble(q.(maxTokens := max), candidates).status == Dispatchable
               ==> CarriesWhole(Assemble(q.(maxTokens := max), candidates), fingerprint))
            <==> RequiredMissing(candidates, q.required) || Anchored(Assemble(q, candidates), fingerprint)
  {
    hide Assemble, Admit, RequiredMissing;
    var items := Offered(q, candidates);
    AssembledAt(q, candidates, q.maxTokens);
    assert q.(maxTokens := q.maxTokens) == q;
    var a := Assemble(q, candidates);
    if Anchored(a, fingerprint) {
      var e :| e in a.eligible && e.fingerprint == fingerprint && (e.mandatory || e.tokens == 0);
      forall max: nat | Assemble(q.(maxTokens := max), candidates).status == Dispatchable
        ensures CarriesWhole(Assemble(q.(maxTokens := max), candidates), fingerprint)
      {
        AssembledAt(q, candidates, max);
        SameElements(a.eligible, items, e);
        AnchorIsSelected(items, max, e);
      }
    } else if RequiredMissing(candidates, q.required) {
      forall max: nat ensures Assemble(q.(maxTokens := max), candidates).status != Dispatchable {
        AssembledAt(q, candidates, max);
      }
    } else {
      var least := Cost(Mandatory(items));
      AssembledAt(q, candidates, least);
      AdmissionIsWithinBudget(items, least);
      var b := Assemble(q.(maxTokens := least), candidates);
      if CarriesWhole(b, fingerprint) {
        var y :| y in b.selected && y in b.eligible && y.fingerprint == fingerprint;
        LeastBudgetKeepsAnchors(items, y);
      }
    }
  }

  /** Before the build: such an item is eligible exactly when one is elected among the marked candidates. */
  lemma AnchoredIffElected(q: Request, candidates: seq<ContextItem>, fingerprint: string)
    requires DistinctIds(candidates)
    ensures Anchored(Assemble(q, candidates), fingerprint) <==>
            exists e | e in MarkAll(q.pins, q.required, candidates) ::
              && Elected(MarkAll(q.pins, q.required, candidates), e)
              && e.fingerprint == fingerprint && (e.mandatory || e.tokens == 0)
  {
    hide Sort, MarkAll, Eligible, Admit, Enhanced, Elected, RequiredMissing, DistinctIds;
    var marked, a := MarkAll(q.pins, q.required, candidates), Assemble(q, candidates);
    PresentedIsMarked(q, candidates);
    EligibleIsSound(Presented(q, candidates));
    forall e ensures e in a.eligible <==> e in marked && Elected(marked, e) {
      SameElements(marked, Presented(q, candidates), e);
      if e in marked {
        SurvivesIff(q, candidates, e);
      }
    }
  }

  /** Two compatible copies, the required one with the greater id: at budget zero the bundle is
      dispatchable and empty. */
  lemma RequiredPairVanishes(q: Request, a: ContextItem, b: ContextItem)
    requires TakesPart(a) && TakesPart(b) && a.fingerprint == b.fingerprint && a.id != b.id && TextLe(a.id, b.id)
    requires Compatible(Marked(q.pins, q.required, a), Marked(q.pins, q.required, b))
    requires !a.mandatory && a.tokens > 0 && a.provenance.path !in q.required
    requires q.required == [b.provenance.path] && q.maxTokens == 0
    ensures Assemble(q, [a, b]).status == Dispatchable && Assemble(q, [a, b]).selected == []
  {
    hide Sort, Eligible, Admit, Applied, Enhanced, TextLe, PreSemanticLe, Elected, BothSides;
    var x, y := Marked(q.pins, q.required, a), Marked(q.pins, q.required, b);
    var marked := MarkAll(q.pins, q.required, [a, b]);
    MarkAllPointwise(q.pins, q.required, [a, b]);
    assert marked == [x, y];
    LesserCopyWins(marked, y, x);
    SurvivesIff(q, [a, b], y);
    OnlyTheOtherIsOffered(q, [a, b], x, y);
    OptionalOnlyVanishes(Offered(q, [a, b]));
    AssembledAt(q, [a, b], 0);
    assert q.(maxTokens := 0) == q;
    assert PathPresent([a, b], b.provenance.path) by {
      assert [a, b][1].provenance.path == b.provenance.path;
    }
  }

  lemma OnlyTheOtherIsOffered(q: Request, candidates: seq<ContextItem>, x: ContextItem, y: ContextItem)
    requires DistinctIds(candidates) && MarkAll(q.pins, q.required, candidates) == [x, y]
    requires y !in Assemble(q, candidates).eligible
    ensures forall z | z in Offered(q, candidates) :: z == x
  {
    hide Sort, Eligible, Admit, Applied, Enhanced, PreSemanticLe, MarkAll;
    var s := Presented(q, candidates);
    PresentedIsMarked(q, candidates);
    EligibleIsSound(s);
    AssembledAt(q, candidates, q.maxTokens);
    assert q.(maxTokens := q.maxTokens) == q;
    forall z | z in Offered(q, candidates) ensures z == x {
      SameElements(Eligible(s), Offered(q, candidates), z);
      SameElements(s, [x, y], z);
    }
  }

  lemma {:induction false} OptionalOnlyVanishes(items: seq<ContextItem>)
    requires forall z | z in items :: !z.mandatory && z.tokens > 0
    ensures Admit(items, 0).status == Dispatchable && Admit(items, 0).selected == []
  {
    hide AdmitAll, Mandatory, Optional, Free;
    var m, o := Mandatory(items), Optional(items);
    if m != [] {
      PartsMembers(items, m[0]);
    }
    assert m == [] && Cost(m) == 0;
    FullTakesFree(Tally(m, 0, []), o, 0);
    if Free(o) != [] {
      FreeMembers(o, Free(o)[0]);
      PartsMembers(items, Free(o)[0]);
    }
  }
}

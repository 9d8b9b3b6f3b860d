/** Bundles built from a discovery report, re-evaluated against that same report. */
module Freshness {
  import opened Basics
  import opened Texts
  import opened Ordering
  import opened ContextItems
  import opened Coalescing
  import opened Semantic
  import opened Admission
  import opened Assembly
  import opened Digest
  import opened Bundle

  /** The bytes and sensitivity a source was read with; none when it could not be read. */
  datatype Reading = Reading(payload: seq<Byte>, sensitivity: SensitivityClass)

  type ReadSource = DiscoveredSource -> Option<Reading>

  function Materialize(src: DiscoveredSource, r: Reading): ContextItem {
    var p := src.provenance;
    var fingerprint := FingerprintOr(p, Hex(DigestOf(r.payload)));
    ContextItem(ItemId(p.repository, p.worktree, p.path, fingerprint, None), src.sourceClass,
                AuthorityFor(src.sourceClass), r.sensitivity, p, fingerprint,
                EstimateTokens(r.payload), r.payload, None, false)
  }

  function Candidates(report: Report, read: ReadSource): seq<ContextItem> {
    if report == [] then []
    else
      var src := report[|report| - 1];
      var before := Candidates(report[..|report| - 1], read);
      if src.excluded || read(src).None? then before else before + [Materialize(src, read(src).value)]
  }

  // ---------- what holds of every candidate ----------

  /** The item says what the source and its reading say: no range yet, not mandatory yet, authority by class,
      and the recorded fingerprint, or else the digest of the bytes. */
  ghost predicate Renders(src: DiscoveredSource, r: Reading, x: ContextItem) {
    && !src.excluded && x.provenance == src.provenance && x.sourceClass == src.sourceClass
    && x.authority == AuthorityFor(src.sourceClass) && x.sensitivity == r.sensitivity && x.payload == r.payload
    && x.range.None? && !x.mandatory
    && (src.provenance.fingerprint == Some(x.fingerprint)
        || (src.provenance.fingerprint.None? && x.fingerprint == Hex(DigestOf(r.payload))))
  }

  predicate Usable(src: DiscoveredSource, read: ReadSource) {
    !src.excluded && read(src).Some?
  }

  /** The positions of the sources that become candidates. */
  function Origins(report: Report, read: ReadSource): seq<nat> {
    if report == [] then []
    else
      Origins(report[..|report| - 1], read) + if Usable(report[|report| - 1], read) then [|report| - 1] else []
  }

  lemma {:induction false} OriginsAre(report: Report, read: ReadSource)
    ensures forall k: nat :: k in Origins(report, read) <==> k < |report| && Usable(report[k], read)
    ensures forall i, j | 0 <= i < j < |Origins(report, read)| :: Origins(report, read)[i] < Origins(report, read)[j]
  {
    hide Usable;
    if report != [] {
      var n := |report| - 1;
      OriginsAre(report[..n], read);
      var before := Origins(report[..n], read);
      assert forall i | 0 <= i < |before| :: before[i] in before && before[i] < n;
    }
  }

  /** Every eligible source that can be read becomes a candidate that says what it says; every candidate comes
      from one, in the order of the report. */
  lemma {:induction false} CandidatesRender(report: Report, read: ReadSource, i: nat)
    ensures |Origins(report, read)| == |Candidates(report, read)|
    ensures i < |Origins(report, read)| ==>
            var k := Origins(report, read)[i];
            k < |report| && Usable(report[k], read)
            && Renders(report[k], read(report[k]).value, Candidates(report, read)[i])
  {
    hide Renders, Materialize;
    if report != [] {
      var n := |report| - 1;
      CandidatesRender(report[..n], read, i);
      RendersMaterialized(report[n], read);
    }
  }

  lemma RendersMaterialized(src: DiscoveredSource, read: ReadSource)
    ensures !src.excluded && read(src).Some? ==> Renders(src, read(src).value, Materialize(src, read(src).value))
  {
    hide Hex, DigestOf;
  }

  predicate DigestText(s: string) {
    |s| == 32 && IsHex(s)
  }

  /** Fingerprints in the report are digest texts. */
  ghost predicate Digested(report: Report) {
    forall k | 0 <= k < |report| ::
      report[k].provenance.fingerprint.Some? ==> DigestText(report[k].provenance.fingerprint.value)
  }

  /** What is read has a 64-bit length. */
  ghost predicate ReadsFit(read: ReadSource) {
    forall src :: read(src).Some? ==> |read(src).value.payload| <= U64_MAX
  }

  /** The item carries an eligible source's provenance, and its fingerprint if it has one. */
  ghost predicate Sourced(x: ContextItem, report: Report) {
    exists k | 0 <= k < |report| ::
      && !report[k].excluded && report[k].provenance == x.provenance
      && (x.provenance.fingerprint.Some? ==> x.fingerprint == x.provenance.fingerprint.value)
  }

  /** An uncut item: its id ends in its fingerprint, and its estimate comes from its payload. */
  predicate Whole(x: ContextItem) {
    && x.id == ItemId(x.provenance.repository, x.provenance.worktree, x.provenance.path, x.fingerprint, None)
    && DigestText(x.fingerprint) && Estimated(x)
  }

  ghost predicate AllSourced(s: seq<ContextItem>, report: Report) {
    forall i | 0 <= i < |s| :: Sourced(s[i], report)
  }

  ghost predicate AllWhole(s: seq<ContextItem>) {
    forall i | 0 <= i < |s| :: Whole(s[i])
  }

  lemma MaterializedIsWhole(src: DiscoveredSource, r: Reading)
    requires src.provenance.fingerprint.Some? ==> DigestText(src.provenance.fingerprint.value)
    requires |r.payload| <= U64_MAX
    ensures Whole(Materialize(src, r))
  {
    hide DigestOf, Hex, ItemId, IsHex;
    PairsOfHex(DigestOf(r.payload));
  }

  lemma {:induction false} CandidatesAreSound(report: Report, whole: Report, read: ReadSource)
    requires report <= whole && Digested(whole) && ReadsFit(read)
    ensures AllWhole(Candidates(report, read)) && AllSourced(Candidates(report, read), whole)
  {
    hide Materialize, Whole, Digested;
    if report != [] {
      var n := |report| - 1;
      var src := report[n];
      CandidatesAreSound(report[..n], whole, read);
      assert src == whole[n];
      if !src.excluded && read(src).Some? {
        MaterializedIsSound(whole, n, read(src).value);
      }
    }
  }

  lemma MaterializedIsSound(whole: Report, n: nat, r: Reading)
    requires Digested(whole) && n < |whole| && !whole[n].excluded && |r.payload| <= U64_MAX
    ensures Whole(Materialize(whole[n], r)) && Sourced(Materialize(whole[n], r), whole)
  {
    hide Whole, DigestOf, Hex, ItemId;
    MaterializedIsWhole(whole[n], r);
    assert whole[n].provenance == Materialize(whole[n], r).provenance;
  }

  // ---------- carried through assembly ----------

  ghost predicate Sound(s: seq<ContextItem>, report: Report) {
    AllWhole(s) && AllSourced(s, report)
  }

  lemma SoundSubset(s: seq<ContextItem>, t: seq<ContextItem>, report: Report)
    requires Sound(s, report) && forall x | x in t :: x in s
    ensures Sound(t, report)
  {
    hide Whole, Sourced;
    forall i | 0 <= i < |t| ensures Whole(t[i]) && Sourced(t[i], report) {
      assert t[i] in t;
      var k :| 0 <= k < |s| && s[k] == t[i];
    }
  }

  lemma SoundPermuted(s: seq<ContextItem>, t: seq<ContextItem>, report: Report)
    requires Sound(s, report) && multiset(s) == multiset(t)
    ensures Sound(t, report)
  {
    hide Sound;
    forall x | x in t ensures x in s {
      SameElements(s, t, x);
    }
    SoundSubset(s, t, report);
  }

  lemma SoundMarked(pins: set<string>, required: seq<string>, s: seq<ContextItem>, report: Report)
    requires Sound(s, report)
    ensures Sound(MarkAll(pins, required, s), report)
  {
    hide MarkAll, DigestText, Estimated;
    var m := MarkAll(pins, required, s);
    MarkAllPointwise(pins, required, s);
    forall i | 0 <= i < |m| ensures Whole(m[i]) && Sourced(m[i], report) {
      MarkedIsSound(pins, required, s[i], report);
    }
  }

  lemma MarkedIsSound(pins: set<string>, required: seq<string>, x: ContextItem, report: Report)
    requires Whole(x) && Sourced(x, report)
    ensures Whole(Marked(pins, required, x)) && Sourced(Marked(pins, required, x), report)
  {
    hide DigestText, ItemId;
  }

  /** What reaches admission is whole, sourced and of distinct ids. */
  lemma AdmissionInputIsSound(q: Request, candidates: seq<ContextItem>, report: Report)
    requires Sound(candidates, report)
    ensures var items := Enhanced(q.enhancer, Assemble(q, candidates).eligible).0;
            Sound(items, report) && DistinctIds(items)
  {
    hide Sound, Sort, MarkAll, Eligible, Applied, Admit, DistinctIds;
    var marked := MarkAll(q.pins, q.required, candidates);
    var sorted := Sort(PreSemanticLe, marked);
    var eligible := Eligible(sorted);
    SoundMarked(q.pins, q.required, candidates, report);
    SortIsPermutation(PreSemanticLe, marked);
    SoundPermuted(marked, sorted, report);
    EligibleIsSound(sorted);
    SoundSubset(sorted, eligible, report);
    if q.enhancer.Some? {
      var outcome := q.enhancer.value(eligible);
      AppliedIsPermutation(outcome, eligible);
      SoundPermuted(eligible, Applied(outcome, eligible).0, report);
      DistinctIdsPermuted(eligible, Applied(outcome, eligible).0);
    }
  }

  // ---------- a cut id is nobody else's ----------

  function Pow10(n: nat): nat {
    if n == 0 then 1 else 10 * Pow10(n - 1)
  }

  lemma {:induction false} DecimalLength(n: nat, k: nat)
    requires k > 0 && n < Pow10(k)
    ensures |Decimal(n)| <= k
  {
    if n >= 10 {
      DecimalLength(n / 10, k - 1);
    }
  }

  lemma LengthsAreShort(n: nat)
    requires n <= U64_MAX
    ensures |Decimal(n)| <= 20
  {
    assert Pow10(5) == 100000;
    assert Pow10(10) == 10000000000;
    assert Pow10(15) == 1000000000000000;
    assert Pow10(20) == 100000000000000000000;
    DecimalLength(n, 20);
  }

  /** A text that ends in thirty-two hex digits has no colon among its last ones. */
  lemma NoColonNearEnd(front: string, digits: string, head: string, tail: string)
    requires DigestText(digits) && |tail| <= 20
    ensures front + digits != head + ":" + tail
  {
    var s, t := front + digits, head + ":" + tail;
    if |s| == |t| {
      var i := |t| - |tail| - 1;
      assert t[i] == ':';
      assert s[i] == digits[i - |front|];
    }
  }

  lemma CutIdIsNew(x: ContextItem, y: ContextItem, end: nat)
    requires Whole(y) && end <= U64_MAX
    ensures WithRange(x, ContentRange(0, end)).id != y.id
  {
    hide DigestText, Decimal, Estimated;
    var p, r := x.provenance, y.provenance;
    LengthsAreShort(end);
    var front := r.repository + "|" + r.worktree + "|" + r.path + "|";
    var head := p.repository + "|" + p.worktree + "|" + p.path + "|" + x.fingerprint + "@" + Decimal(0);
    assert y.id == front + y.fingerprint;
    assert WithRange(x, ContentRange(0, end)).id == head + ":" + Decimal(end);
    NoColonNearEnd(front, y.fingerprint, head, Decimal(end));
  }

  // ---------- admission keeps ids distinct and items sourced ----------

  lemma FreeDistinct(a: seq<ContextItem>, s: seq<ContextItem>)
    requires DistinctIds(a + s)
    ensures DistinctIds(a + Free(s))
    decreases |s|
  {
    if s == [] {
    } else if s[0].tokens == 0 {
      assert (a + [s[0]]) + s[1..] == a + s;
      FreeDistinct(a + [s[0]], s[1..]);
      assert (a + [s[0]]) + Free(s[1..]) == a + Free(s);
    } else {
      DropKeepsDistinct(a, s);
      FreeDistinct(a, s[1..]);
    }
  }

  lemma DropKeepsDistinct(a: seq<ContextItem>, s: seq<ContextItem>)
    requires s != [] && DistinctIds(a + s)
    ensures DistinctIds(a + s[1..])
  {
    var t := a + s[1..];
    forall i, j | 0 <= i < j < |t| ensures t[i].id != t[j].id {
      assert t[i] == (a + s)[if i < |a| then i else i + 1];
      assert t[j] == (a + s)[if j < |a| then j else j + 1];
    }
  }

  lemma CutKeepsDistinct(a: seq<ContextItem>, s: seq<ContextItem>, end: nat)
    requires s != [] && DistinctIds(a + s) && AllWhole(a + s) && end <= U64_MAX
    ensures DistinctIds(a + [WithRange(s[0], ContentRange(0, end))] + s[1..])
  {
    hide Whole, WithRange;
    var cut := WithRange(s[0], ContentRange(0, end));
    var t := a + [cut] + s[1..];
    forall i, j | 0 <= i < j < |t| ensures t[i].id != t[j].id {
      assert i != |a| ==> t[i] == (a + s)[i];
      assert j != |a| ==> t[j] == (a + s)[j];
      if i == |a| {
        CutIdIsNew(s[0], t[j], end);
      } else if j == |a| {
        CutIdIsNew(s[0], t[i], end);
      }
    }
  }

  lemma OverflowKeepsDistinct(t: Tally, s: seq<ContextItem>, max: nat)
    requires s != [] && t.used <= max < t.used + s[0].tokens
    requires AllWhole(t.selected + s) && DistinctIds(t.selected + s)
    ensures DistinctIds(AdmitAll(t, s, max).selected)
  {
    hide AdmitAll, Packed, Free, DistinctIds;
    var left := max - t.used;
    assert Whole(s[0]) by { assert s[0] == (t.selected + s)[|t.selected|]; }
    OverflowPacks(t, s, max);
    PackedOverflow(s, left);
    if left == 0 {
      DropKeepsDistinct(t.selected, s);
      FreeDistinct(t.selected, s[1..]);
      assert [] + Free(s[1..]) == Free(s[1..]);
    } else {
      CutFills(t, s[0], max);
      CutKeepsDistinct(t.selected, s, 4 * left);
      FreeDistinct(t.selected + [Cut(s[0], left)], s[1..]);
      Reassociate(t.selected, [Cut(s[0], left)], Free(s[1..]));
    }
  }

  lemma {:induction false} AdmitKeepsDistinct(t: Tally, s: seq<ContextItem>, max: nat)
    requires t.used <= max && AllWhole(t.selected + s) && DistinctIds(t.selected + s)
    ensures DistinctIds(AdmitAll(t, s, max).selected)
    decreases |s|
  {
    hide AdmitOne, AllWhole, DistinctIds;
    if s == [] {
      assert t.selected + s == t.selected;
    } else if t.used + s[0].tokens > max {
      OverflowKeepsDistinct(t, s, max);
    } else {
      WholeFits(t, s[0], max);
      assert (t.selected + [s[0]]) + s[1..] == t.selected + s;
      AdmitKeepsDistinct(AdmitOne(t, s[0], max), s[1..], max);
    }
  }

  lemma CutIsSourced(x: ContextItem, end: nat, report: Report)
    requires Sourced(x, report)
    ensures Sourced(WithRange(x, ContentRange(0, end)), report)
  {
    hide ItemId;
  }

  lemma {:induction false} AdmitKeepsSourced(t: Tally, s: seq<ContextItem>, max: nat, report: Report)
    requires AllSourced(t.selected, report) && AllSourced(s, report)
    ensures AllSourced(AdmitAll(t, s, max).selected, report)
    decreases |s|
  {
    hide Sourced, WithRange;
    if s != [] {
      if max > t.used {
        CutIsSourced(s[0], ByteBudget(max - t.used), report);
      }
      AdmitKeepsSourced(AdmitOne(t, s[0], max), s[1..], max, report);
    }
  }

  lemma {:induction false} OnlyPartitions(s: seq<ContextItem>)
    ensures multiset(Only(s, true)) + multiset(Only(s, false)) == multiset(s)
  {
    if s != [] {
      OnlyPartitions(s[..|s| - 1]);
      MultisetLast(s);
    }
  }

  lemma PartsArePermutation(items: seq<ContextItem>)
    ensures multiset(Mandatory(items) + Optional(items)) == multiset(items)
  {
    hide Sort, Only;
    OnlyPartitions(items);
    SortIsPermutation(SelectionLe, Only(items, true));
    SortIsPermutation(SelectionLe, Only(items, false));
  }

  lemma SelectionIsSound(items: seq<ContextItem>, max: nat, report: Report)
    requires Sound(items, report) && DistinctIds(items)
    ensures DistinctIds(Admit(items, max).selected) && AllSourced(Admit(items, max).selected, report)
  {
    hide AdmitAll, Mandatory, Optional, Cost, DistinctIds, Whole, Sourced;
    var m, o := Mandatory(items), Optional(items);
    PartsArePermutation(items);
    SoundPermuted(items, m + o, report);
    DistinctIdsPermuted(items, m + o);
    if Cost(m) <= max {
      var t := Tally(m, Cost(m), []);
      AdmitKeepsDistinct(t, o, max);
      assert forall i | 0 <= i < |m| :: m[i] == (m + o)[i];
      assert forall i | 0 <= i < |o| :: o[i] == (m + o)[|m| + i];
      AdmitKeepsSourced(t, o, max, report);
    } else {
      NothingSelected();
    }
  }

  lemma NothingSelected()
    ensures DistinctIds([])
  {
  }

  // ---------- the bundle against its own report ----------

  lemma {:induction false} FindsByDistinctId(items: seq<ContextItem>, k: nat)
    requires DistinctIds(items) && k < |items|
    ensures FindItem(items, items[k].id) == Some(items[k])
  {
    if k > 0 {
      FindsByDistinctId(items[1..], k - 1);
    }
  }

  /** The first eligible source at the item's path does not record the item's fingerprint; one that
      records none is taken to record zeros. */
  ghost predicate Shadowed(report: Report, x: ContextItem) {
    exists k | FirstAt(report, x.provenance.path, k) ::
      FingerprintOr(report[k].provenance, ZERO_FINGERPRINT) != x.fingerprint
  }

  lemma ChangedIffShadowed(b: BundleView, report: Report, x: ContextItem, k: nat)
    requires Sourced(x, report)
    requires k < |b.items| && DistinctIds(b.items) && b.items[k].id == x.id && b.items[k].provenance == x.provenance
    ensures Changed(b, report, Dependency(x.id, x.fingerprint)) <==> Shadowed(report, x)
  {
    hide FindItem, FindSource;
    FindsByDistinctId(b.items, k);
    var s :| 0 <= s < |report| && !report[s].excluded && report[s].provenance == x.provenance
             && (x.provenance.fingerprint.Some? ==> x.fingerprint == x.provenance.fingerprint.value);
    var first := FirstExists(report, x.provenance.path, s);
    forall j | FirstAt(report, x.provenance.path, j)
      ensures FindSource(report, x.provenance.path) == Some(report[j])
    {
      FindsFirst(report, x.provenance.path, j);
    }
  }

  lemma SelfChangedIff(
      report: Report, g: Generations, selected: seq<ContextItem>, status: BundleStatus, catalog: string)
    requires AllSourced(selected, report) && DistinctIds(selected)
    ensures var b := FromSelection(g, selected, status, catalog);
            SelectedChanged(b, report) <==> exists i | 0 <= i < |selected| :: Shadowed(report, selected[i])
  {
    hide Sourced, Changed, Shadowed;
    var b := FromSelection(g, selected, status, catalog);
    forall i | 0 <= i < |selected| ensures Changed(b, report, b.dependencies[i]) <==> Shadowed(report, selected[i]) {
      ChangedIffShadowed(b, report, selected[i], i);
    }
    if exists i | 0 <= i < |selected| :: Shadowed(report, selected[i]) {
      var i :| 0 <= i < |selected| && Shadowed(report, selected[i]);
      assert Changed(b, report, b.dependencies[i]);
    }
  }

  lemma BuiltIsSound(report: Report, read: ReadSource, q: Request)
    requires Digested(report) && ReadsFit(read)
    ensures var a := Assemble(q, Candidates(report, read));
            DistinctIds(a.selected) && AllSourced(a.selected, report)
  {
    hide Digested, ReadsFit, Candidates, Admit, Eligible;
    var candidates := Candidates(report, read);
    CandidatesAreSound(report, report, read);
    AdmissionInputIsSound(q, candidates, report);
    SelectionIsSound(Enhanced(q.enhancer, Assemble(q, candidates).eligible).0, q.maxTokens, report);
  }

  /** A bundle built from a report, without fixture items, and evaluated at once against that same
      report under the same generations is found changed exactly when some selected item is shadowed:
      the first eligible source at its path does not record its fingerprint. */
  lemma FreshBundleIsLeftAloneIff(
      report: Report, read: ReadSource, q: Request, g: Generations, catalogOf: Report -> string)
    requires Digested(report) && ReadsFit(read)
    ensures var a := Assemble(q, Candidates(report, read));
            var b := FromSelection(g, a.selected, a.status, catalogOf(report));
            Evaluate(b, report, g, catalogOf)
            == if exists i | 0 <= i < |a.selected| :: Shadowed(report, a.selected[i]) then SelectedContentChanged
               else Unrelated
  {
    hide Digested, ReadsFit, Candidates, Assemble, SelectedChanged, Shadowed;
    BuiltIsSound(report, read, q);
    var a := Assemble(q, Candidates(report, read));
    SelfChangedIff(report, g, a.selected, a.status, catalogOf(report));
  }

  /** Eligible sources of one path agree on their fingerprint. */
  ghost predicate Agreeing(report: Report) {
    forall j, k | 0 <= j < |report| && 0 <= k < |report| && !report[j].excluded && !report[k].excluded ::
      report[j].provenance.path == report[k].provenance.path
      ==> report[j].provenance.fingerprint == report[k].provenance.fingerprint
  }

  /** In such a report an item is shadowed exactly when its source recorded no fingerprint, unless its
      bytes digest to zeros. */
  lemma AgreeingShadowsIff(report: Report, x: ContextItem)
    requires Agreeing(report) && Sourced(x, report)
    ensures Shadowed(report, x) <==> x.provenance.fingerprint.None? && x.fingerprint != ZERO_FINGERPRINT
  {
    var s :| 0 <= s < |report| && !report[s].excluded && report[s].provenance == x.provenance
             && (x.provenance.fingerprint.Some? ==> x.fingerprint == x.provenance.fingerprint.value);
    var first := FirstExists(report, x.provenance.path, s);
    assert report[first].provenance.fingerprint == x.provenance.fingerprint;
  }

  /** So a bundle built from such a report is left alone exactly when every selected item's source
      recorded a fingerprint, or the item digests to zeros. */
  lemma AgreeingBundleIsLeftAloneIff(
      report: Report, read: ReadSource, q: Request, g: Generations, catalogOf: Report -> string)
    requires Digested(report) && Agreeing(report) && ReadsFit(read)
    ensures var a := Assemble(q, Candidates(report, read));
            Evaluate(FromSelection(g, a.selected, a.status, catalogOf(report)), report, g, catalogOf).Unrelated?
            <==> forall i | 0 <= i < |a.selected| ::
                   a.selected[i].provenance.fingerprint.Some? || a.selected[i].fingerprint == ZERO_FINGERPRINT
  {
    hide Digested, Agreeing, ReadsFit, Candidates, Assemble, Evaluate, Shadowed, Sourced;
    var a := Assemble(q, Candidates(report, read));
    BuiltIsSound(report, read, q);
    FreshBundleIsLeftAloneIff(report, read, q, g, catalogOf);
    forall i | 0 <= i < |a.selected|
      ensures Shadowed(report, a.selected[i]) <==>
              a.selected[i].provenance.fingerprint.None? && a.selected[i].fingerprint != ZERO_FINGERPRINT
    {
      AgreeingShadowsIff(report, a.selected[i]);
    }
  }

  // ---------- the budget of a build from a report ----------

  lemma WholeIsEstimated(s: seq<ContextItem>)
    requires AllWhole(s)
    ensures AllEstimated(s)
  {
    forall i | 0 <= i < |s| ensures Estimated(s[i]) {
      assert Whole(s[i]);
    }
  }

  /** Every build from a report packs its budget tightly: the mandatory items, the longest fitting prefix
      of the optional ones, at most one exact cut, and then only free items; and if an optional item is
      not selected whole, the budget is used up exactly. */
  lemma DiscoveryBudgetIsTight(report: Report, read: ReadSource, q: Request)
    requires Digested(report) && ReadsFit(read)
    ensures var a := Assemble(q, Candidates(report, read));
            var items := Enhanced(q.enhancer, a.eligible).0;
            var m, o := Mandatory(items), Optional(items);
            Cost(m) <= q.maxTokens ==>
              && a.selected == m + Packed(o, q.maxTokens - Cost(m))
              && (FitCount(o, q.maxTokens - Cost(m)) < |o| ==> Cost(a.selected) == q.maxTokens)
  {
    hide Digested, ReadsFit, Candidates, Admit, Eligible, Packed, FitCount, Cost, Mandatory, Optional, AllWhole;
    var candidates := Candidates(report, read);
    CandidatesAreSound(report, report, read);
    AdmissionInputIsSound(q, candidates, report);
    var items := Enhanced(q.enhancer, Assemble(q, candidates).eligible).0;
    WholeIsEstimated(items);
    if Cost(Mandatory(items)) <= q.maxTokens {
      BudgetIsTight(items, q.maxTokens);
    }
  }
}

/** Context bundles: built from a selection, re-evaluated against fresh discovery, and stripped of
    their payloads once stale. The catalog fingerprint is an arbitrary function of the sources. */
module Bundle {
  import opened Basics
  import opened ContextItems
  import opened Admission

  datatype DiscoveredSource = DiscoveredSource(sourceClass: SourceClass, provenance: Provenance, excluded: bool)

  type Report = seq<DiscoveredSource>

  datatype Generations = Generations(policy: nat, privacy: nat, source: nat)

  datatype Dependency = Dependency(id: string, fingerprint: string)

  datatype BundleView = BundleView(
    status: BundleStatus,
    items: seq<ContextItem>,
    retainsPayload: bool,
    catalog: string,
    dependencies: seq<Dependency>,
    generations: Generations)
  {
    predicate IsDispatchable() {
      status == Dispatchable && retainsPayload
    }
  }

  datatype InvalidationReason =
    | SelectedContentChanged
    | CatalogEnumerationChanged
    | GenerationFence
    | HigherAuthorityAppeared
    | NegativeDependencyChanged
    | Unrelated

  /** The digest compared against when a source carries no fingerprint: sixteen zero bytes. */
  const ZERO_FINGERPRINT: string := "00000000000000000000000000000000"

  function Stripped(s: seq<ContextItem>): seq<ContextItem> {
    seq(|s|, i requires 0 <= i < |s| => s[i].(payload := []))
  }

  function DependenciesOf(s: seq<ContextItem>): seq<Dependency> {
    seq(|s|, i requires 0 <= i < |s| => Dependency(s[i].id, s[i].fingerprint))
  }

  function FromSelection(g: Generations, items: seq<ContextItem>, status: BundleStatus, catalog: string): BundleView {
    var retains := status == Dispatchable;
    BundleView(status, if retains then items else Stripped(items), retains, catalog, DependenciesOf(items), g)
  }

  function MarkedStale(b: BundleView): BundleView {
    b.(status := Stale, retainsPayload := false, items := Stripped(b.items))
  }

  // ---------- evaluation ----------

  function FindItem(items: seq<ContextItem>, id: string): Option<ContextItem> {
    if items == [] then None
    else if items[0].id == id then Some(items[0])
    else FindItem(items[1..], id)
  }

  function FindSource(report: Report, path: string): Option<DiscoveredSource> {
    if report == [] then None
    else if report[0].provenance.path == path && !report[0].excluded then Some(report[0])
    else FindSource(report[1..], path)
  }

  function FingerprintOr(p: Provenance, default: string): string {
    if p.fingerprint.Some? then p.fingerprint.value else default
  }

  /** The dependency no longer holds: its item or source is gone, or the bytes differ. */
  predicate Changed(b: BundleView, report: Report, d: Dependency) {
    match FindItem(b.items, d.id)
    case None => true
    case Some(item) =>
      match FindSource(report, item.provenance.path)
      case None => true
      case Some(src) => FingerprintOr(src.provenance, ZERO_FINGERPRINT) != d.fingerprint
  }

  predicate SelectedChanged(b: BundleView, report: Report) {
    exists i | 0 <= i < |b.dependencies| :: Changed(b, report, b.dependencies[i])
  }

  function TopRank(items: seq<ContextItem>): nat {
    if items == [] then OptionalSemantic.Rank()
    else
      var rest := TopRank(items[1..]);
      if items[0].authority.Rank() < rest then items[0].authority.Rank() else rest
  }

  predicate HigherAuthority(b: BundleView, report: Report) {
    exists k | 0 <= k < |report| ::
      && !report[k].excluded && AuthorityFor(report[k].sourceClass).Rank() < TopRank(b.items)
      && !(exists i | 0 <= i < |b.items| ::
             b.items[i].provenance.path == report[k].provenance.path && b.items[i].sourceClass == report[k].sourceClass)
  }

  function Evaluate(b: BundleView, report: Report, now: Generations, catalogOf: Report -> string): InvalidationReason {
    if b.generations != now then GenerationFence
    else if catalogOf(report) != b.catalog then
      if SelectedChanged(b, report) then SelectedContentChanged
      else if HigherAuthority(b, report) then HigherAuthorityAppeared
      else if b.catalog != catalogOf(report) then NegativeDependencyChanged
      else CatalogEnumerationChanged
    else if SelectedChanged(b, report) then SelectedContentChanged
    else Unrelated
  }

  function Invalidated(b: BundleView, reason: InvalidationReason): BundleView {
    if reason.Unrelated? then b
    else if b.status == Dispatchable || b.status == UnableToBuild then MarkedStale(b)
    else b
  }

  class ContextBundle {
    var status: BundleStatus
    var items: seq<ContextItem>
    var retainsPayload: bool
    const catalog: string
    const dependencies: seq<Dependency>
    const generations: Generations

    function View(): BundleView
      reads this
    {
      BundleView(status, items, retainsPayload, catalog, dependencies, generations)
    }

    constructor (g: Generations, selected: seq<ContextItem>, status: BundleStatus, catalog: string)
      ensures View() == FromSelection(g, selected, status, catalog)
    {
      this.status := status;
      this.items := if status == Dispatchable then selected else Stripped(selected);
      this.retainsPayload := status == Dispatchable;
      this.catalog := catalog;
      this.dependencies := DependenciesOf(selected);
      this.generations := g;
    }

    method MarkStale()
      modifies this
      ensures View() == MarkedStale(old(View()))
    {
      status := Stale;
      retainsPayload := false;
      for i := 0 to |items|
        invariant |items| == |old(items)| && status == Stale && !retainsPayload
        invariant forall k | 0 <= k < i :: items[k] == old(items)[k].(payload := [])
        invariant forall k | i <= k < |items| :: items[k] == old(items)[k]
      {
        items := items[i := items[i].(payload := [])];
      }
    }

    method ApplyInvalidation(reason: InvalidationReason) returns (changed: bool)
      modifies this
      ensures View() == Invalidated(old(View()), reason)
      ensures changed <==> !reason.Unrelated? && (old(status) == Dispatchable || old(status) == UnableToBuild)
    {
      if reason == Unrelated {
        return false;
      }
      if status == Dispatchable || status == UnableToBuild {
        MarkStale();
        return true;
      }
      return false;
    }
  }

  // ---------- what staying dispatchable means ----------

  /** Some eligible source at the item's path carries exactly the recorded bytes. */
  ghost predicate Backed(report: Report, item: ContextItem, fingerprint: string) {
    exists k | 0 <= k < |report| ::
      && !report[k].excluded && report[k].provenance.path == item.provenance.path
      && FingerprintOr(report[k].provenance, ZERO_FINGERPRINT) == fingerprint
  }

  ghost predicate Upheld(b: BundleView, report: Report, d: Dependency) {
    exists item | item in b.items :: item.id == d.id && Backed(report, item, d.fingerprint)
  }

  lemma {:induction false} FindSourceFinds(report: Report, path: string)
    ensures match FindSource(report, path)
            case Some(s) => s in report && s.provenance.path == path && !s.excluded
            case None => forall k | 0 <= k < |report| :: report[k].provenance.path == path ==> report[k].excluded
  {
    if report != [] {
      FindSourceFinds(report[1..], path);
      assert report == [report[0]] + report[1..];
    }
  }

  lemma {:induction false} FindItemFinds(items: seq<ContextItem>, id: string)
    ensures match FindItem(items, id)
            case Some(i) => i in items && i.id == id
            case None => forall k | 0 <= k < |items| :: items[k].id != id
  {
    if items != [] {
      FindItemFinds(items[1..], id);
      assert items == [items[0]] + items[1..];
    }
  }

  /** `k` is the first eligible source at this path. */
  ghost predicate FirstAt(report: Report, path: string, k: int) {
    && 0 <= k < |report| && !report[k].excluded && report[k].provenance.path == path
    && forall j | 0 <= j < k :: report[j].excluded || report[j].provenance.path != path
  }

  lemma {:induction false} FindsFirst(report: Report, path: string, k: int)
    requires FirstAt(report, path, k)
    ensures FindSource(report, path) == Some(report[k])
  {
    if k > 0 {
      assert report[0].excluded || report[0].provenance.path != path;
      FindsFirst(report[1..], path, k - 1);
    }
  }

  lemma {:induction false} FirstExists(report: Report, path: string, s: nat) returns (k: nat)
    requires s < |report| && !report[s].excluded && report[s].provenance.path == path
    ensures FirstAt(report, path, k)
  {
    if j: nat :| j < s && !report[j].excluded && report[j].provenance.path == path {
      k := FirstExists(report, path, j);
    } else {
      k := s;
    }
  }

  /** A bundle still dispatchable after evaluate-then-apply was unchanged by it, and has unchanged
      generations, an unchanged catalog and, for every dependency, a selected item whose path still
      has an eligible source with the recorded bytes. */
  lemma StillDispatchableIsCurrent(b: BundleView, report: Report, now: Generations, catalogOf: Report -> string)
    requires Invalidated(b, Evaluate(b, report, now, catalogOf)).IsDispatchable()
    ensures Invalidated(b, Evaluate(b, report, now, catalogOf)) == b
    ensures b.generations == now && b.catalog == catalogOf(report)
    ensures forall i | 0 <= i < |b.dependencies| :: Upheld(b, report, b.dependencies[i])
  {
    assert Evaluate(b, report, now, catalogOf).Unrelated?;
    forall i | 0 <= i < |b.dependencies|
      ensures Upheld(b, report, b.dependencies[i])
    {
      var d := b.dependencies[i];
      assert !Changed(b, report, d);
      FindItemFinds(b.items, d.id);
      var item := FindItem(b.items, d.id).value;
      FindSourceFinds(report, item.provenance.path);
      var src := FindSource(report, item.provenance.path).value;
      var k :| 0 <= k < |report| && report[k] == src;
      assert Backed(report, item, d.fingerprint);
    }
  }

  /** The cheap test for an edit outside the selection. */
  predicate IsUnrelatedEdit(b: BundleView, edited: string, report: Report, catalogOf: Report -> string) {
    var reason := Evaluate(b, report, b.generations, catalogOf);
    && !(exists i | 0 <= i < |b.items| :: b.items[i].provenance.path == edited)
    && (reason.Unrelated? ||
        (reason.CatalogEnumerationChanged? && !HigherAuthority(b, report) && !SelectedChanged(b, report)))
  }

  /** The catalog branch always ends in the negative-dependency answer, so the catalog-enumeration answer
      is never given, and the second way for an edit to be unrelated is dead: an edit outside the
      selection is unrelated exactly when it left the catalog and every selected source as they were. */
  lemma UnrelatedEditIff(b: BundleView, edited: string, report: Report, now: Generations, catalogOf: Report -> string)
    ensures !Evaluate(b, report, now, catalogOf).CatalogEnumerationChanged?
    ensures IsUnrelatedEdit(b, edited, report, catalogOf) <==>
            && (forall i | 0 <= i < |b.items| :: b.items[i].provenance.path != edited)
            && catalogOf(report) == b.catalog && !SelectedChanged(b, report)
  {
  }

  ghost predicate NoPayload(b: BundleView) {
    forall i | 0 <= i < |b.items| :: b.items[i].payload == []
  }

  ghost predicate PayloadSafe(b: BundleView) {
    (b.status == Dispatchable <==> b.retainsPayload) && (!b.IsDispatchable() ==> NoPayload(b))
  }

  function InvalidatedBy(b: BundleView, reasons: seq<InvalidationReason>): BundleView {
    if reasons == [] then b else Invalidated(InvalidatedBy(b, reasons[..|reasons| - 1]), reasons[|reasons| - 1])
  }

  /** In every history of a bundle, a bundle that is not dispatchable holds no payload bytes, and one
      that stopped being dispatchable never becomes so again. */
  lemma {:induction false} UndispatchableHoldsNoPayload(
      g: Generations, selected: seq<ContextItem>, status: BundleStatus, catalog: string,
      reasons: seq<InvalidationReason>)
    ensures var b := InvalidatedBy(FromSelection(g, selected, status, catalog), reasons);
            && PayloadSafe(b)
            && (b.IsDispatchable() <==>
                  status == Dispatchable && forall i | 0 <= i < |reasons| :: reasons[i].Unrelated?)
  {
    if reasons != [] {
      UndispatchableHoldsNoPayload(g, selected, status, catalog, reasons[..|reasons| - 1]);
    }
  }

  /** A related reason makes a dispatchable or unbuildable bundle stale, with every payload emptied and
      nothing else touched; any other bundle, and an unrelated reason, is left as it is. */
  lemma InvalidationIs(b: BundleView, reason: InvalidationReason)
    ensures var c := Invalidated(b, reason);
            if reason.Unrelated? || b.status == Stale || b.status == Undispatchable then c == b
            else
              && c.status == Stale && !c.retainsPayload && |c.items| == |b.items|
              && (forall i | 0 <= i < |b.items| :: c.items[i] == b.items[i].(payload := []))
              && c == b.(status := Stale, retainsPayload := false, items := c.items)
  {
  }
}

/** Which reason a re-evaluation gives, exactly. */
module InvalidationReasons {
  import opened Basics
  import opened ContextItems
  import opened Bundle

  /** `i` is the first item with this id. */
  ghost predicate FirstWith(items: seq<ContextItem>, id: string, i: int) {
    0 <= i < |items| && items[i].id == id && forall j | 0 <= j < i :: items[j].id != id
  }

  /** The dependency's item is there, and the first eligible source at the item's path records the bytes
      depended on; a source without a fingerprint is taken to record zeros. */
  ghost predicate Intact(b: BundleView, report: Report, d: Dependency) {
    exists i, k | FirstWith(b.items, d.id, i) && FirstAt(report, b.items[i].provenance.path, k) ::
      (if report[k].provenance.fingerprint.Some? then report[k].provenance.fingerprint.value else ZERO_FINGERPRINT)
      == d.fingerprint
  }

  ghost predicate AllIntact(b: BundleView, report: Report) {
    forall i | 0 <= i < |b.dependencies| :: Intact(b, report, b.dependencies[i])
  }

  /** An eligible source that outranks every item, and is not one of them under its class. */
  ghost predicate Outranks(b: BundleView, src: DiscoveredSource) {
    var rank := AuthorityFor(src.sourceClass).Rank();
    && !src.excluded && rank < OptionalSemantic.Rank()
    && (forall i | 0 <= i < |b.items| :: rank < b.items[i].authority.Rank())
    && forall i | 0 <= i < |b.items| ::
         b.items[i].provenance.path != src.provenance.path || b.items[i].sourceClass != src.sourceClass
  }

  ghost predicate SomeOutranks(b: BundleView, report: Report) {
    exists k | 0 <= k < |report| :: Outranks(b, report[k])
  }

  lemma {:induction false} FindsFirstItem(items: seq<ContextItem>, id: string, i: int)
    requires FirstWith(items, id, i)
    ensures FindItem(items, id) == Some(items[i])
  {
    if i > 0 {
      assert items[0].id != id;
      FindsFirstItem(items[1..], id, i - 1);
    }
  }

  lemma {:induction false} FirstItemExists(items: seq<ContextItem>, n: nat) returns (i: nat)
    requires n < |items|
    ensures FirstWith(items, items[n].id, i)
  {
    if j: nat :| j < n && items[j].id == items[n].id {
      i := FirstItemExists(items, j);
    } else {
      i := n;
    }
  }

  lemma ChangedIff(b: BundleView, report: Report, d: Dependency)
    ensures Changed(b, report, d) <==> !Intact(b, report, d)
  {
    hide FindItem, FindSource;
    forall i, k | FirstWith(b.items, d.id, i) && FirstAt(report, b.items[i].provenance.path, k)
      ensures FindItem(b.items, d.id) == Some(b.items[i])
      ensures FindSource(report, b.items[i].provenance.path) == Some(report[k])
    {
      FindsFirstItem(b.items, d.id, i);
      FindsFirst(report, b.items[i].provenance.path, k);
    }
    FindItemFinds(b.items, d.id);
    if FindItem(b.items, d.id).Some? {
      var item := FindItem(b.items, d.id).value;
      var n :| 0 <= n < |b.items| && b.items[n] == item;
      var i := FirstItemExists(b.items, n);
      FindsFirstItem(b.items, d.id, i);
      FindSourceFinds(report, item.provenance.path);
      if FindSource(report, item.provenance.path).Some? {
        var m :| 0 <= m < |report| && report[m] == FindSource(report, item.provenance.path).value;
        var k := FirstExists(report, item.provenance.path, m);
        FindsFirst(report, item.provenance.path, k);
      }
    }
  }

  lemma {:induction false} BelowTopRank(items: seq<ContextItem>, rank: nat)
    ensures rank < TopRank(items) <==>
            rank < OptionalSemantic.Rank() && forall i | 0 <= i < |items| :: rank < items[i].authority.Rank()
  {
    if items != [] {
      BelowTopRank(items[1..], rank);
      assert items == [items[0]] + items[1..];
    }
  }

  lemma HigherAuthorityIff(b: BundleView, report: Report)
    ensures HigherAuthority(b, report) <==> SomeOutranks(b, report)
  {
    hide TopRank, AuthorityFor;
    forall k | 0 <= k < |report|
      ensures AuthorityFor(report[k].sourceClass).Rank() < TopRank(b.items) <==>
              && AuthorityFor(report[k].sourceClass).Rank() < OptionalSemantic.Rank()
              && forall i | 0 <= i < |b.items| ::
                   AuthorityFor(report[k].sourceClass).Rank() < b.items[i].authority.Rank()
    {
      BelowTopRank(b.items, AuthorityFor(report[k].sourceClass).Rank());
    }
    if SomeOutranks(b, report) {
      var k :| 0 <= k < |report| && Outranks(b, report[k]);
    }
    if HigherAuthority(b, report) {
      var k :| 0 <= k < |report| && !report[k].excluded
               && AuthorityFor(report[k].sourceClass).Rank() < TopRank(b.items)
               && !(exists i | 0 <= i < |b.items| ::
                      b.items[i].provenance.path == report[k].provenance.path
                      && b.items[i].sourceClass == report[k].sourceClass);
      assert Outranks(b, report[k]);
    }
  }

  /** The whole answer. A generation that moved is a fence. Else a dependency that is not intact is a
      selected change, whatever the catalog. Else, if the catalog differs, an outranking source is named
      first, and anything left is a negative dependency. Else the change is unrelated. */
  lemma ReasonIs(b: BundleView, report: Report, now: Generations, catalogOf: Report -> string)
    ensures var reason, same := Evaluate(b, report, now, catalogOf), b.generations == now;
            && (reason == GenerationFence <==>
                  || b.generations.policy != now.policy || b.generations.privacy != now.privacy
                  || b.generations.source != now.source)
            && (reason == SelectedContentChanged <==> same && !AllIntact(b, report))
            && (reason == HigherAuthorityAppeared <==>
                  same && AllIntact(b, report) && catalogOf(report) != b.catalog && SomeOutranks(b, report))
            && (reason == NegativeDependencyChanged <==>
                  same && AllIntact(b, report) && catalogOf(report) != b.catalog && !SomeOutranks(b, report))
            && (reason == Unrelated <==> same && AllIntact(b, report) && catalogOf(report) == b.catalog)
  {
    hide Changed, Intact, HigherAuthority, SomeOutranks;
    HigherAuthorityIff(b, report);
    forall i | 0 <= i < |b.dependencies|
      ensures Changed(b, report, b.dependencies[i]) <==> !Intact(b, report, b.dependencies[i])
    {
      ChangedIff(b, report, b.dependencies[i]);
    }
    assert SelectedChanged(b, report) <==> !AllIntact(b, report);
  }
}

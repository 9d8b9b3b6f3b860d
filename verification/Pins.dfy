/** What a pin does to a build: the item gets the exact-task authority, which stands below repository and
    worktree files, and is admitted in that place. */
module Pins {
  import opened Ordering
  import opened ContextItems
  import opened Coalescing
  import opened Admission
  import opened Assembly
  import opened RequiredItems
  import opened StaleAtOnce

  /** Authorities above the exact-task one. */
  predicate AbovePin(a: AuthorityClass) {
    a.SecurityCapability? || a.NormativeInstruction? || a.RepositoryWorktreeTruth?
  }

  /** Where pinned items stand in `s`: behind all of higher authority, ahead of all of lower, and among
      equals by id. */
  ghost predicate PinsInPlace(pins: set<string>, s: seq<ContextItem>) {
    forall i, j | 0 <= i < |s| && 0 <= j < |s| && s[i].provenance.path in pins ::
      && (AbovePin(s[j].authority) ==> j < i)
      && (!AbovePin(s[j].authority) && s[j].authority != ExactTaskPin ==> i < j)
      && (s[j].authority == ExactTaskPin && i < j ==> TextLe(s[i].id, s[j].id))
      && (s[j].authority == ExactTaskPin && j < i ==> TextLe(s[j].id, s[i].id))
  }

  lemma SelectionLeIs(a: ContextItem, b: ContextItem)
    ensures SelectionLe(a, b) <==>
            || a.authority.Rank() < b.authority.Rank()
            || (a.authority.Rank() == b.authority.Rank() && TextLe(a.id, b.id))
  {
    hide TextLe;
    TextTotal(a.id, a.id);
    var p, q := SelectionKey(a).parts, SelectionKey(b).parts;
    assert p == [a.id] && q == [b.id] && p[1..] == [] && q[1..] == [];
    assert PartsLe(p, q) == if a.id == b.id then PartsLe([], []) else TextLe(a.id, b.id);
  }

  lemma SortedPinsAreInPlace(pins: set<string>, s: seq<ContextItem>)
    requires Sorted(SelectionLe, s)
    requires forall i | 0 <= i < |s| && s[i].provenance.path in pins :: s[i].authority == ExactTaskPin
    ensures PinsInPlace(pins, s)
  {
    hide SelectionLe, TextLe;
    forall i, j | 0 <= i < |s| && 0 <= j < |s| && s[i].provenance.path in pins
      ensures AbovePin(s[j].authority) ==> j < i
      ensures !AbovePin(s[j].authority) && s[j].authority != ExactTaskPin ==> i < j
      ensures s[j].authority == ExactTaskPin && i < j ==> TextLe(s[i].id, s[j].id)
      ensures s[j].authority == ExactTaskPin && j < i ==> TextLe(s[j].id, s[i].id)
    {
      SelectionLeIs(s[i], s[j]);
      SelectionLeIs(s[j], s[i]);
      assert i < j ==> SelectionLe(s[i], s[j]);
      assert j < i ==> SelectionLe(s[j], s[i]);
    }
  }

  /** Every eligible item is a marked candidate. */
  lemma EligibleIsMarked(q: Request, candidates: seq<ContextItem>, x: ContextItem) returns (k: nat)
    requires x in Assemble(q, candidates).eligible
    ensures k < |candidates| && Marks(q.pins, q.required, candidates[k], x)
  {
    hide Sort, MarkAll, Eligible, Admit, Enhanced, Coalesce, Fingerprints;
    var marked := MarkAll(q.pins, q.required, candidates);
    EligibleIsSound(Sort(PreSemanticLe, marked));
    SortIsPermutation(PreSemanticLe, marked);
    SameElements(marked, Sort(PreSemanticLe, marked), x);
    MarkAllPointwise(q.pins, q.required, candidates);
    k :| 0 <= k < |marked| && marked[k] == x;
  }

  lemma OrderedParts(items: seq<ContextItem>)
    ensures Sorted(SelectionLe, Mandatory(items)) && Sorted(SelectionLe, Optional(items))
  {
    hide SelectionLe, Sort, Only;
    OrdersAreTotal();
    SortIsSorted(SelectionLe, Only(items, true));
    SortIsSorted(SelectionLe, Only(items, false));
  }

  lemma EligibleIsOrdered(q: Request, candidates: seq<ContextItem>)
    ensures Sorted(SelectionLe, Assemble(q, candidates).eligible)
  {
    hide SelectionLe, Sort, MarkAll, Admit, Enhanced, Coalesce, Fingerprints;
    OrdersAreTotal();
    var s := Presented(q, candidates);
    SortIsSorted(SelectionLe, Coalesce(s, Fingerprints(s)).selected);
  }

  lemma PinnedIsExact(q: Request, candidates: seq<ContextItem>, x: ContextItem)
    requires x in Assemble(q, candidates).eligible && x.provenance.path in q.pins
    ensures x.authority == ExactTaskPin
  {
    hide Assemble;
    var k := EligibleIsMarked(q, candidates, x);
  }

  /** On a whole build: every eligible item with a pinned path has the exact-task authority, and in the
      eligible list, and among the mandatory and the optional items in the order in which admission takes
      them, it stands behind every item of higher authority and ahead of every one of lower. */
  lemma PinsArePlaced(q: Request, candidates: seq<ContextItem>)
    ensures var eligible, items := Assemble(q, candidates).eligible, Offered(q, candidates);
            && (forall x | x in eligible && x.provenance.path in q.pins :: x.authority == ExactTaskPin)
            && PinsInPlace(q.pins, eligible)
            && PinsInPlace(q.pins, Mandatory(items)) && PinsInPlace(q.pins, Optional(items))
  {
    hide Assemble, PinsInPlace, Mandatory, Optional, Offered, Sorted;
    var eligible, items := Assemble(q, candidates).eligible, Offered(q, candidates);
    forall x | x in eligible && x.provenance.path in q.pins ensures x.authority == ExactTaskPin {
      PinnedIsExact(q, candidates, x);
    }
    EligibleIsOrdered(q, candidates);
    SortedPinsAreInPlace(q.pins, eligible);
    AssembledAt(q, candidates, q.maxTokens);
    assert q.(maxTokens := q.maxTokens) == q;
    OrderedParts(items);
    forall x | x in Mandatory(items) || x in Optional(items) ensures x in eligible {
      PartsMembers(items, x);
      SameElements(eligible, items, x);
    }
    SortedPinsAreInPlace(q.pins, Mandatory(items));
    SortedPinsAreInPlace(q.pins, Optional(items));
  }

  // ---------- pinning a repository file can cost it its place ----------

  lemma TwoMembers(s: seq<ContextItem>, x: ContextItem, y: ContextItem)
    requires DistinctIds(s) && x.id != y.id && forall e :: e in s <==> e == x || e == y
    ensures multiset(s) == multiset{x, y}
  {
    DistinctIsSimple(s, x);
    DistinctIsSimple(s, y);
    assert x in s && y in s;
    forall e ensures multiset(s)[e] == multiset{x, y}[e] {
      assert e in s <==> e in multiset(s);
    }
  }

  lemma PairInOrder(s: seq<ContextItem>, x: ContextItem, y: ContextItem)
    requires multiset(s) == multiset{x, y} && Sorted(SelectionLe, s) && !SelectionLe(y, x)
    ensures s == [x, y]
  {
    hide SelectionLe;
    assert |s| == |multiset(s)| == 2;
    assert s[0] in multiset(s) && s[1] in multiset(s);
    assert x in multiset{x, y} && y in multiset{x, y};
    assert x in s && y in s;
    OrdersAreTotal();
    assert SelectionLe(s[0], s[1]);
  }

  lemma {:induction false} OnlyOptional(s: seq<ContextItem>)
    requires forall x | x in s :: !x.mandatory
    ensures Only(s, false) == s && Only(s, true) == []
    decreases |s|
  {
    if s != [] {
      OnlyOptional(s[..|s| - 1]);
    }
  }

  /** Of two optional items a budget of exactly the first one's cost takes the first alone. */
  lemma FirstOfTwo(items: seq<ContextItem>, x: ContextItem, y: ContextItem, max: nat)
    requires multiset(items) == multiset{x, y} && !x.mandatory && !y.mandatory
    requires !SelectionLe(y, x) && x.tokens == max && y.tokens > 0
    ensures Admit(items, max).selected == [x] && Admit(items, max).status == Dispatchable
  {
    hide SelectionLe, Sort, AdmitOne;
    forall e | e in items ensures !e.mandatory {
      assert e in multiset(items);
    }
    OnlyOptional(items);
    SortIsPermutation(SelectionLe, items);
    OrderedParts(items);
    PairInOrder(Optional(items), x, y);
    assert Mandatory(items) == [] by {
      SortIsPermutation(SelectionLe, Only(items, true));
      SameLength(Only(items, true), Mandatory(items));
    }
    TakesExactly([], x, y, max);
  }

  lemma TakesExactly(trace: seq<TraceEntry>, x: ContextItem, y: ContextItem, max: nat)
    requires x.tokens == max && y.tokens > 0
    ensures AdmitAll(Tally([], 0, trace), [x, y], max).selected == [x]
  {
    var t := AdmitOne(Tally([], 0, trace), x, max);
    assert t == Tally([x], max, trace);
    assert [x, y][1..] == [y] && [y][1..] == [];
    var last := AdmitOne(t, y, max);
    assert last.selected == [x];
    assert AdmitAll(t, [y], max) == AdmitAll(last, [], max) == last;
  }

  lemma BothAreElected(x: ContextItem, y: ContextItem)
    requires TakesPart(x) && TakesPart(y) && x.fingerprint != y.fingerprint
    ensures Elected([x, y], x) && Elected([x, y], y)
  {
    hide Elected;
    AloneIsElected([x, y], x);
    AloneIsElected([x, y], y);
  }

  lemma OfferedAreMarked(q: Request, candidates: seq<ContextItem>)
    requires DistinctIds(candidates)
    ensures DistinctIds(Offered(q, candidates))
    ensures forall e :: e in Offered(q, candidates) <==>
                        e in MarkAll(q.pins, q.required, candidates)
                        && Elected(MarkAll(q.pins, q.required, candidates), e)
  {
    hide Assemble, Elected, Offered, MarkAll, Sort, Eligible, DistinctIds;
    var marked, s := MarkAll(q.pins, q.required, candidates), Presented(q, candidates);
    AssembledAt(q, candidates, q.maxTokens);
    assert q.(maxTokens := q.maxTokens) == q;
    PresentedIsMarked(q, candidates);
    EligibleIsSound(s);
    DistinctIdsPermuted(Eligible(s), Offered(q, candidates));
    forall e ensures e in Offered(q, candidates) <==> e in marked && Elected(marked, e) {
      SameElements(Eligible(s), Offered(q, candidates), e);
      SameElements(marked, s, e);
      if e in marked {
        SurvivesIff(q, candidates, e);
      }
    }
  }

  lemma BothAreOffered(q: Request, a: ContextItem, b: ContextItem)
    requires TakesPart(a) && TakesPart(b) && a.fingerprint != b.fingerprint && a.id != b.id
    ensures multiset(Offered(q, [a, b]))
            == multiset{Marked(q.pins, q.required, a), Marked(q.pins, q.required, b)}
  {
    hide Elected, Offered, MarkAll;
    var x, y := Marked(q.pins, q.required, a), Marked(q.pins, q.required, b);
    MarkAllPointwise(q.pins, q.required, [a, b]);
    assert MarkAll(q.pins, q.required, [a, b]) == [x, y];
    BothAreElected(x, y);
    OfferedAreMarked(q, [a, b]);
    TwoMembers(Offered(q, [a, b]), x, y);
  }

  /** Two optional repository files of equal cost, and room for one. Unpinned, the one with the lesser id
      is selected. Pinned, it is dropped: the pin put it below the other. */
  lemma PinCanDropItsFile(q: Request, a: ContextItem, b: ContextItem)
    requires TakesPart(a) && TakesPart(b) && a.fingerprint != b.fingerprint
    requires a.authority == b.authority == RepositoryWorktreeTruth && !a.mandatory && !b.mandatory
    requires a.id != b.id && TextLe(a.id, b.id) && a.provenance.path != b.provenance.path
    requires a.tokens == b.tokens == q.maxTokens > 0 && q.required == []
    ensures Assemble(q.(pins := {}), [a, b]).selected == [a]
    ensures Assemble(q.(pins := {a.provenance.path}), [a, b]).selected == [b]
  {
    hide Assemble, Admit, Offered, SelectionLe, TextLe, RequiredMissing, Sort, Coalesce, Fingerprints;
    var plain, pinned := q.(pins := {}), q.(pins := {a.provenance.path});
    BothAreOffered(plain, a, b);
    BothAreOffered(pinned, a, b);
    AssembledAt(plain, [a, b], q.maxTokens);
    AssembledAt(pinned, [a, b], q.maxTokens);
    assert plain.(maxTokens := q.maxTokens) == plain && pinned.(maxTokens := q.maxTokens) == pinned;
    var low := a.(authority := ExactTaskPin);
    assert Marked(plain.pins, [], a) == a && Marked(plain.pins, [], b) == b;
    assert Marked(pinned.pins, [], a) == low && Marked(pinned.pins, [], b) == b;
    assert !SelectionLe(b, a) && !SelectionLe(low, b) by {
      SelectionLeIs(b, a);
      SelectionLeIs(low, b);
      if TextLe(b.id, a.id) {
        TextAntisymmetric(a.id, b.id);
      }
    }
    FirstOfTwo(Offered(plain, [a, b]), a, b, q.maxTokens);
    FirstOfTwo(Offered(pinned, [a, b]), b, low, q.maxTokens);
  }
}

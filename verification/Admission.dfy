/** Token-budget admission: mandatory items whole or nothing, then optional items in selection
    order, with the first one that does not fit cut to what is left. */
module Admission {
  import opened Basics
  import opened Ordering
  import opened ContextItems
  import opened Coalescing

  datatype BundleStatus = Dispatchable | UnableToBuild | Stale | Undispatchable

  function Only(s: seq<ContextItem>, mandatory: bool): seq<ContextItem> {
    if s == [] then []
    else if s[|s| - 1].mandatory == mandatory then Only(s[..|s| - 1], mandatory) + [s[|s| - 1]]
    else Only(s[..|s| - 1], mandatory)
  }

  function Cost(s: seq<ContextItem>): nat {
    if s == [] then 0 else Cost(s[..|s| - 1]) + s[|s| - 1].tokens
  }

  datatype Tally = Tally(selected: seq<ContextItem>, used: nat, trace: seq<TraceEntry>)

  function ByteBudget(remaining: nat): nat {
    if 4 * remaining <= U64_MAX then 4 * remaining else U64_MAX
  }

  function Exclude(t: Tally, item: ContextItem): Tally {
    t.(trace := t.trace + [BudgetExcluded(item.id, item.sensitivity.SecretLike())])
  }

  function AdmitOne(t: Tally, item: ContextItem, max: nat): Tally {
    if t.used + item.tokens <= max then
      t.(selected := t.selected + [item], used := t.used + item.tokens)
    else if item.tokens > 0 && max > t.used then
      var bytes := ByteBudget(max - t.used);
      if 0 < bytes < |item.payload| then
        var cut := WithRange(item, ContentRange(0, bytes));
        Tally(t.selected + [cut], t.used + cut.tokens,
              t.trace + [BudgetChunked(item.id, item.sensitivity.SecretLike())])
      else Exclude(t, item)
    else Exclude(t, item)
  }

  function AdmitAll(t: Tally, optional: seq<ContextItem>, max: nat): Tally
    decreases |optional|
  {
    if optional == [] then t else AdmitAll(AdmitOne(t, optional[0], max), optional[1..], max)
  }

  datatype Admitted = Admitted(selected: seq<ContextItem>, status: BundleStatus, trace: seq<TraceEntry>)

  function Mandatory(eligible: seq<ContextItem>): seq<ContextItem> {
    Sort(SelectionLe, Only(eligible, true))
  }

  function Optional(eligible: seq<ContextItem>): seq<ContextItem> {
    Sort(SelectionLe, Only(eligible, false))
  }

  function Admit(eligible: seq<ContextItem>, max: nat): Admitted {
    var mandatory := Mandatory(eligible);
    if Cost(mandatory) > max then Admitted([], UnableToBuild, [])
    else
      var t := AdmitAll(Tally(mandatory, Cost(mandatory), []), Optional(eligible), max);
      Admitted(t.selected, Dispatchable, t.trace)
  }

  method AdmitWithBudget(eligible: seq<ContextItem>, max: nat) returns (r: Admitted)
    ensures r == Admit(eligible, max)
  {
    hide AdmitOne, Sort;
    var mandatory, optional: seq<ContextItem> := [], [];
    for i := 0 to |eligible|
      invariant mandatory == Only(eligible[..i], true) && optional == Only(eligible[..i], false)
    {
      assert eligible[..i + 1][..i] == eligible[..i];
      if eligible[i].mandatory {
        mandatory := mandatory + [eligible[i]];
      } else {
        optional := optional + [eligible[i]];
      }
    }
    assert eligible[..|eligible|] == eligible;
    mandatory, optional := Sort(SelectionLe, mandatory), Sort(SelectionLe, optional);
    var cost := 0;
    for i := 0 to |mandatory|
      invariant cost == Cost(mandatory[..i])
    {
      assert mandatory[..i + 1][..i] == mandatory[..i];
      cost := cost + mandatory[i].tokens;
    }
    assert mandatory[..|mandatory|] == mandatory;
    if cost > max {
      return Admitted([], UnableToBuild, []);
    }
    var t := Tally(mandatory, cost, []);
    for i := 0 to |optional|
      invariant AdmitAll(Tally(mandatory, cost, []), optional, max) == AdmitAll(t, optional[i..], max)
    {
      assert optional[i..][1..] == optional[i + 1..];
      t := AdmitOne(t, optional[i], max);
    }
    r := Admitted(t.selected, Dispatchable, t.trace);
  }

  // ---------- never over budget ----------

  lemma CostAppend(s: seq<ContextItem>, x: ContextItem)
    ensures Cost(s + [x]) == Cost(s) + x.tokens
  {
    assert (s + [x])[..|s|] == s;
  }

  lemma CutCost(item: ContextItem, bytes: nat)
    requires bytes <= |item.payload|
    ensures WithRange(item, ContentRange(0, bytes)).tokens == (bytes + 3) / 4
    ensures WithRange(item, ContentRange(0, bytes)).payload == item.payload[..bytes]
  {
  }

  lemma AdmitOneWithin(t: Tally, item: ContextItem, max: nat)
    requires t.used == Cost(t.selected) <= max
    ensures AdmitOne(t, item, max).used == Cost(AdmitOne(t, item, max).selected) <= max
    ensures t.selected <= AdmitOne(t, item, max).selected
  {
    CostAppend(t.selected, item);
    if t.used < max {
      var bytes := ByteBudget(max - t.used);
      if bytes < |item.payload| {
        CutCost(item, bytes);
        CostAppend(t.selected, WithRange(item, ContentRange(0, bytes)));
      }
    }
  }

  lemma {:induction false} AdmitAllWithin(t: Tally, optional: seq<ContextItem>, max: nat)
    requires t.used == Cost(t.selected) <= max
    ensures var r := AdmitAll(t, optional, max);
            r.used == Cost(r.selected) <= max && t.selected <= r.selected
    decreases |optional|
  {
    hide AdmitOne, Cost;
    if optional != [] {
      AdmitOneWithin(t, optional[0], max);
      AdmitAllWithin(AdmitOne(t, optional[0], max), optional[1..], max);
    }
  }

  /** Whatever the estimates: the selection never costs more than the budget; the mandatory items
      are all selected whole, or their cost alone exceeds the budget and nothing is selected. */
  lemma AdmissionIsWithinBudget(eligible: seq<ContextItem>, max: nat)
    ensures var r := Admit(eligible, max);
            && Cost(r.selected) <= max
            && (r.status == Dispatchable <==> Cost(Mandatory(eligible)) <= max)
            && (r.status == Dispatchable ==> Mandatory(eligible) <= r.selected)
            && (r.status != Dispatchable ==> r.status == UnableToBuild && r.selected == [])
  {
    hide AdmitOne;
    if Cost(Mandatory(eligible)) <= max {
      AdmitAllWithin(Tally(Mandatory(eligible), Cost(Mandatory(eligible)), []), Optional(eligible), max);
    }
  }

  // ---------- the budget is used up exactly ----------

  /** The estimate is the one computed from the payload, which fits 64-bit lengths. */
  predicate Estimated(i: ContextItem) {
    i.tokens == EstimateTokens(i.payload) && |i.payload| <= U64_MAX
  }

  ghost predicate AllEstimated(s: seq<ContextItem>) {
    forall i | 0 <= i < |s| :: Estimated(s[i])
  }

  /** How many items of `s`, from the front, fit `budget` whole. */
  function FitCount(s: seq<ContextItem>, budget: nat): nat {
    if s != [] && s[0].tokens <= budget then 1 + FitCount(s[1..], budget - s[0].tokens) else 0
  }

  function Free(s: seq<ContextItem>): seq<ContextItem> {
    if s == [] then []
    else if s[0].tokens == 0 then [s[0]] + Free(s[1..])
    else Free(s[1..])
  }

  /** It is the longest prefix that fits. */
  lemma {:induction false} FitCountIsLongest(s: seq<ContextItem>, budget: nat)
    ensures FitCount(s, budget) <= |s| && Cost(s[..FitCount(s, budget)]) <= budget
    ensures FitCount(s, budget) < |s| ==> Cost(s[..FitCount(s, budget)]) + s[FitCount(s, budget)].tokens > budget
  {
    if s != [] && s[0].tokens <= budget {
      FitCountIsLongest(s[1..], budget - s[0].tokens);
      var k := FitCount(s[1..], budget - s[0].tokens);
      assert s[..k + 1] == [s[0]] + s[1..][..k];
      CostFront(s[0], s[1..][..k]);
    } else {
      assert s[..0] == [];
    }
  }

  /** The prefix of four bytes per token left. */
  function Cut(item: ContextItem, left: nat): ContextItem {
    WithRange(item, ContentRange(0, 4 * left))
  }

  /** One item cut to the exact bytes left, if any are, then only items that cost nothing. */
  function Tail(s: seq<ContextItem>, left: int): seq<ContextItem> {
    if s == [] then [] else (if left <= 0 then [] else [Cut(s[0], left)]) + Free(s[1..])
  }

  /** Reference packing: the longest whole prefix that fits, then the tail. */
  function Packed(s: seq<ContextItem>, budget: nat): seq<ContextItem> {
    FitCountIsLongest(s, budget);
    var k := FitCount(s, budget);
    s[..k] + Tail(s[k..], budget - Cost(s[..k]))
  }

  lemma {:induction false} FullTakesFree(t: Tally, s: seq<ContextItem>, max: nat)
    requires t.used == max
    ensures AdmitAll(t, s, max).selected == t.selected + Free(s) && AdmitAll(t, s, max).used == max
    decreases |s|
  {
    if s != [] {
      FullTakesFree(AdmitOne(t, s[0], max), s[1..], max);
    }
  }

  /** An estimated item that does not fit what is left is cut to exactly what is left. */
  lemma CutFills(t: Tally, item: ContextItem, max: nat)
    requires Estimated(item) && t.used < max && t.used + item.tokens > max
    ensures 4 * (max - t.used) < |item.payload|
    ensures AdmitOne(t, item, max).selected == t.selected + [Cut(item, max - t.used)]
            && AdmitOne(t, item, max).used == max
  {
    CutCost(item, 4 * (max - t.used));
  }

  lemma Reassociate(a: seq<ContextItem>, b: seq<ContextItem>, c: seq<ContextItem>)
    ensures (a + b) + c == a + (b + c)
  {
  }

  lemma AdmitAllStep(t: Tally, s: seq<ContextItem>, max: nat)
    requires s != []
    ensures AdmitAll(t, s, max) == AdmitAll(AdmitOne(t, s[0], max), s[1..], max)
  {
    hide AdmitOne;
  }

  lemma FitStep(s: seq<ContextItem>, budget: nat)
    requires s != [] && s[0].tokens <= budget
    ensures var k := FitCount(s[1..], budget - s[0].tokens);
            && k <= |s[1..]|
            && FitCount(s, budget) == k + 1
            && s[..k + 1] == [s[0]] + s[1..][..k] && s[k + 1..] == s[1..][k..]
            && Cost(s[..k + 1]) == s[0].tokens + Cost(s[1..][..k])
  {
    var k := FitCount(s[1..], budget - s[0].tokens);
    FitCountIsLongest(s[1..], budget - s[0].tokens);
    assert s[..k + 1] == [s[0]] + s[1..][..k];
    CostFront(s[0], s[1..][..k]);
  }

  lemma PackedStep(s: seq<ContextItem>, budget: nat)
    requires s != [] && s[0].tokens <= budget
    ensures Packed(s, budget) == [s[0]] + Packed(s[1..], budget - s[0].tokens)
  {
    hide FitCount, Cost, Tail;
    FitStep(s, budget);
    var rest, b := s[1..], budget - s[0].tokens;
    var k := FitCount(rest, b);
    Reassociate([s[0]], rest[..k], Tail(rest[k..], b - Cost(rest[..k])));
  }

  lemma PackedOverflow(s: seq<ContextItem>, budget: nat)
    requires s != [] && s[0].tokens > budget
    ensures FitCount(s, budget) == 0
    ensures Packed(s, budget) == (if budget == 0 then [] else [Cut(s[0], budget)]) + Free(s[1..])
  {
    assert FitCount(s, budget) == 0;
    hide FitCount, Free;
    assert s[..0] == [] && s[0..] == s;
    assert Cost(s[..0]) == 0;
  }

  lemma OverflowFills(t: Tally, item: ContextItem, max: nat)
    requires Estimated(item) && t.used <= max < t.used + item.tokens
    ensures AdmitOne(t, item, max).selected == t.selected + if t.used == max then [] else [Cut(item, max - t.used)]
    ensures AdmitOne(t, item, max).used == max
  {
    if t.used < max {
      CutFills(t, item, max);
    } else {
      assert t.selected + [] == t.selected;
    }
  }

  lemma OverflowPacks(t: Tally, s: seq<ContextItem>, max: nat)
    requires s != [] && Estimated(s[0]) && t.used <= max < t.used + s[0].tokens
    ensures AdmitAll(t, s, max).selected == t.selected + Packed(s, max - t.used)
    ensures AdmitAll(t, s, max).used == max
  {
    hide AdmitOne, AdmitAll, Packed, Free, Cut, Estimated;
    OverflowFills(t, s[0], max);
    AdmitAllStep(t, s, max);
    FullTakesFree(AdmitOne(t, s[0], max), s[1..], max);
    PackedOverflow(s, max - t.used);
    Reassociate(t.selected, if t.used == max then [] else [Cut(s[0], max - t.used)], Free(s[1..]));
  }

  lemma FitCountStep(s: seq<ContextItem>, budget: nat)
    requires s != [] && s[0].tokens <= budget
    ensures FitCount(s, budget) == 1 + FitCount(s[1..], budget - s[0].tokens)
  {
  }

  lemma WholeFits(t: Tally, item: ContextItem, max: nat)
    requires t.used + item.tokens <= max
    ensures AdmitOne(t, item, max).selected == t.selected + [item]
            && AdmitOne(t, item, max).used == t.used + item.tokens
  {
  }

  lemma {:induction false} AdmitAllPacks(t: Tally, s: seq<ContextItem>, max: nat)
    requires t.used <= max && AllEstimated(s)
    ensures AdmitAll(t, s, max).selected == t.selected + Packed(s, max - t.used)
    ensures FitCount(s, max - t.used) < |s| ==> AdmitAll(t, s, max).used == max
    decreases |s|
  {
    hide *;
    if s == [] {
      NothingToPack(t, max);
    } else if t.used + s[0].tokens > max {
      EstimatedAt(s);
      OverflowPacks(t, s, max);
    } else {
      EstimatedAt(s);
      WholeFits(t, s[0], max);
      AdmitAllStep(t, s, max);
      PackedStep(s, max - t.used);
      FitCountStep(s, max - t.used);
      AdmitAllPacks(AdmitOne(t, s[0], max), s[1..], max);
      Reassociate(t.selected, [s[0]], Packed(s[1..], max - t.used - s[0].tokens));
    }
  }

  lemma NothingToPack(t: Tally, max: nat)
    requires t.used <= max
    ensures AdmitAll(t, [], max) == t && Packed([], max - t.used) == [] && FitCount([], max - t.used) == 0
    ensures t.selected + [] == t.selected
  {
  }

  lemma EstimatedAt(s: seq<ContextItem>)
    requires AllEstimated(s) && s != []
    ensures Estimated(s[0]) && AllEstimated(s[1..])
  {
  }

  lemma {:induction false} OnlyMembers(s: seq<ContextItem>, mandatory: bool, x: ContextItem)
    ensures x in Only(s, mandatory) <==> x in s && x.mandatory == mandatory
  {
    if s != [] {
      OnlyMembers(s[..|s| - 1], mandatory, x);
      assert s == s[..|s| - 1] + [s[|s| - 1]];
    }
  }

  lemma OptionalEstimated(eligible: seq<ContextItem>)
    requires AllEstimated(eligible)
    ensures AllEstimated(Optional(eligible))
  {
    var o := Optional(eligible);
    SortIsPermutation(SelectionLe, Only(eligible, false));
    forall i | 0 <= i < |o| ensures Estimated(o[i]) {
      SameElements(Only(eligible, false), o, o[i]);
      OnlyMembers(eligible, false, o[i]);
    }
  }

  /** With payload-derived estimates, the selection is the mandatory items followed by the reference
      packing of the optional ones, and if an optional item is not admitted whole the budget is used
      up exactly. */
  lemma BudgetIsTight(eligible: seq<ContextItem>, max: nat)
    requires AllEstimated(eligible) && Cost(Mandatory(eligible)) <= max
    ensures var m, o := Mandatory(eligible), Optional(eligible);
            var rest := max - Cost(m);
            && Admit(eligible, max).selected == m + Packed(o, rest)
            && (FitCount(o, rest) < |o| ==> Cost(Admit(eligible, max).selected) == max)
  {
    hide AdmitOne, AdmitAll, Packed, Cost, FitCount;
    var m, o := Mandatory(eligible), Optional(eligible);
    var t := Tally(m, Cost(m), []);
    OptionalEstimated(eligible);
    AdmitAllPacks(t, o, max);
    AdmitAllWithin(t, o, max);
  }

  lemma {:induction false} CostFront(x: ContextItem, s: seq<ContextItem>)
    ensures Cost([x] + s) == x.tokens + Cost(s)
  {
    if s == [] {
      assert [x] + s == [x];
      assert [x][..0] == [];
    } else {
      assert ([x] + s)[..|s|] == [x] + s[..|s| - 1];
      CostFront(x, s[..|s| - 1]);
    }
  }

  /** The one item that is cut keeps exactly the first four bytes per token left, and costs those tokens. */
  lemma CutIsExactPrefix(s: seq<ContextItem>, budget: nat)
    requires AllEstimated(s) && FitCount(s, budget) < |s| && budget > Cost(s[..FitCount(s, budget)])
    ensures var item, left := s[FitCount(s, budget)], budget - Cost(s[..FitCount(s, budget)]);
            && 4 * left < |item.payload|
            && Cut(item, left).payload == item.payload[..4 * left] && Cut(item, left).tokens == left
  {
    FitCountIsLongest(s, budget);
    assert Estimated(s[FitCount(s, budget)]);
  }

  // ---------- order does not matter ----------

  lemma {:induction false} OnlyCounts(s: seq<ContextItem>, mandatory: bool, x: ContextItem)
    ensures multiset(Only(s, mandatory))[x] == if x.mandatory == mandatory then multiset(s)[x] else 0
  {
    if s != [] {
      OnlyCounts(s[..|s| - 1], mandatory, x);
      MultisetLast(s);
    }
  }

  lemma {:induction false} OnlyDistinct(s: seq<ContextItem>, mandatory: bool)
    requires DistinctIds(s)
    ensures DistinctIds(Only(s, mandatory))
  {
    if s != [] {
      var front, last := s[..|s| - 1], s[|s| - 1];
      OnlyDistinct(front, mandatory);
      var kept := Only(front, mandatory);
      forall i | 0 <= i < |kept| ensures kept[i].id != last.id {
        OnlyMembers(front, mandatory, kept[i]);
      }
    }
  }

  /** Admission re-sorts, so any reordering of a list with distinct ids is admitted the same way. */
  lemma AdmissionForgetsOrder(s: seq<ContextItem>, t: seq<ContextItem>, max: nat)
    requires DistinctIds(s) && multiset(s) == multiset(t)
    ensures Admit(s, max) == Admit(t, max)
  {
    hide AdmitAll, Cost, Sort;
    forall b: bool ensures Sort(SelectionLe, Only(s, b)) == Sort(SelectionLe, Only(t, b)) {
      forall x ensures multiset(Only(s, b))[x] == multiset(Only(t, b))[x] {
        OnlyCounts(s, b, x);
        OnlyCounts(t, b, x);
      }
      OnlyDistinct(s, b);
      SelectionSortForgetsOrder(Only(s, b), Only(t, b));
    }
    assert Mandatory(s) == Mandatory(t) && Optional(s) == Optional(t);
  }
}

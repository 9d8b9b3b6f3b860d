/** The optional semantic step: an enhancer may propose a new order of the eligible items. It can
    neither add nor remove an item, nor move one ahead of a higher authority. */
module Semantic {
  import opened Ordering
  import opened ContextItems
  import opened Coalescing

  datatype SemanticOutcome = Reordered(order: seq<string>) | Fallback

  function ById(s: seq<ContextItem>): map<string, ContextItem> {
    if s == [] then map[] else ById(s[..|s| - 1])[s[|s| - 1].id := s[|s| - 1]]
  }

  /** Follow the proposed ids, each item once. */
  function Picked(order: seq<string>, byId: map<string, ContextItem>): seq<ContextItem> {
    if order == [] then []
    else if order[0] in byId then [byId[order[0]]] + Picked(order[1..], byId - {order[0]})
    else Picked(order[1..], byId)
  }

  /** Items not mentioned, in baseline order. */
  function Remainder(s: seq<ContextItem>, seen: set<string>): seq<ContextItem> {
    if s == [] then []
    else if s[|s| - 1].id in seen then Remainder(s[..|s| - 1], seen)
    else Remainder(s[..|s| - 1], seen) + [s[|s| - 1]]
  }

  function Proposal(order: seq<string>, eligible: seq<ContextItem>): seq<ContextItem> {
    var picked := Picked(order, ById(eligible));
    picked + Remainder(eligible, Ids(picked))
  }

  /** Some item stands ahead of one of higher authority that was ahead of it in the baseline. */
  predicate ViolatesCeiling(enhanced: seq<ContextItem>, baseline: seq<ContextItem>) {
    exists i, j | 0 <= i < j < |enhanced| ::
      enhanced[i].authority.Rank() > enhanced[j].authority.Rank() && Ahead(baseline, enhanced[j].id, enhanced[i].id)
  }

  /** The (last) position of `first` in the baseline is before that of `second`. */
  predicate Ahead(baseline: seq<ContextItem>, first: string, second: string) {
    exists p, q | 0 <= p < q < |baseline| ::
      IsPosition(baseline, first, p) && IsPosition(baseline, second, q)
  }

  predicate IsPosition(s: seq<ContextItem>, id: string, p: nat) {
    p < |s| && s[p].id == id && forall k | p < k < |s| :: s[k].id != id
  }

  predicate Unknown(order: seq<string>, eligible: seq<ContextItem>) {
    exists i | 0 <= i < |order| :: order[i] !in Ids(eligible)
  }

  /** The list to go on with, and whether the deterministic baseline had to be used. */
  function Applied(outcome: SemanticOutcome, eligible: seq<ContextItem>): (seq<ContextItem>, bool) {
    match outcome
    case Fallback => (eligible, true)
    case Reordered(order) =>
      if Unknown(order, eligible) || ViolatesCeiling(Proposal(order, eligible), eligible) then (eligible, true)
      else (Proposal(order, eligible), false)
  }

  // ---------- the proposal is a permutation ----------

  lemma {:induction false} ByIdFinds(s: seq<ContextItem>)
    ensures forall k | k in ById(s) :: ById(s)[k].id == k && ById(s)[k] in s
    ensures forall x | x in s :: x.id in ById(s)
  {
    if s != [] {
      ByIdFinds(s[..|s| - 1]);
      assert s == s[..|s| - 1] + [s[|s| - 1]];
    }
  }

  ghost predicate Indexed(m: map<string, ContextItem>) {
    forall k | k in m :: m[k].id == k
  }

  lemma {:induction false} PickedMembers(order: seq<string>, m: map<string, ContextItem>, x: ContextItem)
    requires Indexed(m)
    ensures x in Picked(order, m) ==> x.id in m && m[x.id] == x && x.id in order
    ensures x.id in m && m[x.id] == x && x.id in order ==> x in Picked(order, m)
  {
    if order != [] {
      assert order == [order[0]] + order[1..];
      if order[0] in m {
        PickedMembers(order[1..], m - {order[0]}, x);
      } else {
        PickedMembers(order[1..], m, x);
      }
    }
  }

  lemma {:induction false} PickedDistinct(order: seq<string>, m: map<string, ContextItem>)
    requires Indexed(m)
    ensures DistinctIds(Picked(order, m))
  {
    if order != [] {
      if order[0] in m {
        var rest := Picked(order[1..], m - {order[0]});
        PickedDistinct(order[1..], m - {order[0]});
        forall i | 0 <= i < |rest| ensures rest[i].id != order[0] {
          PickedMembers(order[1..], m - {order[0]}, rest[i]);
        }
      } else {
        PickedDistinct(order[1..], m);
      }
    }
  }

  lemma {:induction false} RestMembers(s: seq<ContextItem>, seen: set<string>, x: ContextItem)
    ensures x in Remainder(s, seen) <==> x in s && x.id !in seen
  {
    if s != [] {
      RestMembers(s[..|s| - 1], seen, x);
      assert s == s[..|s| - 1] + [s[|s| - 1]];
    }
  }

  lemma {:induction false} RestDistinct(s: seq<ContextItem>, seen: set<string>)
    requires DistinctIds(s)
    ensures DistinctIds(Remainder(s, seen))
  {
    if s != [] {
      var front, last := s[..|s| - 1], s[|s| - 1];
      RestDistinct(front, seen);
      var rest := Remainder(front, seen);
      forall i | 0 <= i < |rest| ensures rest[i].id != last.id {
        RestMembers(front, seen, rest[i]);
      }
    }
  }

  lemma IdsMembers(s: seq<ContextItem>, x: ContextItem)
    requires x in s
    ensures x.id in Ids(s)
  {
  }

  lemma DistinctConcat(a: seq<ContextItem>, b: seq<ContextItem>)
    requires DistinctIds(a) && DistinctIds(b) && forall x | x in b :: x.id !in Ids(a)
    ensures DistinctIds(a + b)
  {
    forall i, j | 0 <= i < j < |a + b| ensures (a + b)[i].id != (a + b)[j].id {
      if i < |a| <= j {
        IdsMembers(a, a[i]);
        assert b[j - |a|] in b;
      }
    }
  }

  lemma SameMembersSameMultiset(a: seq<ContextItem>, b: seq<ContextItem>)
    requires DistinctIds(a) && DistinctIds(b) && forall x :: x in a <==> x in b
    ensures multiset(a) == multiset(b)
  {
    forall x ensures multiset(a)[x] == multiset(b)[x] {
      DistinctIsSimple(a, x);
      DistinctIsSimple(b, x);
      assert x in a <==> x in multiset(a);
      assert x in b <==> x in multiset(b);
    }
  }

  /** Whatever ids are proposed, the proposed list holds exactly the eligible items, each once. */
  lemma ProposalIsPermutation(order: seq<string>, eligible: seq<ContextItem>)
    requires DistinctIds(eligible)
    ensures multiset(Proposal(order, eligible)) == multiset(eligible)
    ensures DistinctIds(Proposal(order, eligible))
  {
    var m := ById(eligible);
    var picked := Picked(order, m);
    var rest := Remainder(eligible, Ids(picked));
    ByIdFinds(eligible);
    PickedDistinct(order, m);
    RestDistinct(eligible, Ids(picked));
    forall x ensures x in rest <==> x in eligible && x.id !in Ids(picked) {
      RestMembers(eligible, Ids(picked), x);
    }
    DistinctConcat(picked, rest);
    forall x ensures x in Proposal(order, eligible) <==> x in eligible {
      PickedMembers(order, m, x);
      if x in picked {
        IdsMembers(picked, x);
      }
      if x in eligible && x.id in Ids(picked) {
        var i :| 0 <= i < |picked| && picked[i].id == x.id;
        PickedMembers(order, m, picked[i]);
        IdDetermines(eligible, picked[i], x);
      }
    }
    SameMembersSameMultiset(Proposal(order, eligible), eligible);
  }

  lemma AppliedIsPermutation(outcome: SemanticOutcome, eligible: seq<ContextItem>)
    requires DistinctIds(eligible)
    ensures multiset(Applied(outcome, eligible).0) == multiset(eligible)
  {
    if outcome.Reordered? {
      ProposalIsPermutation(outcome.order, eligible);
    }
  }

  // ---------- authority ----------

  ghost predicate ByAuthority(s: seq<ContextItem>) {
    forall i, j | 0 <= i < j < |s| :: s[i].authority.Rank() <= s[j].authority.Rank()
  }

  /** An accepted reorder of a baseline in selection order is still sorted by authority. */
  lemma AcceptedReorderKeepsAuthority(outcome: SemanticOutcome, eligible: seq<ContextItem>)
    requires DistinctIds(eligible) && Sorted(SelectionLe, eligible)
    ensures ByAuthority(Applied(outcome, eligible).0)
  {
    var out := Applied(outcome, eligible).0;
    AppliedIsPermutation(outcome, eligible);
    forall i, j | 0 <= i < j < |out|
      ensures out[i].authority.Rank() <= out[j].authority.Rank()
    {
      SameElements(eligible, out, out[i]);
      SameElements(eligible, out, out[j]);
      var p :| 0 <= p < |eligible| && eligible[p] == out[i];
      var q :| 0 <= q < |eligible| && eligible[q] == out[j];
      if q < p {
        assert IsPosition(eligible, out[j].id, q) && IsPosition(eligible, out[i].id, p);
        assert Ahead(eligible, out[j].id, out[i].id);
      } else if p < q {
        assert SelectionLe(eligible[p], eligible[q]);
      }
    }
  }

  // ---------- the loops ----------

  method BaselinePositions(s: seq<ContextItem>) returns (pos: map<string, nat>)
    ensures forall id :: id in pos <==> id in Ids(s)
    ensures forall id | id in pos :: IsPosition(s, id, pos[id])
  {
    pos := map[];
    for k := 0 to |s|
      invariant forall id :: id in pos <==> exists i | 0 <= i < k :: s[i].id == id
      invariant forall id | id in pos ::
                  pos[id] < k && s[pos[id]].id == id && forall j | pos[id] < j < k :: s[j].id != id
    {
      pos := pos[s[k].id := k];
    }
  }

  lemma PositionsDecide(s: seq<ContextItem>, a: string, b: string, p: nat, q: nat)
    requires IsPosition(s, a, p) && IsPosition(s, b, q)
    ensures Ahead(s, a, b) <==> p < q
  {
  }

  /** Look for a pair that breaks the ceiling. */
  method FindViolation(enhanced: seq<ContextItem>, baseline: seq<ContextItem>) returns (found: bool)
    ensures found <==> ViolatesCeiling(enhanced, baseline)
  {
    var pos := BaselinePositions(baseline);
    for i := 0 to |enhanced|
      invariant forall a, b | 0 <= a < i && a < b < |enhanced| ::
                  !(enhanced[a].authority.Rank() > enhanced[b].authority.Rank()
                    && Ahead(baseline, enhanced[b].id, enhanced[a].id))
    {
      for j := i + 1 to |enhanced|
        invariant forall b | i < b < j ::
                    !(enhanced[i].authority.Rank() > enhanced[b].authority.Rank()
                      && Ahead(baseline, enhanced[b].id, enhanced[i].id))
      {
        hide Ahead, IsPosition;
        var x, y := enhanced[i], enhanced[j];
        if x.id in pos && y.id in pos {
          PositionsDecide(baseline, y.id, x.id, pos[y.id], pos[x.id]);
          if x.authority.Rank() > y.authority.Rank() && pos[x.id] > pos[y.id] {
            return true;
          }
        } else {
          AbsentIsNotAhead(baseline, y.id, x.id);
        }
      }
    }
    found := false;
  }

  lemma AbsentIsNotAhead(s: seq<ContextItem>, a: string, b: string)
    requires a !in Ids(s) || b !in Ids(s)
    ensures !Ahead(s, a, b)
  {
  }

  method IndexById(eligible: seq<ContextItem>) returns (byId: map<string, ContextItem>)
    ensures byId == ById(eligible)
  {
    byId := map[];
    for k := 0 to |eligible|
      invariant byId == ById(eligible[..k])
    {
      assert eligible[..k + 1][..k] == eligible[..k];
      byId := byId[eligible[k].id := eligible[k]];
    }
    assert eligible[..|eligible|] == eligible;
  }

  method PickInOrder(order: seq<string>, index: map<string, ContextItem>)
    returns (out: seq<ContextItem>, seen: set<string>)
    requires Indexed(index)
    ensures out == Picked(order, index) && seen == Ids(out)
  {
    hide Ids;
    var byId := index;
    out, seen := [], {};
    assert seen == Ids(out) by { NoIds(); }
    assert order[0..] == order;
    for i := 0 to |order|
      invariant Indexed(byId)
      invariant Picked(order, index) == out + Picked(order[i..], byId)
      invariant seen == Ids(out)
    {
      assert order[i..][1..] == order[i + 1..];
      if order[i] in byId {
        var item := byId[order[i]];
        assert Picked(order[i..], byId) == [item] + Picked(order[i + 1..], byId - {order[i]});
        byId := byId - {order[i]};
        IdsAppend(out, item);
        seen := seen + {item.id};
        out := out + [item];
      }
    }
    assert order[|order|..] == [];
  }

  lemma NoIds()
    ensures Ids([]) == {}
  {
  }

  method BuildProposal(order: seq<string>, eligible: seq<ContextItem>) returns (out: seq<ContextItem>)
    ensures out == Proposal(order, eligible)
  {
    hide Picked, ById, Ids;
    var byId := IndexById(eligible);
    ByIdFinds(eligible);
    var picked, seen := PickInOrder(order, byId);
    out := picked;
    for k := 0 to |eligible|
      invariant out == picked + Remainder(eligible[..k], seen)
    {
      assert eligible[..k + 1][..k] == eligible[..k];
      if eligible[k].id !in seen {
        out := out + [eligible[k]];
      }
    }
    assert eligible[..|eligible|] == eligible;
  }

  lemma IdsAppend(s: seq<ContextItem>, x: ContextItem)
    ensures Ids(s + [x]) == Ids(s) + {x.id}
  {
    var t := s + [x];
    assert forall i | 0 <= i < |s| :: t[i] == s[i];
    assert t[|s|] == x;
    forall id ensures id in Ids(t) <==> id in Ids(s) + {x.id} {
      if id in Ids(s) {
        var i :| 0 <= i < |s| && s[i].id == id;
        assert t[i].id == id;
      }
    }
  }

  method ApplySemanticOutcome(outcome: SemanticOutcome, eligible: seq<ContextItem>)
    returns (items: seq<ContextItem>, fellBack: bool)
    ensures (items, fellBack) == Applied(outcome, eligible)
  {
    if outcome.Fallback? {
      return eligible, true;
    }
    var ids := Ids(eligible);
    for i := 0 to |outcome.order|
      invariant forall k | 0 <= k < i :: outcome.order[k] in ids
    {
      if outcome.order[i] !in ids {
        return eligible, true;
      }
    }
    var out := BuildProposal(outcome.order, eligible);
    var violates := FindViolation(out, eligible);
    if violates {
      return eligible, true;
    }
    return out, false;
  }
}

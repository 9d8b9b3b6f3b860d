/** The order an enhancer's proposal stands for, and when it is taken. */
module ProposedOrder {
  import opened Ordering
  import opened ContextItems
  import opened Coalescing
  import opened Semantic
  import opened Admission
  import opened Assembly

  /** `a` is where the id is first mentioned. */
  ghost predicate FirstMention(order: seq<string>, id: string, a: int) {
    0 <= a < |order| && order[a] == id && forall b | 0 <= b < a :: order[b] != id
  }

  ghost predicate MentionedBefore(order: seq<string>, first: string, second: string) {
    exists a, b | FirstMention(order, first, a) && FirstMention(order, second, b) :: a < b
  }

  ghost predicate StandsBefore(s: seq<ContextItem>, first: ContextItem, second: ContextItem) {
    exists a, b | 0 <= a < b < |s| :: s[a] == first && s[b] == second
  }

  lemma ShiftMention(order: seq<string>, id: string, a: int)
    requires order != [] && order[0] != id && FirstMention(order[1..], id, a)
    ensures FirstMention(order, id, a + 1)
  {
    assert order[1..][a] == order[a + 1];
    forall b | 0 <= b < a + 1 ensures order[b] != id {
      assert b > 0 ==> order[b] == order[1..][b - 1];
    }
  }

  lemma {:induction false} MentionExists(order: seq<string>, id: string) returns (a: int)
    requires id in order
    ensures FirstMention(order, id, a)
  {
    if order[0] == id {
      a := 0;
    } else {
      assert order == [order[0]] + order[1..];
      a := MentionExists(order[1..], id);
      ShiftMention(order, id, a);
      a := a + 1;
    }
  }

  lemma ShiftBefore(order: seq<string>, first: string, second: string)
    requires order != [] && order[0] != first && order[0] != second && MentionedBefore(order[1..], first, second)
    ensures MentionedBefore(order, first, second)
  {
    var a, b :| FirstMention(order[1..], first, a) && FirstMention(order[1..], second, b) && a < b;
    ShiftMention(order, first, a);
    ShiftMention(order, second, b);
    assert a + 1 < b + 1;
  }

  lemma {:induction false} PickedFollows(order: seq<string>, m: map<string, ContextItem>, i: nat, j: nat)
    requires Indexed(m) && i < j < |Picked(order, m)|
    ensures MentionedBefore(order, Picked(order, m)[i].id, Picked(order, m)[j].id)
  {
    hide MentionedBefore;
    if order[0] in m {
      var less := m - {order[0]};
      var rest := Picked(order[1..], less);
      PickedMembers(order[1..], less, rest[j - 1]);
      if i == 0 {
        FirstIsBefore(order, rest[j - 1].id);
      } else {
        PickedMembers(order[1..], less, rest[i - 1]);
        PickedFollows(order[1..], less, i - 1, j - 1);
        ShiftBefore(order, rest[i - 1].id, rest[j - 1].id);
      }
    } else {
      var rest := Picked(order[1..], m);
      PickedMembers(order[1..], m, rest[i]);
      PickedMembers(order[1..], m, rest[j]);
      PickedFollows(order[1..], m, i, j);
      ShiftBefore(order, rest[i].id, rest[j].id);
    }
  }

  lemma FirstIsBefore(order: seq<string>, second: string)
    requires order != [] && order[0] != second && second in order[1..]
    ensures MentionedBefore(order, order[0], second)
  {
    var b := MentionExists(order[1..], second);
    ShiftMention(order, second, b);
    assert FirstMention(order, order[0], 0) && 0 < b + 1;
  }

  lemma {:induction false} RemainderKeepsOrder(s: seq<ContextItem>, seen: set<string>, i: nat, j: nat)
    requires i < j < |Remainder(s, seen)|
    ensures StandsBefore(s, Remainder(s, seen)[i], Remainder(s, seen)[j])
  {
    var front, last := s[..|s| - 1], s[|s| - 1];
    var rest := Remainder(front, seen);
    RestMembers(front, seen, rest[i]);
    if j < |rest| {
      RemainderKeepsOrder(front, seen, i, j);
      var a, b :| 0 <= a < b < |front| && front[a] == rest[i] && front[b] == rest[j];
      assert s[a] == rest[i] && s[b] == rest[j];
    } else {
      var a :| 0 <= a < |front| && front[a] == rest[i];
      assert s[a] == rest[i] && s[|s| - 1] == last;
    }
  }

  /** One item of a proposal ahead of another: by first mention when both are mentioned, mentioned ones
      ahead of the rest, the rest as in the baseline. */
  ghost predicate InProposedOrder(order: seq<string>, eligible: seq<ContextItem>, x: ContextItem, y: ContextItem) {
    if x.id in order && y.id in order then MentionedBefore(order, x.id, y.id)
    else if x.id in order || y.id in order then x.id in order
    else StandsBefore(eligible, x, y)
  }

  lemma PickedAreMentioned(order: seq<string>, eligible: seq<ContextItem>, x: ContextItem)
    requires DistinctIds(eligible) && x in eligible
    ensures x in Picked(order, ById(eligible)) <==> x.id in order
    ensures x.id in Ids(Picked(order, ById(eligible))) <==> x.id in order
  {
    var m := ById(eligible);
    var picked := Picked(order, m);
    ByIdFinds(eligible);
    PickedMembers(order, m, x);
    assert m[x.id] == x by {
      IdDetermines(eligible, m[x.id], x);
    }
    if x.id in order {
      IdsMembers(picked, x);
    }
    if x.id in Ids(picked) {
      var i :| 0 <= i < |picked| && picked[i].id == x.id;
      PickedMembers(order, m, picked[i]);
    }
  }

  /** The proposal is the eligible items, each once, in the order that `InProposedOrder` says; there is one
      such list only. */
  lemma ProposalFollows(order: seq<string>, eligible: seq<ContextItem>, i: nat, j: nat)
    requires DistinctIds(eligible) && i < j < |Proposal(order, eligible)|
    ensures InProposedOrder(order, eligible, Proposal(order, eligible)[i], Proposal(order, eligible)[j])
  {
    hide MentionedBefore, StandsBefore, Picked, ById, Remainder, Ids;
    var m := ById(eligible);
    var picked := Picked(order, m);
    var seen := Ids(picked);
    var rest := Remainder(eligible, seen);
    var p := Proposal(order, eligible);
    ByIdFinds(eligible);
    ProposalIsPermutation(order, eligible);
    SameElements(p, eligible, p[i]);
    SameElements(p, eligible, p[j]);
    PickedAreMentioned(order, eligible, p[i]);
    PickedAreMentioned(order, eligible, p[j]);
    if j < |picked| {
      assert p[i] in picked && p[j] in picked;
      PickedFollows(order, m, i, j);
    } else {
      assert p[j] == rest[j - |picked|];
      RestMembers(eligible, seen, p[j]);
      if i < |picked| {
        assert p[i] in picked;
      } else {
        assert p[i] == rest[i - |picked|];
        RestMembers(eligible, seen, p[i]);
        RemainderKeepsOrder(eligible, seen, i - |picked|, j - |picked|);
      }
    }
  }

  lemma CeilingIff(enhanced: seq<ContextItem>, eligible: seq<ContextItem>)
    requires DistinctIds(eligible) && Sorted(SelectionLe, eligible) && multiset(enhanced) == multiset(eligible)
    ensures ViolatesCeiling(enhanced, eligible) <==> !ByAuthority(enhanced)
  {
    forall i, j | 0 <= i < j < |enhanced| && enhanced[i].authority.Rank() > enhanced[j].authority.Rank()
      ensures Ahead(eligible, enhanced[j].id, enhanced[i].id)
    {
      SameElements(eligible, enhanced, enhanced[i]);
      SameElements(eligible, enhanced, enhanced[j]);
      var p :| 0 <= p < |eligible| && eligible[p] == enhanced[i];
      var q :| 0 <= q < |eligible| && eligible[q] == enhanced[j];
      assert p < q ==> SelectionLe(eligible[p], eligible[q]);
      assert IsPosition(eligible, enhanced[j].id, q) && IsPosition(eligible, enhanced[i].id, p);
    }
  }

  /** A reorder is taken exactly when it names eligible items only and its whole list is still sorted by
      authority; then the list is the proposal. Otherwise the list is the baseline. */
  lemma ReorderIsTakenIff(order: seq<string>, eligible: seq<ContextItem>)
    requires DistinctIds(eligible) && Sorted(SelectionLe, eligible)
    ensures var (items, fellBack) := Applied(Reordered(order), eligible);
            && (!fellBack <==>
                  && (forall id | id in order :: id in Ids(eligible))
                  && ByAuthority(Proposal(order, eligible)))
            && items == if fellBack then eligible else Proposal(order, eligible)
  {
    hide Proposal, ViolatesCeiling, ByAuthority, Ids;
    ProposalIsPermutation(order, eligible);
    CeilingIff(Proposal(order, eligible), eligible);
  }

  /** On a whole build: it falls back exactly when there is an enhancer and it declines, names an unknown
      id, or proposes a list not sorted by authority. */
  lemma BuildFallsBackIff(q: Request, candidates: seq<ContextItem>)
    ensures var a := Assemble(q, candidates);
            a.fellBack <==>
            && q.enhancer.Some?
            && match q.enhancer.value(a.eligible)
               case Fallback => true
               case Reordered(order) =>
                 (exists id | id in order :: id !in Ids(a.eligible)) || !ByAuthority(Proposal(order, a.eligible))
  {
    hide Sort, MarkAll, Eligible, Admit, Applied, Proposal, ByAuthority, Ids, Coalesce, Fingerprints, MissingTrace;
    var eligible := Assemble(q, candidates).eligible;
    EligibleIsSound(Sort(PreSemanticLe, MarkAll(q.pins, q.required, candidates)));
    if q.enhancer.Some? {
      var outcome := q.enhancer.value(eligible);
      if outcome.Reordered? {
        ReorderIsTakenIff(outcome.order, eligible);
      } else {
        DeclinedFallsBack(eligible);
      }
    }
  }

  lemma DeclinedFallsBack(eligible: seq<ContextItem>)
    ensures Applied(Fallback, eligible) == (eligible, true)
  {
  }
}

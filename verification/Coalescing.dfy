/** Coalescing of byte-identical candidates: one representative per compatible group, secrets
    kept apart from public copies, incompatible copies all kept and surfaced as conflicts. */
module Coalescing {
  import opened Ordering
  import opened ContextItems

  datatype InclusionReason = MandatoryAuthority | PinnedForTask | RelevantSource

  datatype TraceEntry =
    | RequiredContextMissing(path: string)
    | SemanticRejectedReintroduce
    | SemanticFellBack
    | ConflictSurfaced(id: string)
    | CouldNotBuild
    | Included(id: string, reason: InclusionReason, redacted: bool)
    | DuplicateCoalesced(id: string, redacted: bool)
    | CoalesceBlocked(id: string)
    | BudgetExcluded(id: string, redacted: bool)
    | BudgetChunked(id: string, redacted: bool)

  /** Empty git-state placeholders take no part. */
  predicate TakesPart(i: ContextItem) {
    !(i.sourceClass.GitState? && i.payload == [])
  }

  function Group(s: seq<ContextItem>, fingerprint: string): seq<ContextItem> {
    if s == [] then []
    else
      var rest := Group(s[..|s| - 1], fingerprint);
      if TakesPart(s[|s| - 1]) && s[|s| - 1].fingerprint == fingerprint then rest + [s[|s| - 1]] else rest
  }

  function SecretOf(s: seq<ContextItem>): seq<ContextItem> {
    if s == [] then []
    else if s[|s| - 1].sensitivity.SecretLike() then SecretOf(s[..|s| - 1]) + [s[|s| - 1]]
    else SecretOf(s[..|s| - 1])
  }

  function PublicOf(s: seq<ContextItem>): seq<ContextItem> {
    if s == [] then []
    else if s[|s| - 1].sensitivity.SecretLike() then PublicOf(s[..|s| - 1])
    else PublicOf(s[..|s| - 1]) + [s[|s| - 1]]
  }

  /** The first item of highest authority. */
  function HighestAuthority(s: seq<ContextItem>): ContextItem
    requires s != []
  {
    if |s| == 1 then s[0]
    else
      var best := HighestAuthority(s[..|s| - 1]);
      if s[|s| - 1].authority.Rank() < best.authority.Rank() then s[|s| - 1] else best
  }

  /** The first item with the least id. */
  function LeastId(s: seq<ContextItem>): ContextItem
    requires s != []
  {
    if |s| == 1 then s[0]
    else
      var best := LeastId(s[..|s| - 1]);
      if TextLe(best.id, s[|s| - 1].id) then best else s[|s| - 1]
  }

  predicate Compatible(a: ContextItem, b: ContextItem) {
    && a.authority == b.authority && a.sensitivity == b.sensitivity
    && a.provenance.repository == b.provenance.repository && a.provenance.worktree == b.provenance.worktree
  }

  predicate AllCompatible(s: seq<ContextItem>) {
    forall i | 0 <= i < |s| - 1 :: Compatible(s[i], s[i + 1])
  }

  predicate Mixed(group: seq<ContextItem>) {
    PublicOf(group) != [] && SecretOf(group) != []
  }

  /** What a group of identical bytes contributes, in the order it is pushed. */
  function Representatives(group: seq<ContextItem>): seq<ContextItem>
    requires group != []
  {
    if |group| == 1 then group
    else if Mixed(group) then [HighestAuthority(PublicOf(group))] + SecretOf(group)
    else if AllCompatible(group) then [LeastId(group)]
    else group
  }

  /** Trace entries for the members other than `winner`. */
  function Dropped(s: seq<ContextItem>, winner: ContextItem): seq<TraceEntry> {
    if s == [] then []
    else
      Dropped(s[..|s| - 1], winner) +
      if s[|s| - 1].id == winner.id then []
      else [DuplicateCoalesced(s[|s| - 1].id, s[|s| - 1].sensitivity.SecretLike())]
  }

  function Blocked(s: seq<ContextItem>): seq<TraceEntry> {
    if s == [] then [] else Blocked(s[..|s| - 1]) + [CoalesceBlocked(s[|s| - 1].id)]
  }

  function GroupTrace(group: seq<ContextItem>): seq<TraceEntry>
    requires group != []
  {
    if |group| == 1 then []
    else if Mixed(group) then Blocked(SecretOf(group)) + Dropped(PublicOf(group), HighestAuthority(PublicOf(group)))
    else if AllCompatible(group) then Dropped(group, LeastId(group))
    else []
  }

  function GroupConflicts(group: seq<ContextItem>): seq<string>
    requires group != []
  {
    if |group| == 1 || Mixed(group) || AllCompatible(group) then []
    else seq(|group|, i requires 0 <= i < |group| => group[i].id)
  }

  // ---------- the whole pass ----------

  /** The fingerprints present, in the order of the fingerprint map. */
  function Fingerprints(s: seq<ContextItem>): seq<string> {
    if s == [] then []
    else
      var rest := Fingerprints(s[..|s| - 1]);
      var x := s[|s| - 1];
      if TakesPart(x) && x.fingerprint !in rest then Insert(TextLe, rest, x.fingerprint) else rest
  }

  function Ids(s: seq<ContextItem>): set<string> {
    set i | 0 <= i < |s| :: s[i].id
  }

  /** Append the items of `more` whose id has not been used yet. */
  function Consume(selected: seq<ContextItem>, more: seq<ContextItem>): seq<ContextItem> {
    if more == [] then selected
    else
      var s := Consume(selected, more[..|more| - 1]);
      if more[|more| - 1].id in Ids(s) then s else s + [more[|more| - 1]]
  }

  datatype Pass = Pass(selected: seq<ContextItem>, conflicts: seq<string>, trace: seq<TraceEntry>)

  function Coalesce(s: seq<ContextItem>, fingerprints: seq<string>): Pass {
    if fingerprints == [] then Pass([], [], [])
    else
      var p := Coalesce(s, fingerprints[..|fingerprints| - 1]);
      var group := Group(s, fingerprints[|fingerprints| - 1]);
      if group == [] then p
      else Pass(Consume(p.selected, Representatives(group)), p.conflicts + GroupConflicts(group),
                p.trace + GroupTrace(group))
  }

  /** The eligible list handed to admission, in selection order. */
  function Eligible(s: seq<ContextItem>): seq<ContextItem> {
    Sort(SelectionLe, Coalesce(s, Fingerprints(s)).selected)
  }

  // ---------- membership ----------

  lemma {:induction false} GroupMembers(s: seq<ContextItem>, fp: string, x: ContextItem)
    ensures x in Group(s, fp) <==> x in s && TakesPart(x) && x.fingerprint == fp
  {
    if s != [] {
      GroupMembers(s[..|s| - 1], fp, x);
      assert s == s[..|s| - 1] + [s[|s| - 1]];
    }
  }

  lemma {:induction false} SideMembers(s: seq<ContextItem>, x: ContextItem)
    ensures x in SecretOf(s) <==> x in s && x.sensitivity.SecretLike()
    ensures x in PublicOf(s) <==> x in s && !x.sensitivity.SecretLike()
  {
    if s != [] {
      SideMembers(s[..|s| - 1], x);
      assert s == s[..|s| - 1] + [s[|s| - 1]];
    }
  }

  lemma {:induction false} HighestAuthorityIsBest(s: seq<ContextItem>)
    requires s != []
    ensures HighestAuthority(s) in s
    ensures forall x | x in s :: HighestAuthority(s).authority.Rank() <= x.authority.Rank()
  {
    if |s| > 1 {
      HighestAuthorityIsBest(s[..|s| - 1]);
      assert s == s[..|s| - 1] + [s[|s| - 1]];
    }
  }

  lemma {:induction false} LeastIdIsMember(s: seq<ContextItem>)
    requires s != []
    ensures LeastId(s) in s
    ensures forall x | x in s :: TextLe(LeastId(s).id, x.id)
  {
    if |s| == 1 {
      TextTotal(s[0].id, s[0].id);
    } else {
      var front, last := s[..|s| - 1], s[|s| - 1];
      LeastIdIsMember(front);
      assert s == front + [last];
      TextTotal(LeastId(front).id, last.id);
      TextTotal(last.id, last.id);
      forall x | x in s ensures TextLe(LeastId(s).id, x.id) {
        if x in front && LeastId(s) == last {
          TextTransitive(last.id, LeastId(front).id, x.id);
        }
      }
    }
  }

  lemma {:induction false} CompatibleGroupAgrees(s: seq<ContextItem>, i: nat, j: nat)
    requires AllCompatible(s) && i <= j < |s|
    ensures Compatible(s[i], s[j])
  {
    if i < j {
      CompatibleGroupAgrees(s, i, j - 1);
      assert Compatible(s[j - 1], s[j - 1 + 1]);
    }
  }

  /** `r` stands for `x`: same bytes, at least its authority, same side of the secret threshold. */
  predicate StandsFor(r: ContextItem, x: ContextItem) {
    && r.fingerprint == x.fingerprint
    && r.authority.Rank() <= x.authority.Rank()
    && r.sensitivity.SecretLike() == x.sensitivity.SecretLike()
  }

  lemma RepresentativesAreMembers(group: seq<ContextItem>, r: ContextItem)
    requires group != [] && r in Representatives(group)
    ensures r in group
  {
    if |group| > 1 {
      if Mixed(group) {
        HighestAuthorityIsBest(PublicOf(group));
        SideMembers(group, r);
      } else if AllCompatible(group) {
        LeastIdIsMember(group);
      }
    }
  }

  /** Every member of a group has a representative standing for it. */
  lemma GroupIsRepresented(group: seq<ContextItem>, x: ContextItem) returns (r: ContextItem)
    requires x in group && forall y | y in group :: y.fingerprint == x.fingerprint
    ensures r in Representatives(group) && StandsFor(r, x)
  {
    r := x;
    if |group| > 1 {
      if Mixed(group) {
        SideMembers(group, x);
        if !x.sensitivity.SecretLike() {
          r := HighestAuthority(PublicOf(group));
          HighestAuthorityIsBest(PublicOf(group));
          SideMembers(group, r);
          assert r in Representatives(group);
        } else {
          assert x in SecretOf(group);
        }
      } else if AllCompatible(group) {
        r := LeastId(group);
        LeastIdIsMember(group);
        var i :| 0 <= i < |group| && group[i] == x;
        var j :| 0 <= j < |group| && group[j] == r;
        if i <= j {
          CompatibleGroupAgrees(group, i, j);
        } else {
          CompatibleGroupAgrees(group, j, i);
        }
      }
    }
  }

  // ---------- what the pass guarantees ----------

  lemma {:induction false} ConsumeMembers(selected: seq<ContextItem>, more: seq<ContextItem>)
    requires DistinctIds(selected)
    ensures DistinctIds(Consume(selected, more))
    ensures forall x | x in Consume(selected, more) :: x in selected || x in more
    ensures forall x | x in selected :: x in Consume(selected, more)
    ensures forall x | x in more :: x.id in Ids(Consume(selected, more))
  {
    if more != [] {
      var less, x := more[..|more| - 1], more[|more| - 1];
      ConsumeMembers(selected, less);
      var s := Consume(selected, less);
      assert more == less + [x];
      if x.id !in Ids(s) {
        var t := s + [x];
        assert forall i | 0 <= i < |s| :: t[i] == s[i] && s[i].id in Ids(s);
        assert t[|s|] == x;
        forall y | y in more ensures y.id in Ids(t) {
          if y in less {
            assert y.id in Ids(s);
            var i :| 0 <= i < |s| && s[i].id == y.id;
            assert t[i].id == y.id;
          }
        }
      }
    }
  }

  /** Ids stay unique whatever the candidates, and only candidates that take part are selected. */
  lemma {:induction false} CoalesceSelects(s: seq<ContextItem>, fps: seq<string>)
    ensures DistinctIds(Coalesce(s, fps).selected)
    ensures forall x | x in Coalesce(s, fps).selected :: x in s && TakesPart(x)
  {
    if fps != [] {
      var less, fp := fps[..|fps| - 1], fps[|fps| - 1];
      CoalesceSelects(s, less);
      var group := Group(s, fp);
      if group != [] {
        ConsumeMembers(Coalesce(s, less).selected, Representatives(group));
        forall x | x in Representatives(group) ensures x in s && TakesPart(x) {
          RepresentativesAreMembers(group, x);
          GroupMembers(s, fp, x);
        }
      }
    }
  }

  lemma IdDetermines(s: seq<ContextItem>, x: ContextItem, y: ContextItem)
    requires DistinctIds(s) && x in s && y in s && x.id == y.id
    ensures x == y
  {
  }

  /** With distinct ids every representative of a visited group is selected. */
  lemma {:induction false} RepresentativesAreSelected(s: seq<ContextItem>, fps: seq<string>, k: nat, r: ContextItem)
    requires DistinctIds(s) && k < |fps| && Group(s, fps[k]) != [] && r in Representatives(Group(s, fps[k]))
    ensures r in Coalesce(s, fps).selected
    decreases |fps|
  {
    var less, fp := fps[..|fps| - 1], fps[|fps| - 1];
    var p := Coalesce(s, less);
    CoalesceSelects(s, less);
    CoalesceSelects(s, fps);
    var group := Group(s, fp);
    if group != [] {
      ConsumeMembers(p.selected, Representatives(group));
    }
    if k < |fps| - 1 {
      RepresentativesAreSelected(s, less, k, r);
    } else {
      var t := Consume(p.selected, Representatives(group));
      assert r.id in Ids(t);
      var i :| 0 <= i < |t| && t[i].id == r.id;
      RepresentativesAreMembers(group, r);
      GroupMembers(s, fp, r);
      assert t[i] in Coalesce(s, fps).selected;
      IdDetermines(s, t[i], r);
    }
  }

  lemma {:induction false} InsertMembers(s: seq<string>, x: string, y: string)
    ensures y in Insert(TextLe, s, x) <==> y in s || y == x
  {
    InsertKeepsElements(TextLe, s, x);
    assert y in Insert(TextLe, s, x) <==> y in multiset(Insert(TextLe, s, x));
    assert y in s <==> y in multiset(s);
  }

  lemma {:induction false} FingerprintsCover(s: seq<ContextItem>, x: ContextItem)
    requires x in s && TakesPart(x)
    ensures x.fingerprint in Fingerprints(s)
  {
    var front, last := s[..|s| - 1], s[|s| - 1];
    assert s == front + [last];
    InsertMembers(Fingerprints(front), last.fingerprint, x.fingerprint);
    if x in front {
      FingerprintsCover(front, x);
    }
  }

  lemma {:induction false} DroppedMembers(s: seq<ContextItem>, winner: ContextItem, x: ContextItem)
    requires x in s && x.id != winner.id
    ensures DuplicateCoalesced(x.id, x.sensitivity.SecretLike()) in Dropped(s, winner)
  {
    var front, last := s[..|s| - 1], s[|s| - 1];
    assert s == front + [last];
    if x in front {
      DroppedMembers(front, winner, x);
    }
  }

  lemma GroupTraceCovers(s: seq<ContextItem>, group: seq<ContextItem>, x: ContextItem)
    requires DistinctIds(s) && x in group && x !in Representatives(group) && forall y | y in group :: y in s
    ensures DuplicateCoalesced(x.id, x.sensitivity.SecretLike()) in GroupTrace(group)
  {
    var e := DuplicateCoalesced(x.id, x.sensitivity.SecretLike());
    if Mixed(group) {
      SideMembers(group, x);
      var w := HighestAuthority(PublicOf(group));
      HighestAuthorityIsBest(PublicOf(group));
      SideMembers(group, w);
      if x.id == w.id {
        IdDetermines(s, x, w);
      }
      DroppedMembers(PublicOf(group), w, x);
      assert e in Dropped(PublicOf(group), w);
    } else {
      var w := LeastId(group);
      LeastIdIsMember(group);
      if x.id == w.id {
        IdDetermines(s, x, w);
      }
      DroppedMembers(group, w, x);
    }
  }

  lemma {:induction false} TraceKeepsGroups(s: seq<ContextItem>, fps: seq<string>, k: nat, e: TraceEntry)
    requires k < |fps| && Group(s, fps[k]) != [] && e in GroupTrace(Group(s, fps[k]))
    ensures e in Coalesce(s, fps).trace
    decreases |fps|
  {
    hide GroupTrace, GroupConflicts, Consume, Representatives;
    if k < |fps| - 1 {
      TraceKeepsGroups(s, fps[..|fps| - 1], k, e);
    }
  }

  /** Coverage: with distinct ids, every candidate that takes part is represented in the eligible
      list by an item with the same bytes, at least its authority and on its side of the secret
      threshold; if it is not itself selected, the trace says it was coalesced. */
  lemma CoalescingCovers(s: seq<ContextItem>, x: ContextItem) returns (r: ContextItem)
    requires DistinctIds(s) && x in s && TakesPart(x)
    ensures r in Eligible(s) && StandsFor(r, x)
    ensures || x in Eligible(s)
            || DuplicateCoalesced(x.id, x.sensitivity.SecretLike()) in Coalesce(s, Fingerprints(s)).trace
  {
    var fps := Fingerprints(s);
    var selected := Coalesce(s, fps).selected;
    FingerprintsCover(s, x);
    var k :| 0 <= k < |fps| && fps[k] == x.fingerprint;
    var group := Group(s, fps[k]);
    forall y ensures y in group <==> y in s && TakesPart(y) && y.fingerprint == fps[k] {
      GroupMembers(s, fps[k], y);
    }
    r := GroupIsRepresented(group, x);
    RepresentativesAreSelected(s, fps, k, r);
    SortIsPermutation(SelectionLe, selected);
    SameElements(selected, Eligible(s), r);
    SameElements(selected, Eligible(s), x);
    if x in Representatives(group) {
      RepresentativesAreSelected(s, fps, k, x);
    } else {
      GroupTraceCovers(s, group, x);
      TraceKeepsGroups(s, fps, k, DuplicateCoalesced(x.id, x.sensitivity.SecretLike()));
    }
  }

  /** Whatever the candidates: the eligible list has unique ids, holds only candidates that take
      part, and is in selection order. */
  lemma EligibleIsSound(s: seq<ContextItem>)
    ensures DistinctIds(Eligible(s)) && Sorted(SelectionLe, Eligible(s))
    ensures forall x | x in Eligible(s) :: x in s && TakesPart(x)
  {
    var selected := Coalesce(s, Fingerprints(s)).selected;
    CoalesceSelects(s, Fingerprints(s));
    OrdersAreTotal();
    SortIsPermutation(SelectionLe, selected);
    SortIsSorted(SelectionLe, selected);
    DistinctIdsPermuted(selected, Eligible(s));
    forall x | x in Eligible(s) ensures x in s && TakesPart(x) {
      SameElements(selected, Eligible(s), x);
    }
  }

  // ---------- the loops ----------

  /** What the map holds under one fingerprint. */
  function EntriesFor(byFp: map<string, seq<ContextItem>>, k: string): seq<ContextItem> {
    if k in byFp then byFp[k] else []
  }

  ghost predicate Grouped(byFp: map<string, seq<ContextItem>>, keys: seq<string>, s: seq<ContextItem>) {
    && (forall k :: k in byFp <==> k in keys)
    && (forall k :: EntriesFor(byFp, k) == Group(s, k))
  }

  lemma GroupStep(s: seq<ContextItem>, i: nat, k: string)
    requires i < |s|
    ensures Group(s[..i + 1], k) ==
            if TakesPart(s[i]) && s[i].fingerprint == k then Group(s[..i], k) + [s[i]] else Group(s[..i], k)
  {
    assert s[..i + 1][..i] == s[..i];
  }

  lemma FingerprintsStep(s: seq<ContextItem>, i: nat)
    requires i < |s|
    ensures Fingerprints(s[..i + 1]) ==
            if TakesPart(s[i]) && s[i].fingerprint !in Fingerprints(s[..i])
            then Insert(TextLe, Fingerprints(s[..i]), s[i].fingerprint) else Fingerprints(s[..i])
  {
    hide Insert;
    assert s[..i + 1][..i] == s[..i];
  }

  /** File one candidate under its fingerprint. */
  function Filed(byFp: map<string, seq<ContextItem>>, c: ContextItem): map<string, seq<ContextItem>> {
    if TakesPart(c) then byFp[c.fingerprint := EntriesFor(byFp, c.fingerprint) + [c]] else byFp
  }

  lemma GroupedStep(byFp: map<string, seq<ContextItem>>, keys: seq<string>, s: seq<ContextItem>, i: nat)
    requires i < |s| && keys == Fingerprints(s[..i]) && Grouped(byFp, keys, s[..i])
    ensures Grouped(Filed(byFp, s[i]), Fingerprints(s[..i + 1]), s[..i + 1])
  {
    FingerprintsStep(s, i);
    var byFp', keys' := Filed(byFp, s[i]), Fingerprints(s[..i + 1]);
    forall k ensures (k in byFp' <==> k in keys') && EntriesFor(byFp', k) == Group(s[..i + 1], k) {
      hide Group, Fingerprints, Insert, TakesPart;
      GroupStep(s, i, k);
      InsertMembers(keys, s[i].fingerprint, k);
      assert k in byFp <==> k in keys;
      assert EntriesFor(byFp, k) == Group(s[..i], k);
      assert s[i].fingerprint in byFp <==> s[i].fingerprint in keys;
    }
  }

  /** Group the candidates by fingerprint, keys in order. */
  method GroupByFingerprint(candidates: seq<ContextItem>)
    returns (byFp: map<string, seq<ContextItem>>, keys: seq<string>)
    ensures keys == Fingerprints(candidates)
    ensures forall k | k in keys :: k in byFp && byFp[k] == Group(candidates, k)
  {
    byFp, keys := map[], [];
    for i := 0 to |candidates|
      invariant keys == Fingerprints(candidates[..i]) && Grouped(byFp, keys, candidates[..i])
    {
      hide TakesPart, Group, Fingerprints, Insert;
      var c := candidates[i];
      FingerprintsStep(candidates, i);
      GroupedStep(byFp, keys, candidates, i);
      assert c.fingerprint in byFp <==> c.fingerprint in keys;
      hide Grouped;
      if TakesPart(c) {
        if c.fingerprint !in byFp {
          keys := Insert(TextLe, keys, c.fingerprint);
          byFp := byFp[c.fingerprint := [] + [c]];
        } else {
          byFp := byFp[c.fingerprint := byFp[c.fingerprint] + [c]];
        }
      }
    }
    assert candidates[..|candidates|] == candidates;
  }

  /** Push the representatives whose id is still unused. */
  method Select(selected: seq<ContextItem>, chosen: seq<ContextItem>) returns (r: seq<ContextItem>)
    ensures r == Consume(selected, chosen)
  {
    r := selected;
    for j := 0 to |chosen|
      invariant r == Consume(selected, chosen[..j])
    {
      assert chosen[..j + 1][..j] == chosen[..j];
      if chosen[j].id !in Ids(r) {
        r := r + [chosen[j]];
      }
    }
    assert chosen[..|chosen|] == chosen;
  }

  /** The pass as the engine runs it: group by fingerprint, then visit the groups in key order. */
  method CoalesceCompatible(candidates: seq<ContextItem>)
    returns (eligible: seq<ContextItem>, conflicts: seq<string>, trace: seq<TraceEntry>)
    ensures eligible == Eligible(candidates)
    ensures conflicts == Coalesce(candidates, Fingerprints(candidates)).conflicts
    ensures trace == Coalesce(candidates, Fingerprints(candidates)).trace
  {
    hide Consume, Representatives, GroupTrace, GroupConflicts, Group, Fingerprints;
    var byFp, keys := GroupByFingerprint(candidates);
    var selected: seq<ContextItem> := [];
    conflicts, trace := [], [];
    for k := 0 to |keys|
      invariant Pass(selected, conflicts, trace) == Coalesce(candidates, keys[..k])
    {
      var group := byFp[keys[k]];
      assert keys[..k + 1][..k] == keys[..k];
      if group != [] {
        selected := Select(selected, Representatives(group));
        conflicts := conflicts + GroupConflicts(group);
        trace := trace + GroupTrace(group);
      }
    }
    assert keys[..|keys|] == keys;
    eligible := Sort(SelectionLe, selected);
  }
}

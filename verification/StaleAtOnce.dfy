/** Reports whose freshly built bundle is found changed on its first evaluation. */
module StaleAtOnce {
  import opened Basics
  import opened Texts
  import opened Ordering
  import opened ContextItems
  import opened Coalescing
  import opened Admission
  import opened Assembly
  import opened RequiredItems
  import opened Digest
  import opened Bundle
  import opened Freshness

  // ---------- a budget that covers everything selects everything ----------

  lemma {:induction false} EverythingFits(t: Tally, s: seq<ContextItem>, max: nat)
    requires t.used + Cost(s) <= max
    ensures AdmitAll(t, s, max).selected == t.selected + s
    decreases |s|
  {
    if s == [] {
      assert t.selected + s == t.selected;
    } else {
      hide AdmitOne, Cost;
      assert s == [s[0]] + s[1..];
      CostFront(s[0], s[1..]);
      WholeFits(t, s[0], max);
      EverythingFits(AdmitOne(t, s[0], max), s[1..], max);
      Reassociate(t.selected, [s[0]], s[1..]);
    }
  }

  lemma {:induction false} CostAt(s: seq<ContextItem>, k: nat)
    requires k < |s|
    ensures Cost(s) == Cost(s[..k] + s[k + 1..]) + s[k].tokens
  {
    var n := |s| - 1;
    if k == n {
      assert s[..k] + s[k + 1..] == s[..n];
    } else {
      CostAt(s[..n], k);
      assert (s[..k] + s[k + 1..])[..n - 1] == s[..n][..k] + s[..n][k + 1..];
    }
  }

  lemma {:induction false} CostPermuted(s: seq<ContextItem>, t: seq<ContextItem>)
    requires multiset(s) == multiset(t)
    ensures Cost(s) == Cost(t)
    decreases |s|
  {
    SameLength(s, t);
    if s != [] {
      var x := s[|s| - 1];
      SameElements(s, t, x);
      var k :| 0 <= k < |t| && t[k] == x;
      MultisetLast(s);
      RemoveAt(t, k);
      var t' := t[..k] + t[k + 1..];
      assert multiset(s[..|s| - 1]) == multiset(s) - multiset{x} == multiset(t');
      CostPermuted(s[..|s| - 1], t');
      CostAt(t, k);
    }
  }

  lemma {:induction false} CostOfParts(s: seq<ContextItem>)
    ensures Cost(Only(s, true)) + Cost(Only(s, false)) == Cost(s)
  {
    if s != [] {
      var x := s[|s| - 1];
      CostOfParts(s[..|s| - 1]);
      CostAppend(Only(s[..|s| - 1], x.mandatory), x);
    }
  }

  lemma CoveredIsSelected(items: seq<ContextItem>, max: nat, x: ContextItem)
    requires Cost(items) <= max && x in items
    ensures x in Admit(items, max).selected
  {
    hide AdmitAll, Only, Sort, Cost;
    var m, o := Mandatory(items), Optional(items);
    CostOfParts(items);
    SortIsPermutation(SelectionLe, Only(items, true));
    SortIsPermutation(SelectionLe, Only(items, false));
    CostPermuted(Only(items, true), m);
    CostPermuted(Only(items, false), o);
    EverythingFits(Tally(m, Cost(m), []), o, max);
    PartsMembers(items, x);
  }

  lemma {:induction false} CostWithin(s: seq<ContextItem>, t: seq<ContextItem>)
    requires DistinctIds(s) && forall x | x in s :: x in t
    ensures Cost(s) <= Cost(t)
    decreases |s|
  {
    if s != [] {
      var n := |s| - 1;
      var x := s[n];
      assert x in s;
      var k :| 0 <= k < |t| && t[k] == x;
      var t' := t[..k] + t[k + 1..];
      assert t == t[..k] + [t[k]] + t[k + 1..];
      forall y | y in s[..n] ensures y in t' {
        var i :| 0 <= i < n && s[i] == y;
        assert y.id != x.id && y in s;
        var m :| 0 <= m < |t| && t[m] == y;
        assert t'[if m < k then m else m - 1] == y;
      }
      CostWithin(s[..n], t');
      CostAt(t, k);
    }
  }

  lemma {:induction false} MarkAllCost(pins: set<string>, required: seq<string>, s: seq<ContextItem>)
    ensures Cost(MarkAll(pins, required, s)) == Cost(s)
  {
    if s != [] {
      MarkAllCost(pins, required, s[..|s| - 1]);
      CostAppend(MarkAll(pins, required, s[..|s| - 1]), Marked(pins, required, s[|s| - 1]));
    }
  }

  /** A marked candidate that is elected is selected whole by every budget that covers all candidates. */
  lemma ElectedIsSelected(q: Request, candidates: seq<ContextItem>, x: ContextItem)
    requires DistinctIds(candidates) && x in MarkAll(q.pins, q.required, candidates)
    requires Elected(MarkAll(q.pins, q.required, candidates), x) && Cost(candidates) <= q.maxTokens
    ensures x in Assemble(q, candidates).selected
  {
    hide Sort, MarkAll, Eligible, Admit, Enhanced, Elected, Cost, DistinctIds;
    var marked, s, items := MarkAll(q.pins, q.required, candidates), Presented(q, candidates), Offered(q, candidates);
    SurvivesIff(q, candidates, x);
    AssembledAt(q, candidates, q.maxTokens);
    assert q.(maxTokens := q.maxTokens) == q;
    SameElements(Eligible(s), items, x);
    PresentedIsMarked(q, candidates);
    EligibleIsSound(s);
    DistinctIdsPermuted(Eligible(s), items);
    forall y | y in items ensures y in marked {
      SameElements(Eligible(s), items, y);
      SameElements(s, marked, y);
    }
    CostWithin(items, marked);
    MarkAllCost(q.pins, q.required, candidates);
    CoveredIsSelected(items, q.maxTokens, x);
  }

  lemma AloneIsElected(s: seq<ContextItem>, x: ContextItem)
    requires TakesPart(x) && forall y | y in s && y.fingerprint == x.fingerprint :: y == x
    ensures Elected(s, x)
  {
    hide TextLe, PreSemanticLe;
    TextTotal(x.id, x.id);
  }

  // ---------- two roots, one path ----------

  lemma DifferentEndsDiffer(p: string, q: string, s: string, t: string)
    requires |s| == |t| && s != t
    ensures p + s != q + t
  {
    if |p + s| == |q + t| {
      assert (p + s)[|p|..] == s && (q + t)[|q|..] == t;
    }
  }

  lemma DifferentDigestsDifferentIds(x: ContextItem, y: ContextItem)
    requires Whole(x) && Whole(y) && x.fingerprint != y.fingerprint
    ensures x.id != y.id
  {
    hide IsHex, Estimated;
    var p, r := x.provenance, y.provenance;
    var front := p.repository + "|" + p.worktree + "|" + p.path + "|";
    var back := r.repository + "|" + r.worktree + "|" + r.path + "|";
    assert x.id == front + x.fingerprint && y.id == back + y.fingerprint;
    DifferentEndsDiffer(front, back, x.fingerprint, y.fingerprint);
  }

  lemma CandidatesOfTwo(a: DiscoveredSource, b: DiscoveredSource, read: ReadSource)
    requires !a.excluded && !b.excluded && read(a).Some? && read(b).Some?
    ensures Candidates([a, b], read) == [Materialize(a, read(a).value), Materialize(b, read(b).value)]
  {
    hide Materialize;
    assert [a, b][..1] == [a] && [a][..0] == [];
    assert Candidates([a], read) == [Materialize(a, read(a).value)];
  }

  /** Two roots hold one relative path with different bytes, both with recorded fingerprints: the
      bundle is found changed at once, under every request whose budget covers both. */
  lemma TwoRootsAreStaleAtOnce(
      a: DiscoveredSource, b: DiscoveredSource, read: ReadSource, q: Request, g: Generations,
      catalogOf: Report -> string)
    requires Digested([a, b]) && ReadsFit(read)
    requires !a.excluded && !b.excluded && read(a).Some? && read(b).Some?
    requires a.provenance.path == b.provenance.path && b.sourceClass != GitState
    requires a.provenance.fingerprint.Some? && b.provenance.fingerprint.Some?
    requires a.provenance.fingerprint != b.provenance.fingerprint
    requires Cost(Candidates([a, b], read)) <= q.maxTokens
    ensures var s := Assemble(q, Candidates([a, b], read));
            Evaluate(FromSelection(g, s.selected, s.status, catalogOf([a, b])), [a, b], g, catalogOf)
            == SelectedContentChanged
  {
    hide Digested, ReadsFit, Assemble, Evaluate, Elected, Whole, Cost, Candidates;
    var report, candidates := [a, b], Candidates([a, b], read);
    var x, y := Materialize(a, read(a).value), Materialize(b, read(b).value);
    CandidatesOfTwo(a, b, read);
    CandidatesAreSound(report, report, read);
    assert Whole(candidates[0]) && Whole(candidates[1]);
    DifferentDigestsDifferentIds(x, y);
    MarkAllPointwise(q.pins, q.required, candidates);
    var marked := MarkAll(q.pins, q.required, candidates);
    var z := Marked(q.pins, q.required, y);
    assert marked[1] == z && z in marked;
    AloneIsElected(marked, z);
    ElectedIsSelected(q, candidates, z);
    assert Shadowed(report, z) by {
      assert FirstAt(report, z.provenance.path, 0);
    }
    FreshBundleIsLeftAloneIff(report, read, q, g, catalogOf);
  }

  // ---------- a source without a fingerprint ----------

  lemma {:induction false} HexStarts(d: seq<Byte>)
    requires d != []
    ensures |Hex(d)| >= 2 && Hex(d)[..2] == HexByte(d[0])
  {
    hide HexByte;
    if |d| == 1 {
      assert d[..0] == [] && Hex(d[..0]) == "";
    } else {
      HexStarts(d[..|d| - 1]);
    }
  }

  lemma EmptyDigestStarts()
    ensures DigestOf([])[0] == 0x25
  {
    hide LowBytes, Lane;
    assert Evens([]) == [];
    EmptyLane();
    LowestByte(SEED_A, 8);
  }

  lemma EmptyLane()
    ensures Lane(SEED_A, []) == SEED_A
  {
  }

  lemma LowestByte(x: nat, n: nat)
    requires n > 0
    ensures LowBytes(x, n)[0] == (x % 256) as Byte
  {
  }

  lemma EmptyDigestIsNotZero()
    ensures Hex(DigestOf([])) != ZERO_FINGERPRINT
  {
    hide Hex, DigestOf;
    EmptyDigestStarts();
    HexStarts(DigestOf([]));
    assert HexByte(0x25)[0] == '2';
    assert ZERO_FINGERPRINT[..2][0] == '0';
  }

  /** A single readable source without a recorded fingerprint, whose bytes do not digest to zeros: the
      build digests the bytes, the evaluation compares with zeros, and the bundle is found changed. */
  lemma UnrecordedIsStaleAtOnce(
      src: DiscoveredSource, read: ReadSource, q: Request, g: Generations, catalogOf: Report -> string)
    requires ReadsFit(read) && !src.excluded && read(src).Some? && src.sourceClass != GitState
    requires src.provenance.fingerprint.None? && Hex(DigestOf(read(src).value.payload)) != ZERO_FINGERPRINT
    requires Cost(Candidates([src], read)) <= q.maxTokens
    ensures var s := Assemble(q, Candidates([src], read));
            Evaluate(FromSelection(g, s.selected, s.status, catalogOf([src])), [src], g, catalogOf)
            == SelectedContentChanged
  {
    hide ReadsFit, Assemble, Evaluate, Elected, Cost, Hex, DigestOf;
    var report, candidates, x := [src], Candidates([src], read), Materialize(src, read(src).value);
    assert [src][..0] == [];
    assert candidates == [x];
    MarkAllPointwise(q.pins, q.required, candidates);
    var marked, z := MarkAll(q.pins, q.required, candidates), Marked(q.pins, q.required, x);
    assert marked == [z];
    AloneIsElected(marked, z);
    ElectedIsSelected(q, candidates, z);
    assert Shadowed(report, z) by {
      assert FirstAt(report, z.provenance.path, 0);
    }
    FreshBundleIsLeftAloneIff(report, read, q, g, catalogOf);
  }

  /** A nested repository is discovered as a directory: no fingerprint, nothing to read. Its bundle is
      found changed at once under every request. */
  lemma NestedRepositoryIsStaleAtOnce(
      src: DiscoveredSource, read: ReadSource, q: Request, g: Generations, catalogOf: Report -> string)
    requires ReadsFit(read) && !src.excluded && src.sourceClass == RepositoryFile && src.provenance.fingerprint.None?
    requires read(src).Some? && read(src).value.payload == []
    ensures var s := Assemble(q, Candidates([src], read));
            Evaluate(FromSelection(g, s.selected, s.status, catalogOf([src])), [src], g, catalogOf)
            == SelectedContentChanged
  {
    hide ReadsFit, Assemble, Evaluate, Hex, DigestOf;
    EmptyDigestIsNotZero();
    assert [src][..0] == [];
    var x := Materialize(src, read(src).value);
    assert Candidates([src], read) == [x] && [x][..0] == [];
    UnrecordedIsStaleAtOnce(src, read, q, g, catalogOf);
  }
}

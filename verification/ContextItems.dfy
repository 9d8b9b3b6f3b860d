/** Context items: provenance-bound contributions of one eligible source. A content
    fingerprint is held as its 32-digit hex text, a path as its text. */
module ContextItems {
  import opened Basics
  import opened Ordering
  import opened Texts

  datatype SourceClass =
    | NormativeInstructionSource
    | RepositoryFile
    | WorktreeFile
    | GitState
    | UserPinnedContext
    | ArtifactRef
    | LspDocumentResult
    | SymbolOrIndexResult
    | TypedExternalSource

  datatype AuthorityClass =
    | SecurityCapability
    | NormativeInstruction
    | RepositoryWorktreeTruth
    | ExactTaskPin
    | DurableMemory
    | RunEvidence
    | LexicalRelevance
    | OptionalSemantic
  {
    /** Lower is higher authority. */
    function Rank(): nat {
      match this
      case SecurityCapability => 1
      case NormativeInstruction => 2
      case RepositoryWorktreeTruth => 3
      case ExactTaskPin => 4
      case DurableMemory => 5
      case RunEvidence => 6
      case LexicalRelevance => 7
      case OptionalSemantic => 8
    }
  }

  datatype SensitivityClass = Public | Internal | Secret | Excluded
  {
    predicate SecretLike() {
      this.Secret? || this.Excluded?
    }
  }

  datatype Provenance = Provenance(
    repository: string,
    worktree: string,
    path: string,
    fingerprint: Option<string>)

  datatype ContentRange = ContentRange(startByte: nat, endByte: nat)

  datatype ContextItem = ContextItem(
    id: string,
    sourceClass: SourceClass,
    authority: AuthorityClass,
    sensitivity: SensitivityClass,
    provenance: Provenance,
    fingerprint: string,
    tokens: nat,
    payload: seq<Byte>,
    range: Option<ContentRange>,
    mandatory: bool)

  function AuthorityFor(source: SourceClass): AuthorityClass {
    match source
    case NormativeInstructionSource => NormativeInstruction
    case RepositoryFile => RepositoryWorktreeTruth
    case WorktreeFile => RepositoryWorktreeTruth
    case GitState => RepositoryWorktreeTruth
    case UserPinnedContext => ExactTaskPin
    case ArtifactRef => RunEvidence
    case _ => LexicalRelevance
  }

  function ItemId(
      repository: string, worktree: string, path: string, fingerprint: string, range: Option<ContentRange>): string
  {
    repository + "|" + worktree + "|" + path + "|" + fingerprint +
    match range
    case None => ""
    case Some(r) => "@" + Decimal(r.startByte) + ":" + Decimal(r.endByte)
  }

  /** Bytes over four, rounded up. */
  function EstimateTokens(bytes: seq<Byte>): nat {
    (|bytes| + 3) / 4
  }

  function WithRange(item: ContextItem, range: ContentRange): ContextItem
    requires range.startByte <= range.endByte
  {
    var sliced :=
      if range.endByte <= |item.payload| then item.payload[range.startByte..range.endByte] else item.payload;
    var p := item.provenance;
    item.(tokens := EstimateTokens(sliced), payload := sliced, range := Some(range),
          id := ItemId(p.repository, p.worktree, p.path, item.fingerprint, Some(range)))
  }

  /** The authorities from highest to lowest, and where each discovered source stands: instructions
      alone above the repository's own files, then user pins, then run artifacts, then everything looked up. */
  lemma AuthorityLadder(c: SourceClass)
    ensures SecurityCapability.Rank() < NormativeInstruction.Rank() < RepositoryWorktreeTruth.Rank()
            < ExactTaskPin.Rank() < DurableMemory.Rank() < RunEvidence.Rank() < LexicalRelevance.Rank()
            < OptionalSemantic.Rank()
    ensures AuthorityFor(c).NormativeInstruction? <==> c.NormativeInstructionSource?
    ensures AuthorityFor(c).RepositoryWorktreeTruth? <==> c in {RepositoryFile, WorktreeFile, GitState}
    ensures AuthorityFor(c).ExactTaskPin? <==> c.UserPinnedContext?
    ensures AuthorityFor(c).RunEvidence? <==> c.ArtifactRef?
    ensures AuthorityFor(c).LexicalRelevance? <==>
            c in {LspDocumentResult, SymbolOrIndexResult, TypedExternalSource}
  {
  }

  /** The least number of four-byte tokens that holds the bytes. */
  lemma EstimateIsLeast(bytes: seq<Byte>, n: nat)
    ensures EstimateTokens(bytes) <= n <==> |bytes| <= 4 * n
  {
  }

  // ---------- orders ----------

  /** Deterministic order before any semantic step: authority, then identity. */
  function PreSemanticKey(i: ContextItem): Key {
    Key(i.authority.Rank(), [i.provenance.repository, i.provenance.worktree, i.provenance.path, i.id])
  }

  /** The order of selection and admission: authority, then id. */
  function SelectionKey(i: ContextItem): Key {
    Key(i.authority.Rank(), [i.id])
  }

  predicate PreSemanticLe(a: ContextItem, b: ContextItem) {
    KeyLe(PreSemanticKey(a), PreSemanticKey(b))
  }

  predicate SelectionLe(a: ContextItem, b: ContextItem) {
    KeyLe(SelectionKey(a), SelectionKey(b))
  }

  /** No two positions hold the same id. */
  ghost predicate DistinctIds(s: seq<ContextItem>) {
    forall i, j | 0 <= i < j < |s| :: s[i].id != s[j].id
  }

  lemma OrdersAreTotal()
    ensures TotalPreorder(PreSemanticLe) && TotalPreorder(SelectionLe)
  {
    ByIsTotalPreorder(PreSemanticKey);
    ByIsTotalPreorder(SelectionKey);
    assert forall a, b :: PreSemanticLe(a, b) == By(PreSemanticKey)(a, b);
    assert forall a, b :: SelectionLe(a, b) == By(SelectionKey)(a, b);
  }

  lemma TiesShareKeys(a: ContextItem, b: ContextItem)
    ensures PreSemanticLe(a, b) && PreSemanticLe(b, a) ==> PreSemanticKey(a) == PreSemanticKey(b) && a.id == b.id
    ensures SelectionLe(a, b) && SelectionLe(b, a) ==> a.authority.Rank() == b.authority.Rank() && a.id == b.id
  {
    if PreSemanticLe(a, b) && PreSemanticLe(b, a) {
      PartsAntisymmetric(PreSemanticKey(a).parts, PreSemanticKey(b).parts);
      assert PreSemanticKey(a).parts[3] == PreSemanticKey(b).parts[3];
    }
    if SelectionLe(a, b) && SelectionLe(b, a) {
      PartsAntisymmetric(SelectionKey(a).parts, SelectionKey(b).parts);
      assert SelectionKey(a).parts[0] == SelectionKey(b).parts[0];
    }
  }

  /** Distinct ids exclude ties in both orders. */
  lemma DistinctIdsHaveNoTies(s: seq<ContextItem>)
    requires DistinctIds(s)
    ensures NoTies(PreSemanticLe, s) && NoTies(SelectionLe, s)
  {
    forall i, j | 0 <= i < |s| && 0 <= j < |s|
      ensures PreSemanticLe(s[i], s[j]) && PreSemanticLe(s[j], s[i]) ==> s[i] == s[j]
      ensures SelectionLe(s[i], s[j]) && SelectionLe(s[j], s[i]) ==> s[i] == s[j]
    {
      TiesShareKeys(s[i], s[j]);
    }
  }

  /** Sorting the selection order forgets the order of any list with distinct ids. */
  lemma SelectionSortForgetsOrder(s: seq<ContextItem>, t: seq<ContextItem>)
    requires multiset(s) == multiset(t) && DistinctIds(s)
    ensures Sort(SelectionLe, s) == Sort(SelectionLe, t)
  {
    OrdersAreTotal();
    DistinctIdsHaveNoTies(s);
    SortForgetsOrder(SelectionLe, s, t);
  }

  lemma {:induction false} DistinctIdsPermuted(s: seq<ContextItem>, t: seq<ContextItem>)
    requires multiset(s) == multiset(t) && DistinctIds(s)
    ensures DistinctIds(t)
  {
    forall i, j | 0 <= i < j < |t|
      ensures t[i].id != t[j].id
    {
      var x, y := t[i], t[j];
      SameElements(s, t, x);
      SameElements(s, t, y);
      var a :| 0 <= a < |s| && s[a] == x;
      var b :| 0 <= b < |s| && s[b] == y;
      if a == b {
        DistinctIsSimple(s, x);
        TwiceCounts(t, i, j);
      }
    }
  }

  lemma {:induction false} DistinctIsSimple(s: seq<ContextItem>, x: ContextItem)
    requires DistinctIds(s)
    ensures multiset(s)[x] <= 1
  {
    if s != [] {
      DistinctIsSimple(s[..|s| - 1], x);
      MultisetLast(s);
      if x == s[|s| - 1] {
        assert x !in s[..|s| - 1] && x !in multiset(s[..|s| - 1]);
      }
    }
  }

  lemma TwiceCounts(t: seq<ContextItem>, i: nat, j: nat)
    requires i < j < |t| && t[i] == t[j]
    ensures multiset(t)[t[i]] >= 2
  {
    var a, b := t[..j], t[j..];
    assert t == a + b;
    assert multiset(t) == multiset(a) + multiset(b);
    assert a[i] in multiset(a) && b[0] in multiset(b);
  }
}

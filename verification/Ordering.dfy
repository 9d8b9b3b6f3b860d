/** Total orders and the stable sort the context engine relies on. */
module Ordering {

  ghost predicate TotalPreorder<T(!new)>(le: (T, T) -> bool) {
    && (forall a, b :: le(a, b) || le(b, a))
    && (forall a, b, c :: le(a, b) && le(b, c) ==> le(a, c))
  }

  predicate Sorted<T>(le: (T, T) -> bool, s: seq<T>) {
    forall i, j | 0 <= i < j < |s| :: le(s[i], s[j])
  }

  /** Insert `x` behind everything that is not greater. */
  function Insert<T>(le: (T, T) -> bool, s: seq<T>, x: T): seq<T> {
    if s == [] then [x]
    else if le(s[|s| - 1], x) then s + [x]
    else Insert(le, s[..|s| - 1], x) + [s[|s| - 1]]
  }

  /** Stable sort: equal elements keep their order. */
  function Sort<T>(le: (T, T) -> bool, s: seq<T>): seq<T> {
    if s == [] then [] else Insert(le, Sort(le, s[..|s| - 1]), s[|s| - 1])
  }

  lemma MultisetLast<T>(s: seq<T>)
    requires s != []
    ensures multiset(s) == multiset(s[..|s| - 1]) + multiset{s[|s| - 1]}
  {
    assert s == s[..|s| - 1] + [s[|s| - 1]];
  }

  lemma {:induction false} InsertKeepsElements<T>(le: (T, T) -> bool, s: seq<T>, x: T)
    ensures multiset(Insert(le, s, x)) == multiset(s) + multiset{x}
  {
    if s != [] {
      assert s == s[..|s| - 1] + [s[|s| - 1]];
      if !le(s[|s| - 1], x) {
        InsertKeepsElements(le, s[..|s| - 1], x);
      }
    }
  }

  lemma {:induction false} InsertKeepsSorted<T(!new)>(le: (T, T) -> bool, s: seq<T>, x: T)
    requires TotalPreorder(le) && Sorted(le, s)
    ensures Sorted(le, Insert(le, s, x))
  {
    if s != [] && !le(s[|s| - 1], x) {
      var front, last := s[..|s| - 1], s[|s| - 1];
      InsertKeepsSorted(le, front, x);
      InsertKeepsElements(le, front, x);
      var t := Insert(le, front, x);
      forall i | 0 <= i < |t|
        ensures le(t[i], last)
      {
        assert t[i] in multiset(t);
        if t[i] != x {
          assert t[i] in multiset(front);
        }
      }
    }
  }

  lemma {:induction false} SortIsPermutation<T>(le: (T, T) -> bool, s: seq<T>)
    ensures multiset(Sort(le, s)) == multiset(s)
  {
    if s != [] {
      SortIsPermutation(le, s[..|s| - 1]);
      hide Insert;
      InsertKeepsElements(le, Sort(le, s[..|s| - 1]), s[|s| - 1]);
      MultisetLast(s);
    }
  }

  lemma {:induction false} SortIsSorted<T(!new)>(le: (T, T) -> bool, s: seq<T>)
    requires TotalPreorder(le)
    ensures Sorted(le, Sort(le, s))
  {
    if s != [] {
      SortIsSorted(le, s[..|s| - 1]);
      InsertKeepsSorted(le, Sort(le, s[..|s| - 1]), s[|s| - 1]);
    }
  }

  /** No two different elements of `s` tie. */
  ghost predicate NoTies<T>(le: (T, T) -> bool, s: seq<T>) {
    forall i, j | 0 <= i < |s| && 0 <= j < |s| :: le(s[i], s[j]) && le(s[j], s[i]) ==> s[i] == s[j]
  }

  lemma SameElements<T>(s: seq<T>, t: seq<T>, x: T)
    requires multiset(s) == multiset(t)
    ensures x in s <==> x in t
  {
    assert x in s <==> x in multiset(s);
    assert x in t <==> x in multiset(t);
  }

  lemma SameLast<T>(le: (T, T) -> bool, s: seq<T>, t: seq<T>)
    requires Sorted(le, s) && Sorted(le, t) && multiset(s) == multiset(t) && NoTies(le, s)
    requires s != [] && t != []
    ensures s[|s| - 1] == t[|t| - 1]
  {
    var x, y := s[|s| - 1], t[|t| - 1];
    SameElements(s, t, y);
    SameElements(s, t, x);
    var i :| 0 <= i < |s| && s[i] == y;
    var j :| 0 <= j < |t| && t[j] == x;
  }

  lemma SameLength<T>(s: seq<T>, t: seq<T>)
    requires multiset(s) == multiset(t)
    ensures |s| == |t|
  {
    assert |s| == |multiset(s)| && |t| == |multiset(t)|;
  }

  lemma FrontsAgree<T>(s: seq<T>, t: seq<T>)
    requires multiset(s) == multiset(t) && s != [] && t != [] && s[|s| - 1] == t[|t| - 1]
    ensures multiset(s[..|s| - 1]) == multiset(t[..|t| - 1])
  {
    MultisetLast(s);
    MultisetLast(t);
    var x := multiset{s[|s| - 1]};
    assert multiset(s[..|s| - 1]) == multiset(s) - x;
    assert multiset(t[..|t| - 1]) == multiset(t) - x;
  }

  /** Without ties, elements determine the sorted sequence. */
  lemma {:induction false} SortedIsUnique<T>(le: (T, T) -> bool, s: seq<T>, t: seq<T>)
    requires Sorted(le, s) && Sorted(le, t) && multiset(s) == multiset(t) && NoTies(le, s)
    ensures s == t
  {
    SameLength(s, t);
    if s != [] {
      SameLast(le, s, t);
      FrontsAgree(s, t);
      SortedIsUnique(le, s[..|s| - 1], t[..|t| - 1]);
      assert s == s[..|s| - 1] + [s[|s| - 1]] && t == t[..|t| - 1] + [t[|t| - 1]];
    }
  }

  lemma NoTiesPermuted<T>(le: (T, T) -> bool, s: seq<T>, t: seq<T>)
    requires multiset(s) == multiset(t) && NoTies(le, s)
    ensures NoTies(le, t)
  {
    forall i, j | 0 <= i < |t| && 0 <= j < |t| && le(t[i], t[j]) && le(t[j], t[i])
      ensures t[i] == t[j]
    {
      SameElements(s, t, t[i]);
      SameElements(s, t, t[j]);
      var a :| 0 <= a < |s| && s[a] == t[i];
      var b :| 0 <= b < |s| && s[b] == t[j];
    }
  }

  /** Sorting forgets the input order of elements that do not tie. */
  lemma SortForgetsOrder<T(!new)>(le: (T, T) -> bool, s: seq<T>, t: seq<T>)
    requires TotalPreorder(le) && multiset(s) == multiset(t) && NoTies(le, s)
    ensures Sort(le, s) == Sort(le, t)
  {
    SortIsPermutation(le, s);
    SortIsPermutation(le, t);
    SortIsSorted(le, s);
    SortIsSorted(le, t);
    NoTiesPermuted(le, s, Sort(le, s));
    SortedIsUnique(le, Sort(le, s), Sort(le, t));
  }

  // ---------- text ----------

  /** Lexicographic order of texts by code point. */
  predicate TextLe(a: string, b: string) {
    a == "" || (b != "" && (a[0] < b[0] || (a[0] == b[0] && TextLe(a[1..], b[1..]))))
  }

  lemma {:induction false} TextTotal(a: string, b: string)
    ensures TextLe(a, b) || TextLe(b, a)
  {
    if a != "" && b != "" && a[0] == b[0] {
      TextTotal(a[1..], b[1..]);
    }
  }

  lemma {:induction false} TextTransitive(a: string, b: string, c: string)
    requires TextLe(a, b) && TextLe(b, c)
    ensures TextLe(a, c)
  {
    if a != "" && a[0] == b[0] == c[0] {
      TextTransitive(a[1..], b[1..], c[1..]);
    }
  }

  lemma {:induction false} TextAntisymmetric(a: string, b: string)
    requires TextLe(a, b) && TextLe(b, a)
    ensures a == b
  {
    if a != "" && b != "" {
      TextAntisymmetric(a[1..], b[1..]);
      assert a == [a[0]] + a[1..] && b == [b[0]] + b[1..];
    }
  }

  // ---------- ranked keys ----------

  /** A sort key: a rank, then texts compared one after the other. */
  datatype Key = Key(rank: nat, parts: seq<string>)

  predicate PartsLe(a: seq<string>, b: seq<string>) {
    a == [] || (b != [] && (if a[0] == b[0] then PartsLe(a[1..], b[1..]) else TextLe(a[0], b[0])))
  }

  predicate KeyLe(a: Key, b: Key) {
    a.rank < b.rank || (a.rank == b.rank && PartsLe(a.parts, b.parts))
  }

  lemma {:induction false} PartsTotal(a: seq<string>, b: seq<string>)
    ensures PartsLe(a, b) || PartsLe(b, a)
  {
    if a != [] && b != [] {
      if a[0] == b[0] {
        PartsTotal(a[1..], b[1..]);
      } else {
        TextTotal(a[0], b[0]);
      }
    }
  }

  lemma {:induction false} PartsTransitive(a: seq<string>, b: seq<string>, c: seq<string>)
    requires PartsLe(a, b) && PartsLe(b, c)
    ensures PartsLe(a, c)
  {
    if a != [] {
      if a[0] == b[0] == c[0] {
        PartsTransitive(a[1..], b[1..], c[1..]);
      } else if a[0] != b[0] && b[0] != c[0] {
        TextTransitive(a[0], b[0], c[0]);
        if a[0] == c[0] {
          TextAntisymmetric(a[0], b[0]);
        }
      }
    }
  }

  lemma {:induction false} PartsAntisymmetric(a: seq<string>, b: seq<string>)
    requires PartsLe(a, b) && PartsLe(b, a)
    ensures a == b
  {
    if a != [] && b != [] {
      if a[0] == b[0] {
        PartsAntisymmetric(a[1..], b[1..]);
        assert a == [a[0]] + a[1..] && b == [b[0]] + b[1..];
      } else {
        TextAntisymmetric(a[0], b[0]);
      }
    }
  }

  /** The order a key function induces. */
  function By<T>(key: T -> Key): (T, T) -> bool {
    (a, b) => KeyLe(key(a), key(b))
  }

  lemma ByIsTotalPreorder<T(!new)>(key: T -> Key)
    ensures TotalPreorder(By(key))
  {
    forall a, b ensures By(key)(a, b) || By(key)(b, a) {
      PartsTotal(key(a).parts, key(b).parts);
    }
    forall a, b, c | By(key)(a, b) && By(key)(b, c) ensures By(key)(a, c) {
      if key(a).rank == key(b).rank == key(c).rank {
        PartsTransitive(key(a).parts, key(b).parts, key(c).parts);
      }
    }
  }
}

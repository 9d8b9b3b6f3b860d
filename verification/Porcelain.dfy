/** The parser of `git status --porcelain=v1 -z` output. How bytes become a path is any function. */
module Porcelain {
  import opened Basics

  datatype Membership = Tracked | Untracked | Ignored

  type Bytes = seq<Byte>

  const SPACE: Byte := 32
  const BANG: Byte := 33
  const LETTER_C: Byte := 67
  const QUERY: Byte := 63
  const LETTER_R: Byte := 82

  /** One status record; `second` is the other path of a rename or copy. */
  datatype StatusRecord = StatusRecord(x: Byte, y: Byte, path: Bytes, second: Bytes)

  predicate Renames(x: Byte) {
    x == LETTER_R || x == LETTER_C
  }

  function StatusOf(x: Byte, y: Byte): Membership {
    if x == BANG || y == BANG then Ignored
    else if x == QUERY || y == QUERY then Untracked
    else Tracked
  }

  function Inserted(m: map<string, Membership>, r: StatusRecord, decode: Bytes -> string): map<string, Membership> {
    var m1 := if Renames(r.x) then m[decode(r.second) := Tracked] else m;
    m1[decode(r.path) := StatusOf(r.x, r.y)]
  }

  function InsertAll(
      m: map<string, Membership>, rs: seq<StatusRecord>, decode: Bytes -> string): map<string, Membership>
    decreases |rs|
  {
    if rs == [] then m else InsertAll(Inserted(m, rs[0], decode), rs[1..], decode)
  }

  // ---------- which membership a path ends up with ----------

  predicate Speaks(r: StatusRecord, decode: Bytes -> string, path: string) {
    decode(r.path) == path || ((r.x == 82 || r.x == 67) && decode(r.second) == path)
  }

  /** `!` in either column is ignored, else `?` in either is untracked; the other path of a rename or copy
      is tracked. */
  function Saying(r: StatusRecord, decode: Bytes -> string, path: string): Membership {
    if decode(r.path) != path then Tracked
    else if 33 in [r.x, r.y] then Ignored
    else if 63 in [r.x, r.y] then Untracked
    else Tracked
  }

  /** Record `k` is the last that speaks of the path. */
  ghost predicate LastToSpeak(rs: seq<StatusRecord>, decode: Bytes -> string, path: string, k: int) {
    0 <= k < |rs| && Speaks(rs[k], decode, path) && forall j | k < j < |rs| :: !Speaks(rs[j], decode, path)
  }

  /** The map after the records: a path has what the last record that speaks of it says, and a path no
      record speaks of is as it was. */
  ghost predicate LastWord(
      m: map<string, Membership>, rs: seq<StatusRecord>, decode: Bytes -> string, after: map<string, Membership>,
      path: string)
  {
    && ((forall j | 0 <= j < |rs| :: !Speaks(rs[j], decode, path)) ==>
          (path in after <==> path in m) && (path in m ==> after[path] == m[path]))
    && forall k | LastToSpeak(rs, decode, path, k) :: path in after && after[path] == Saying(rs[k], decode, path)
  }

  lemma InsertedSpeaks(m: map<string, Membership>, r: StatusRecord, decode: Bytes -> string, path: string)
    ensures var after := Inserted(m, r, decode);
            && (Speaks(r, decode, path) ==> path in after && after[path] == Saying(r, decode, path))
            && (!Speaks(r, decode, path) ==> (path in after <==> path in m) && (path in m ==> after[path] == m[path]))
  {
  }

  lemma {:induction false} LastWordWins(
      m: map<string, Membership>, rs: seq<StatusRecord>, decode: Bytes -> string, path: string)
    ensures LastWord(m, rs, decode, InsertAll(m, rs, decode), path)
    decreases |rs|
  {
    hide Speaks, Saying, Inserted;
    if rs != [] {
      var m1, rest := Inserted(m, rs[0], decode), rs[1..];
      InsertedSpeaks(m, rs[0], decode, path);
      LastWordWins(m1, rest, decode, path);
      var after := InsertAll(m1, rest, decode);
      assert forall j | 0 <= j < |rest| :: rest[j] == rs[j + 1];
      if forall j | 0 <= j < |rs| :: !Speaks(rs[j], decode, path) {
        assert forall j | 0 <= j < |rest| :: !Speaks(rest[j], decode, path);
      }
      forall k | LastToSpeak(rs, decode, path, k)
        ensures path in after && after[path] == Saying(rs[k], decode, path)
      {
        if k == 0 {
          assert forall j | 0 <= j < |rest| :: !Speaks(rest[j], decode, path);
        } else {
          assert LastToSpeak(rest, decode, path, k - 1);
        }
      }
    }
  }

  // ---------- printing ----------

  predicate NoNul(s: Bytes) {
    forall i | 0 <= i < |s| :: s[i] != 0
  }

  /** Paths hold no NUL, and there is a second path exactly for a rename or copy. */
  predicate WellFormed(r: StatusRecord) {
    NoNul(r.path) && NoNul(r.second) && (!Renames(r.x) ==> r.second == [])
  }

  function PrintOne(r: StatusRecord): Bytes {
    [r.x, r.y, SPACE] + r.path + [0] + if Renames(r.x) then r.second + [0] else []
  }

  function Print(rs: seq<StatusRecord>): Bytes {
    if rs == [] then [] else PrintOne(rs[0]) + Print(rs[1..])
  }

  // ---------- reading ----------

  function NulAt(s: Bytes): (n: nat)
    ensures n <= |s|
  {
    if s == [] || s[0] == 0 then 0 else 1 + NulAt(s[1..])
  }

  /** What follows the first NUL, or nothing. */
  function Beyond(s: Bytes): Bytes {
    if NulAt(s) < |s| then s[NulAt(s) + 1..] else []
  }

  predicate Stops(s: Bytes) {
    |s| < 3 || s[2] != SPACE
  }

  function Head(s: Bytes): StatusRecord
    requires !Stops(s)
  {
    var p := s[3..];
    var rest := Beyond(p);
    StatusRecord(s[0], s[1], p[..NulAt(p)], if Renames(s[0]) then rest[..NulAt(rest)] else [])
  }

  function Rest(s: Bytes): (r: Bytes)
    requires !Stops(s)
    ensures |r| < |s|
  {
    var rest := Beyond(s[3..]);
    if Renames(s[0]) then Beyond(rest) else rest
  }

  function Records(s: Bytes): seq<StatusRecord>
    decreases |s|
  {
    if Stops(s) then [] else [Head(s)] + Records(Rest(s))
  }

  lemma {:induction false} NulAtIs(s: Bytes, n: nat)
    requires n <= |s| && NoNul(s[..n]) && (n < |s| ==> s[n] == 0)
    ensures NulAt(s) == n
  {
    if n > 0 {
      assert s[0] == s[..n][0];
      assert s[1..][..n - 1] == s[..n][1..];
      NulAtIs(s[1..], n - 1);
    }
  }

  lemma {:induction false} NulAtFinds(s: Bytes)
    ensures NoNul(s[..NulAt(s)]) && (NulAt(s) < |s| ==> s[NulAt(s)] == 0)
  {
    if s != [] && s[0] != 0 {
      NulAtFinds(s[1..]);
      assert s[..NulAt(s)] == [s[0]] + s[1..][..NulAt(s[1..])];
    }
  }

  method ScanToNul(bytes: Bytes, start: nat) returns (j: nat)
    requires start <= |bytes|
    ensures start <= j <= |bytes| && j - start == NulAt(bytes[start..])
  {
    j := start;
    while j < |bytes| && bytes[j] != 0
      invariant start <= j <= |bytes| && NoNul(bytes[start..j])
    {
      assert bytes[start..j + 1] == bytes[start..j] + [bytes[j]];
      j := j + 1;
    }
    assert bytes[start..][..j - start] == bytes[start..j];
    NulAtIs(bytes[start..], j - start);
  }

  method SkipNul(bytes: Bytes, start: nat, j: nat) returns (i: nat)
    requires start <= j <= |bytes| && j - start == NulAt(bytes[start..])
    ensures j <= i <= |bytes| && bytes[i..] == Beyond(bytes[start..])
  {
    NulAtFinds(bytes[start..]);
    i := j;
    if i < |bytes| && bytes[i] == 0 {
      i := i + 1;
    }
  }

  method ParsePorcelain(bytes: Bytes, membership: map<string, Membership>, decode: Bytes -> string)
    returns (m: map<string, Membership>)
    ensures m == InsertAll(membership, Records(bytes), decode)
    ensures forall path :: LastWord(membership, Records(bytes), decode, m, path)
  {
    hide NulAt, Beyond, LastWord;
    m := membership;
    var i := 0;
    assert bytes[0..] == bytes;
    while i + 3 <= |bytes|
      invariant i <= |bytes|
      invariant InsertAll(membership, Records(bytes), decode) == InsertAll(m, Records(bytes[i..]), decode)
    {
      ghost var here := bytes[i..];
      var x, y := bytes[i], bytes[i + 1];
      if bytes[i + 2] != SPACE {
        break;
      }
      i := i + 3;
      assert here[3..] == bytes[i..];
      var start := i;
      i := ScanToNul(bytes, start);
      var path := bytes[start..i];
      assert path == here[3..][..NulAt(here[3..])];
      i := SkipNul(bytes, start, i);
      ghost var second: Bytes := [];
      if x == LETTER_R || x == LETTER_C {
        var start2 := i;
        i := ScanToNul(bytes, start2);
        var path2 := bytes[start2..i];
        assert path2 == bytes[start2..][..NulAt(bytes[start2..])];
        i := SkipNul(bytes, start2, i);
        m := m[decode(path2) := Tracked];
        second := path2;
      }
      assert Head(here) == StatusRecord(x, y, path, second) && Rest(here) == bytes[i..];
      m := m[decode(path) := StatusOf(x, y)];
    }
    forall path ensures LastWord(membership, Records(bytes), decode, m, path) {
      LastWordWins(membership, Records(bytes), decode, path);
    }
  }

  // ---------- what it reads is what was printed ----------

  lemma TakesPath(path: Bytes, tail: Bytes)
    requires NoNul(path)
    ensures var s := path + [0] + tail;
            s[..NulAt(s)] == path && Beyond(s) == tail
  {
    hide NulAt;
    var s := path + [0] + tail;
    assert s[..|path|] == path;
    NulAtIs(s, |path|);
  }

  lemma HeadOfPrinted(r: StatusRecord, tail: Bytes)
    requires WellFormed(r)
    ensures !Stops(PrintOne(r) + tail) && Head(PrintOne(r) + tail) == r && Rest(PrintOne(r) + tail) == tail
  {
    hide NulAt, Beyond, NoNul;
    var s := PrintOne(r) + tail;
    if Renames(r.x) {
      assert s[3..] == r.path + [0] + (r.second + [0] + tail);
      TakesPath(r.path, r.second + [0] + tail);
      TakesPath(r.second, tail);
    } else {
      assert s[3..] == r.path + [0] + tail;
      TakesPath(r.path, tail);
    }
  }

  ghost predicate AllWellFormed(rs: seq<StatusRecord>) {
    forall i | 0 <= i < |rs| :: WellFormed(rs[i])
  }

  /** Any printed record list is read back, whatever unusable bytes follow it. */
  lemma {:induction false} PrintedIsReadBack(rs: seq<StatusRecord>, tail: Bytes)
    requires AllWellFormed(rs) && Stops(tail)
    ensures Records(Print(rs) + tail) == rs
  {
    hide Head, Rest, PrintOne, WellFormed;
    if rs == [] {
      assert Print(rs) + tail == tail;
    } else {
      var more := Print(rs[1..]) + tail;
      assert Print(rs) + tail == PrintOne(rs[0]) + more;
      HeadOfPrinted(rs[0], more);
      PrintedIsReadBack(rs[1..], tail);
    }
  }

  /** `s` is `front` then `rest`, up to NULs missing at the very end of `s`. */
  ghost predicate Splits(s: Bytes, front: Bytes, rest: Bytes) {
    s == front + rest || (rest == [] && (s + [0] == front || s + [0, 0] == front))
  }

  lemma {:induction false} PathSplits(s: Bytes)
    ensures NoNul(s[..NulAt(s)])
    ensures if NulAt(s) < |s| then s == s[..NulAt(s)] + [0] + Beyond(s) else s[..NulAt(s)] == s && Beyond(s) == []
  {
    hide NulAt, NoNul;
    NulAtFinds(s);
    var n := NulAt(s);
    if n < |s| {
      assert s == s[..n] + [s[n]] + s[n + 1..];
    } else {
      assert s[..n] == s;
    }
  }

  lemma {:induction false} HeadSplits(s: Bytes)
    requires !Stops(s)
    ensures WellFormed(Head(s)) && Splits(s, PrintOne(Head(s)), Rest(s))
  {
    hide NulAt, Beyond, NoNul;
    var p := s[3..];
    PathSplits(p);
    PathSplits(Beyond(p));
    EmptyHasNoNul();
    assert s == [s[0], s[1], SPACE] + p;
    if NulAt(p) == |p| {
      NulAtBound(Beyond(p));
    }
  }

  lemma EmptyHasNoNul()
    ensures NoNul([])
  {
  }

  lemma NulAtBound(s: Bytes)
    ensures s == [] ==> NulAt(s) == 0
  {
  }

  lemma SplitsCompose(s: Bytes, one: Bytes, rest: Bytes, more: Bytes, end: Bytes)
    requires Splits(s, one, rest) && Splits(rest, more, end) && (rest == [] ==> more == [] && end == [])
    ensures Splits(s, one + more, end)
  {
    if s == one + rest {
      if rest == more + end {
        assert s == (one + more) + end;
      } else if rest + [0] == more {
        assert s + [0] == one + more;
      } else {
        assert s + [0, 0] == one + more;
      }
    } else {
      assert one + more == one;
    }
  }

  /** Every byte string is some well-formed printed record list followed by bytes the parser stops at,
      up to NULs missing at its very end: nothing before that point is skipped or read twice. */
  lemma {:induction false} EverythingReadWasThere(s: Bytes) returns (rest: Bytes)
    ensures AllWellFormed(Records(s)) && Stops(rest) && Splits(s, Print(Records(s)), rest)
    ensures s == [] ==> rest == []
    decreases |s|
  {
    hide Head, Rest, PrintOne, WellFormed, Splits;
    if Stops(s) {
      rest := s;
      NothingRead(s);
    } else {
      HeadSplits(s);
      rest := EverythingReadWasThere(Rest(s));
      SplitsCompose(s, PrintOne(Head(s)), Rest(s), Print(Records(Rest(s))), rest);
      assert Records(s)[1..] == Records(Rest(s));
    }
  }

  lemma NothingRead(s: Bytes)
    requires Stops(s)
    ensures Splits(s, Print(Records(s)), s)
  {
    assert [] + s == s;
  }

  // ---------- renames in the worktree column ----------

  /** Git prints a second path for a rename or copy in either column. */
  predicate PrintsSecond(r: StatusRecord) {
    Renames(r.x) || Renames(r.y)
  }

  /** Paths are not empty and hold no NUL, and there is a second path exactly when git prints one. */
  predicate GitRecord(r: StatusRecord) {
    r.path != [] && NoNul(r.path) && NoNul(r.second) && (r.second != [] <==> PrintsSecond(r))
  }

  ghost predicate AllGit(rs: seq<StatusRecord>) {
    forall i | 0 <= i < |rs| :: GitRecord(rs[i])
  }

  function GitPrintOne(r: StatusRecord): Bytes {
    [r.x, r.y, SPACE] + r.path + [0] + if PrintsSecond(r) then r.second + [0] else []
  }

  function GitPrint(rs: seq<StatusRecord>): Bytes {
    if rs == [] then [] else GitPrintOne(rs[0]) + GitPrint(rs[1..])
  }

  /** A second path the parser does not expect: the rename is in the second column only. */
  predicate Unexpected(r: StatusRecord) {
    !Renames(r.x) && Renames(r.y)
  }

  ghost predicate NoneUnexpected(rs: seq<StatusRecord>) {
    forall i | 0 <= i < |rs| :: !Unexpected(rs[i])
  }

  lemma ExpectedPrintsAlike(r: StatusRecord)
    requires GitRecord(r) && !Unexpected(r)
    ensures GitPrintOne(r) == PrintOne(r) && WellFormed(r)
  {
  }

  /** The record is read without its second path, which is then read as if it were a record. */
  lemma UnexpectedSplits(r: StatusRecord)
    requires GitRecord(r) && Unexpected(r)
    ensures GitPrintOne(r) == PrintOne(r.(second := [])) + (r.second + [0]) && WellFormed(r.(second := []))
  {
    EmptyHasNoNul();
  }

  lemma {:induction false} ExpectedAreRead(rs: seq<StatusRecord>, rest: Bytes)
    requires AllGit(rs) && NoneUnexpected(rs)
    ensures Records(GitPrint(rs) + rest) == rs + Records(rest)
  {
    hide Head, Rest, PrintOne, WellFormed, GitRecord, GitPrintOne, Unexpected, Stops;
    if rs == [] {
      assert GitPrint(rs) + rest == rest && rs + Records(rest) == Records(rest);
    } else {
      var more := GitPrint(rs[1..]) + rest;
      ExpectedPrintsAlike(rs[0]);
      assert GitPrint(rs) + rest == PrintOne(rs[0]) + more;
      HeadOfPrinted(rs[0], more);
      ExpectedAreRead(rs[1..], rest);
      assert rs + Records(rest) == [rs[0]] + (rs[1..] + Records(rest));
    }
  }

  lemma {:induction false} GitPrintAppend(a: seq<StatusRecord>, b: seq<StatusRecord>)
    ensures GitPrint(a + b) == GitPrint(a) + GitPrint(b)
  {
    hide GitPrintOne;
    if a == [] {
      assert a + b == b;
    } else {
      assert (a + b)[1..] == a[1..] + b;
      GitPrintAppend(a[1..], b);
    }
  }

  /** What is read of git's output up to its first unexpected second path, and from there on: the record
      loses that path, and the path and everything after it are read as a new text. */
  lemma UnexpectedDerails(before: seq<StatusRecord>, r: StatusRecord, after: seq<StatusRecord>, tail: Bytes)
    requires AllGit(before) && NoneUnexpected(before) && GitRecord(r) && Unexpected(r)
    ensures Records(GitPrint(before + ([r] + after)) + tail)
            == before + ([r.(second := [])] + Records(r.second + [0] + (GitPrint(after) + tail)))
  {
    hide Head, Rest, PrintOne, WellFormed, GitRecord, GitPrintOne, Unexpected, Stops, NoneUnexpected, AllGit;
    var rest := r.second + [0] + (GitPrint(after) + tail);
    var cut := r.(second := []);
    UnexpectedSplits(r);
    GitPrintAppend(before, [r] + after);
    assert ([r] + after)[1..] == after;
    assert GitPrint([r] + after) + tail == PrintOne(cut) + rest;
    assert GitPrint(before + ([r] + after)) + tail == GitPrint(before) + (PrintOne(cut) + rest);
    ExpectedAreRead(before, PrintOne(cut) + rest);
    HeadOfPrinted(cut, rest);
  }

  /** What follows the record reads as no further record: the second path has two bytes, or more with no
      space as the third, or one byte and after it no text that starts with a space. */
  predicate EndsAt(second: Bytes, more: Bytes) {
    || |second| == 2 || (|second| > 2 && second[2] != SPACE)
    || (|second| == 1 && (more == [] || more[0] != SPACE))
  }

  lemma EndsAtIff(second: Bytes, more: Bytes)
    requires second != []
    ensures Stops(second + [0] + more) <==> EndsAt(second, more)
  {
    var rest := second + [0] + more;
    if |second| == 1 {
      assert more != [] ==> rest[2] == more[0];
    } else {
      assert rest[2] == if |second| == 2 then 0 else second[2];
    }
  }

  /** Exactly then everything after the record is lost. */
  lemma UnexpectedEndsReadingIff(before: seq<StatusRecord>, r: StatusRecord, after: seq<StatusRecord>, tail: Bytes)
    requires AllGit(before) && NoneUnexpected(before) && GitRecord(r) && Unexpected(r)
    ensures Records(GitPrint(before + ([r] + after)) + tail) == before + [r.(second := [])]
            <==> EndsAt(r.second, GitPrint(after) + tail)
  {
    hide GitRecord, NoneUnexpected, AllGit, GitPrint, Unexpected, EndsAt, Head, Rest, Stops;
    UnexpectedDerails(before, r, after, tail);
    SecondIsThere(r);
    var more := GitPrint(after) + tail;
    EndsAtIff(r.second, more);
    var read := Records(r.second + [0] + more);
    assert read == [] <==> Stops(r.second + [0] + more);
    assert |before + ([r.(second := [])] + read)| == |before| + 1 + |read|;
  }

  /** What the parser makes of a path with a space as its third byte: a record of its own, which takes the
      next text as its second path if it starts like a rename. */
  function Misread(second: Bytes, more: Bytes): StatusRecord
    requires |second| > 2
  {
    StatusRecord(second[0], second[1], second[3..], if Renames(second[0]) then more[..NulAt(more)] else [])
  }

  lemma MisreadHead(second: Bytes, more: Bytes)
    requires |second| > 2 && second[2] == SPACE && NoNul(second)
    ensures var rest := second + [0] + more;
            && !Stops(rest) && Head(rest) == Misread(second, more)
            && Rest(rest) == if Renames(second[0]) then Beyond(more) else more
  {
    hide NulAt, Beyond;
    var rest, path := second + [0] + more, second[3..];
    assert rest[3..] == path + [0] + more;
    TakesPath(path, more);
  }

  /** If it has one, the path is read as such a record. */
  lemma UnexpectedIsMisread(before: seq<StatusRecord>, r: StatusRecord, after: seq<StatusRecord>, tail: Bytes)
    requires AllGit(before) && NoneUnexpected(before) && GitRecord(r) && Unexpected(r)
    requires |r.second| > 2 && r.second[2] == SPACE
    ensures var more := GitPrint(after) + tail;
            Records(GitPrint(before + ([r] + after)) + tail)
            == before + ([r.(second := []), Misread(r.second, more)]
                         + Records(if Renames(r.second[0]) then Beyond(more) else more))
  {
    hide NoneUnexpected, AllGit, GitPrint, PrintOne, Head, Rest, Records, NoNul, Stops, Misread, Beyond;
    UnexpectedDerails(before, r, after, tail);
    var more := GitPrint(after) + tail;
    var rest, cut := r.second + [0] + more, r.(second := []);
    MisreadHead(r.second, more);
    RecordsStep(rest);
    assert [cut] + ([Misread(r.second, more)] + Records(Rest(rest)))
        == [cut, Misread(r.second, more)] + Records(Rest(rest));
  }

  /** What it makes of a path of one byte before a record whose first column is a space: the byte, the NUL and
      that space read as the start of a record, and the rest of the record's first text as its path. */
  function MisreadByte(c: Byte, next: StatusRecord, more: Bytes): StatusRecord {
    StatusRecord(c, 0, [next.y, SPACE] + next.path, if Renames(c) then more[..NulAt(more)] else [])
  }

  lemma MisreadByteHead(c: Byte, next: StatusRecord, more: Bytes)
    requires next.x == SPACE && next.y != 0 && NoNul(next.path)
    ensures var rest := [c, 0] + ([next.x, next.y, SPACE] + next.path + [0] + more);
            && !Stops(rest) && Head(rest) == MisreadByte(c, next, more)
            && Rest(rest) == if Renames(c) then Beyond(more) else more
  {
    hide NulAt, Beyond;
    var path := [next.y, SPACE] + next.path;
    var rest := [c, 0] + ([next.x, next.y, SPACE] + next.path + [0] + more);
    assert rest[3..] == path + [0] + more;
    TakesPath(path, more);
  }

  /** The path git prints second, if any. */
  function SecondText(r: StatusRecord): Bytes {
    if PrintsSecond(r) then r.second + [0] else []
  }

  /** Such a path is read as such a record. */
  lemma UnexpectedByteIsMisread(
      before: seq<StatusRecord>, r: StatusRecord, next: StatusRecord, after: seq<StatusRecord>, tail: Bytes)
    requires AllGit(before) && NoneUnexpected(before) && GitRecord(r) && Unexpected(r) && GitRecord(next)
    requires |r.second| == 1 && next.x == SPACE && next.y != 0
    ensures var c, more := r.second[0], SecondText(next) + (GitPrint(after) + tail);
            Records(GitPrint(before + ([r] + ([next] + after))) + tail)
            == before + ([r.(second := []), MisreadByte(c, next, more)]
                         + Records(if Renames(c) then Beyond(more) else more))
  {
    hide NoneUnexpected, AllGit, Head, Rest, Records, Unexpected, Renames, NoNul, Stops, MisreadByte, Beyond;
    UnexpectedDerails(before, r, [next] + after, tail);
    var c, more, cut := r.second[0], SecondText(next) + (GitPrint(after) + tail), r.(second := []);
    var rest := r.second + [0] + (GitPrint([next] + after) + tail);
    assert ([next] + after)[1..] == after;
    assert rest == [c, 0] + ([next.x, next.y, SPACE] + next.path + [0] + more) by {
      NextPrints(next, GitPrint(after) + tail);
      assert GitPrint([next] + after) + tail == GitPrintOne(next) + (GitPrint(after) + tail);
    }
    MisreadByteHead(c, next, more);
    RecordsStep(rest);
    assert [cut] + ([MisreadByte(c, next, more)] + Records(Rest(rest)))
        == [cut, MisreadByte(c, next, more)] + Records(Rest(rest));
  }

  lemma NextPrints(next: StatusRecord, more: Bytes)
    ensures GitPrintOne(next) + more == [next.x, next.y, SPACE] + next.path + [0] + (SecondText(next) + more)
  {
  }

  lemma RecordsStep(s: Bytes)
    requires !Stops(s)
    ensures Records(s) == [Head(s)] + Records(Rest(s))
  {
  }

  /** Git's output is read back exactly when no rename or copy is in the second column only. */
  lemma GitIsReadBackIff(rs: seq<StatusRecord>, tail: Bytes)
    requires AllGit(rs) && Stops(tail)
    ensures Records(GitPrint(rs) + tail) == rs <==> NoneUnexpected(rs)
  {
    hide GitRecord, GitPrint, Unexpected, Stops, Records;
    if NoneUnexpected(rs) {
      ExpectedAreRead(rs, tail);
      StoppedIsEmpty(tail);
      assert rs + [] == rs;
    } else {
      var i := FirstUnexpected(rs);
      var before, r, after := rs[..i], rs[i], rs[i + 1..];
      assert rs == before + ([r] + after);
      assert GitRecord(r);
      UnexpectedDerails(before, r, after, tail);
      SecondIsThere(r);
      assert Records(GitPrint(rs) + tail)[i].second == [];
    }
  }

  lemma StoppedIsEmpty(s: Bytes)
    requires Stops(s)
    ensures Records(s) == []
  {
  }

  lemma SecondIsThere(r: StatusRecord)
    requires GitRecord(r) && Unexpected(r)
    ensures r.second != []
  {
  }

  lemma {:induction false} FirstUnexpected(rs: seq<StatusRecord>) returns (i: nat)
    requires !NoneUnexpected(rs)
    ensures i < |rs| && Unexpected(rs[i]) && NoneUnexpected(rs[..i])
  {
    hide Unexpected;
    i := 0;
    while !Unexpected(rs[i])
      invariant i < |rs| && NoneUnexpected(rs[..i])
      decreases |rs| - i
    {
      i := i + 1;
    }
  }
}

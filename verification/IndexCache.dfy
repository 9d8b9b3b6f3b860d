/** The rebuildable discovery index: one row per work scope, fenced by digest and generations. */
module IndexCache {
  import opened Basics
  import opened Texts
  import opened Digest
  import opened Bundle

  const MAX_ROW_PAYLOAD: nat := 16 * 1024 * 1024
  const MAX_WORKSPACE_PAYLOAD: nat := 256 * 1024 * 1024
  const PRODUCER: string := "seyal-agent-context/discovery-index"
  const SCHEMA: nat := 1

  type WorkScope = nat

  type IntegrityDigest = d: seq<Byte> | |d| == 16
    witness [0, 0, 0, 0, 0, 0, 0, 0, 0, 0, 0, 0, 0, 0, 0, 0]

  datatype Scope = Scope(workScope: WorkScope, generations: Generations)

  datatype Entry = Entry(
    scope: Scope,
    catalog: IntegrityDigest,
    producer: string,
    schema: nat,
    integrity: IntegrityDigest,
    payload: seq<Byte>)

  datatype Record = Record(
    producer: string,
    schema: nat,
    generations: Generations,
    catalogHex: string,
    integrityHex: string,
    payload: seq<Byte>)

  type Rows = map<WorkScope, Record>

  datatype MissReason = IntegrityMismatch | GenerationStale

  datatype CacheLookup = Hit | Miss(reason: MissReason)

  datatype StoreError = PayloadTooLarge | WriteRefused | Corrupt

  datatype Result<T> = Ok(value: T) | Err(error: StoreError)

  function FromReport(scope: Scope, catalog: IntegrityDigest, payload: seq<Byte>): Entry {
    Entry(scope, catalog, PRODUCER, SCHEMA, DigestOf(payload), payload)
  }

  function ValidateFor(e: Entry, scope: Scope): CacheLookup {
    if e.producer != PRODUCER then Miss(IntegrityMismatch)
    else if e.schema != SCHEMA then Miss(IntegrityMismatch)
    else if DigestOf(e.payload) != e.integrity then Miss(IntegrityMismatch)
    else if e.scope != scope then Miss(GenerationStale)
    else Hit
  }

  function RowOf(e: Entry): Record {
    Record(e.producer, e.schema, e.scope.generations, Hex(e.catalog), Hex(e.integrity), e.payload)
  }

  // ---------- the store; a write may be refused, which `writable` says ----------

  function Put(rows: Rows, w: WorkScope, row: Record, writable: bool): (Rows, Result<()>) {
    if row.producer == "" || |row.payload| > MAX_ROW_PAYLOAD then (rows, Err(PayloadTooLarge))
    else if !writable then (rows, Err(WriteRefused))
    else (rows[w := row], Ok(()))
  }

  function Delete(rows: Rows, w: WorkScope, writable: bool): Rows {
    if writable then rows - {w} else rows
  }

  function Stored(rows: Rows, e: Entry, writable: bool): (Rows, Result<()>) {
    if |e.payload| > MAX_WORKSPACE_PAYLOAD then (Delete(rows, e.scope.workScope, writable), Err(PayloadTooLarge))
    else Put(rows, e.scope.workScope, RowOf(e), writable)
  }

  function ReadBack(row: Record, w: WorkScope): Result<Entry> {
    match (FromHex(row.integrityHex), FromHex(row.catalogHex))
    case (Some(integrity), Some(catalog)) =>
      Ok(Entry(Scope(w, row.generations), catalog, row.producer, row.schema, integrity, row.payload))
    case _ => Err(Corrupt)
  }

  function Loaded(rows: Rows, scope: Scope, writable: bool): (Rows, Result<Option<Entry>>) {
    if scope.workScope !in rows then (rows, Ok(None))
    else match ReadBack(rows[scope.workScope], scope.workScope)
      case Err(e) => (rows, Err(e))
      case Ok(entry) =>
        if ValidateFor(entry, scope).Hit? then (rows, Ok(Some(entry)))
        else (Delete(rows, scope.workScope, writable), Ok(None))
  }

  class AgentStore {
    var rows: Rows

    method PutContextIndex(w: WorkScope, row: Record, writable: bool) returns (r: Result<()>)
      modifies this
      ensures (rows, r) == Put(old(rows), w, row, writable)
    {
      if row.producer == "" || |row.payload| > MAX_ROW_PAYLOAD {
        return Err(PayloadTooLarge);
      }
      if !writable {
        return Err(WriteRefused);
      }
      rows := rows[w := row];
      r := Ok(());
    }

    method DeleteContextIndex(w: WorkScope, writable: bool)
      modifies this
      ensures rows == Delete(old(rows), w, writable)
    {
      if writable {
        rows := rows - {w};
      }
    }

    method StoreIndex(e: Entry, writable: bool) returns (r: Result<()>)
      modifies this
      ensures (rows, r) == Stored(old(rows), e, writable)
    {
      if |e.payload| > MAX_WORKSPACE_PAYLOAD {
        DeleteContextIndex(e.scope.workScope, writable);
        return Err(PayloadTooLarge);
      }
      var catalog := HexText(e.catalog);
      var integrity := HexText(e.integrity);
      r := PutContextIndex(e.scope.workScope,
        Record(e.producer, e.schema, e.scope.generations, catalog, integrity, e.payload), writable);
    }

    method LoadIndex(scope: Scope, writable: bool) returns (r: Result<Option<Entry>>)
      modifies this
      ensures (rows, r) == Loaded(old(rows), scope, writable)
    {
      var w := scope.workScope;
      if w !in rows {
        return Ok(None);
      }
      var row := rows[w];
      var integrity := ParseHex(row.integrityHex);
      var catalog := ParseHex(row.catalogHex);
      if integrity.None? || catalog.None? {
        return Err(Corrupt);
      }
      var entry := Entry(Scope(w, row.generations), catalog.value, row.producer, row.schema, integrity.value,
                         row.payload);
      if ValidateFor(entry, scope).Hit? {
        return Ok(Some(entry));
      }
      DeleteContextIndex(w, writable);
      r := Ok(None);
    }
  }

  // ---------- one store, one load ----------

  /** A stored entry reads back as itself, through the hex text of both digests. */
  lemma RecordedReadsBack(e: Entry)
    ensures ReadBack(RowOf(e), e.scope.workScope) == Ok(e)
  {
    hide Hex, FromHex;
    HexRoundTrip(e.integrity);
    HexRoundTrip(e.catalog);
  }

  /** An entry built from a report validates for exactly the scope it was built for. */
  lemma ReportValidatesIff(scope: Scope, catalog: IntegrityDigest, payload: seq<Byte>, other: Scope)
    ensures ValidateFor(FromReport(scope, catalog, payload), other)
            == if scope == other then Hit else Miss(GenerationStale)
  {
    hide DigestOf;
  }

  /** Any row at all, whoever wrote it: the load fails exactly when one of the two digest texts does not
      parse. It serves the row, unchanged, exactly when this program and this version of it wrote it, the
      payload digests to what is recorded, and all three generations are current; every other row is a miss
      and is dropped if the store can write. */
  lemma RowIsServedIff(rows: Rows, row: Record, scope: Scope, writable: bool)
    ensures var all := rows[scope.workScope := row];
            var (after, r) := Loaded(all, scope, writable);
            var parsed := FromHex(row.integrityHex).Some? && FromHex(row.catalogHex).Some?;
            var served :=
              && parsed && row.producer == "seyal-agent-context/discovery-index" && row.schema == 1
              && FromHex(row.integrityHex) == Some(DigestOf(row.payload))
              && row.generations.policy == scope.generations.policy
              && row.generations.privacy == scope.generations.privacy
              && row.generations.source == scope.generations.source;
            && (r == Err(Corrupt) <==> !parsed)
            && (r.Ok? && r.value.Some? <==> served)
            && (served ==> r.value.value.payload == row.payload && r.value.value.scope == scope
                           && FromHex(row.catalogHex) == Some(r.value.value.catalog))
            && after == if parsed && !served && writable then all - {scope.workScope} else all
  {
    hide DigestOf, FromHex;
  }

  /** A row is refused exactly when it names no producer, is over the row limit, or the store cannot write;
      a refused row changes nothing, and an accepted one changes its own work scope alone. */
  lemma PutIsRefusedIff(rows: Rows, w: WorkScope, row: Record, writable: bool)
    ensures var (after, r) := Put(rows, w, row, writable);
            && (r.Err? <==> row.producer == "" || |row.payload| > 16777216 || !writable)
            && (r.Err? ==> after == rows)
            && (r.Ok? ==> w in after && after[w] == row && after - {w} == rows - {w})
  {
  }

  /** A stored payload changed within two adjacent bytes is never served: the load misses, and drops
      the row if it can write. */
  lemma TamperedPayloadIsNotServed(
      rows: Rows, scope: Scope, catalog: IntegrityDigest, payload: seq<Byte>, tampered: seq<Byte>, i: nat,
      writable: bool)
    requires ChangedWithinPair(payload, tampered, i)
    ensures var e := FromReport(scope, catalog, payload);
            var w := scope.workScope;
            && ValidateFor(e.(payload := tampered), scope) == Miss(IntegrityMismatch)
            && Loaded(rows[w := RowOf(e).(payload := tampered)], scope, writable)
               == (Delete(rows[w := RowOf(e).(payload := tampered)], w, writable), Ok(None))
  {
    hide DigestOf, Hex, FromHex;
    var e := FromReport(scope, catalog, payload);
    PairChangeIsDetected(payload, tampered, i);
    assert RowOf(e.(payload := tampered)) == RowOf(e).(payload := tampered);
    RecordedReadsBack(e.(payload := tampered));
  }

  // ---------- whole runs ----------

  datatype CacheEvent =
    | Store(scope: Scope, catalog: IntegrityDigest, payload: seq<Byte>, writable: bool)
    | Load(scope: Scope, writable: bool)

  function Apply(rows: Rows, ev: CacheEvent): Rows {
    match ev
    case Store(scope, catalog, payload, writable) => Stored(rows, FromReport(scope, catalog, payload), writable).0
    case Load(scope, writable) => Loaded(rows, scope, writable).0
  }

  function RowsAfter(h: seq<CacheEvent>): Rows {
    if h == [] then map[] else Apply(RowsAfter(h[..|h| - 1]), h[|h| - 1])
  }

  predicate Succeeds(ev: CacheEvent) {
    ev.Store? && ev.writable && |ev.payload| <= MAX_ROW_PAYLOAD
  }

  /** The event takes away what the successful store `s` left: it stores again, sheds an oversize
      payload, or loads under other generations. */
  predicate Displaces(ev: CacheEvent, s: CacheEvent) {
    && ev.scope.workScope == s.scope.workScope && ev.writable
    && match ev
       case Store(_, _, payload, _) => |payload| <= MAX_ROW_PAYLOAD || |payload| > MAX_WORKSPACE_PAYLOAD
       case Load(scope, _) => scope.generations != s.scope.generations
  }

  /** CacheEvent `i` is a successful store for `w`, and nothing after it displaced it. */
  ghost predicate Standing(h: seq<CacheEvent>, w: WorkScope, i: int) {
    && 0 <= i < |h| && Succeeds(h[i]) && h[i].scope.workScope == w
    && forall j | i < j < |h| :: !Displaces(h[j], h[i])
  }

  function EntryOf(s: CacheEvent): Entry
    requires s.Store?
  {
    FromReport(s.scope, s.catalog, s.payload)
  }

  /** At most one store stands for a work scope. */
  lemma StandingIsUnique(h: seq<CacheEvent>, w: WorkScope, i: int, j: int)
    requires Standing(h, w, i) && Standing(h, w, j)
    ensures i == j
  {
    if i < j {
      assert Displaces(h[j], h[i]);
    } else if j < i {
      assert Displaces(h[i], h[j]);
    }
  }

  /** The row of `w` is the record of the standing store; without one there is no row. */
  ghost predicate RowIsStanding(rows: Rows, h: seq<CacheEvent>, w: WorkScope) {
    && (w in rows ==> exists i :: Standing(h, w, i))
    && forall i | Standing(h, w, i) :: w in rows && rows[w] == RowOf(EntryOf(h[i]))
  }

  lemma StandingStep(h: seq<CacheEvent>, ev: CacheEvent, w: WorkScope, i: int)
    ensures Standing(h + [ev], w, i) <==>
            if i == |h| then Succeeds(ev) && ev.scope.workScope == w
            else Standing(h, w, i) && !Displaces(ev, h[i])
  {
    var g := h + [ev];
    if Standing(h, w, i) && !Displaces(ev, h[i]) {
      forall j | i < j < |g| ensures !Displaces(g[j], g[i]) {
      }
    }
    if 0 <= i < |h| && Standing(g, w, i) {
      assert g[|h|] == ev;
      forall j | i < j < |h| ensures !Displaces(h[j], h[i]) {
        assert g[j] == h[j];
      }
    }
  }

  lemma StoreStep(rows: Rows, h: seq<CacheEvent>, ev: CacheEvent, w: WorkScope)
    requires RowIsStanding(rows, h, w) && ev.Store?
    ensures RowIsStanding(Apply(rows, ev), h + [ev], w)
  {
    hide DigestOf, Hex;
    var g := h + [ev];
    forall i ensures Standing(g, w, i) <==> (if i == |h| then Succeeds(ev) && ev.scope.workScope == w
                                              else Standing(h, w, i) && !Displaces(ev, h[i])) {
      StandingStep(h, ev, w, i);
    }
    if Succeeds(ev) && ev.scope.workScope == w {
      assert Standing(g, w, |h|);
    }
    if w in Apply(rows, ev) && !(Succeeds(ev) && ev.scope.workScope == w) {
      var i :| Standing(h, w, i);
      assert Standing(g, w, i);
    }
  }

  lemma LoadStep(rows: Rows, h: seq<CacheEvent>, ev: CacheEvent, w: WorkScope)
    requires RowIsStanding(rows, h, w) && ev.Load?
    ensures RowIsStanding(Apply(rows, ev), h + [ev], w)
  {
    hide DigestOf, Hex, FromHex;
    var g := h + [ev];
    forall i ensures Standing(g, w, i) <==> i != |h| && Standing(h, w, i) && !Displaces(ev, h[i]) {
      StandingStep(h, ev, w, i);
    }
    if w in rows {
      var i :| Standing(h, w, i);
      var s := h[i];
      RecordedReadsBack(EntryOf(s));
      ReportValidatesIff(s.scope, s.catalog, s.payload, ev.scope);
      if w in Apply(rows, ev) {
        assert Standing(g, w, i);
      }
    }
  }

  lemma {:induction false} RowsAreStanding(h: seq<CacheEvent>, w: WorkScope)
    ensures RowIsStanding(RowsAfter(h), h, w)
  {
    hide Apply, Standing;
    if h == [] {
      NothingStands(w);
    } else {
      var less, ev := h[..|h| - 1], h[|h| - 1];
      RowsAreStanding(less, w);
      if ev.Store? {
        StoreStep(RowsAfter(less), less, ev, w);
      } else {
        LoadStep(RowsAfter(less), less, ev, w);
      }
      assert less + [ev] == h;
    }
  }

  lemma NothingStands(w: WorkScope)
    ensures forall i :: !Standing([], w, i)
  {
  }

  ghost predicate Serves(h: seq<CacheEvent>, scope: Scope, i: int) {
    Standing(h, scope.workScope, i) && h[i].scope == scope
  }

  /** The whole cache, over every run of stores and loads with any writes refused: a load hits
      exactly when a store for that work scope still stands and was made under the same three
      generations, and it returns what that store stored; every other load is a plain miss, never an
      error. */
  lemma LoadHitsIffStoreStands(h: seq<CacheEvent>, scope: Scope, writable: bool)
    ensures var r := Loaded(RowsAfter(h), scope, writable).1;
            && r.Ok?
            && (r.value.Some? <==> exists i :: Serves(h, scope, i))
            && (forall i | Serves(h, scope, i) :: r.value == Some(EntryOf(h[i])))
  {
    hide DigestOf, Hex, FromHex, Standing, RowsAfter;
    RowsAreStanding(h, scope.workScope);
    if scope.workScope in RowsAfter(h) {
      var i :| Standing(h, scope.workScope, i);
      StandingHolds(h, scope.workScope, i);
      RecordedReadsBack(EntryOf(h[i]));
      ReportValidatesIff(h[i].scope, h[i].catalog, h[i].payload, scope);
      forall j | Standing(h, scope.workScope, j) ensures j == i {
        StandingIsUnique(h, scope.workScope, i, j);
      }
      assert Serves(h, scope, i) <==> h[i].scope == scope;
    }
  }

  lemma StandingHolds(h: seq<CacheEvent>, w: WorkScope, i: int)
    requires Standing(h, w, i)
    ensures 0 <= i < |h| && h[i].Store? && h[i].scope.workScope == w
  {
  }

  /** A payload between the row limit and the workspace limit is refused and leaves the old row, which
      a later load under the same generations still serves. */
  lemma MidSizeStoreKeepsOldEntry(h: seq<CacheEvent>, scope: Scope, i: int, s: CacheEvent, writable: bool)
    requires Standing(h, scope.workScope, i) && h[i].scope == scope
    requires s.Store? && s.scope.workScope == scope.workScope
    requires MAX_ROW_PAYLOAD < |s.payload| <= MAX_WORKSPACE_PAYLOAD
    ensures Stored(RowsAfter(h), EntryOf(s), s.writable) == (RowsAfter(h), Err(PayloadTooLarge))
    ensures Loaded(RowsAfter(h + [s]), scope, writable).1 == Ok(Some(EntryOf(h[i])))
  {
    StandingStep(h, s, scope.workScope, i);
    LoadHitsIffStoreStands(h + [s], scope, writable);
    assert (h + [s])[i] == h[i];
    assert Serves(h + [s], scope, i);
  }
}

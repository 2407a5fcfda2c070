/** The record table, its full-text index and the two index searches
    (src/memory/store.ts). The table is a map from id to record; `rowOrder`
    lists the ids in rowid (insertion) order, the order in which the model
    has the engine yield the rows of a query without `ORDER BY`; `fts` is the full-text index, a view derived
    from the records' summary, raw text and tags. */
module MemoryStore {
  import opened Wrappers
  import opened Seqs
  import opened Text
  import opened MemoryTypes
  import opened Ranking

  /** The three columns a record contributes to the full-text index. */
  datatype FtsRow = FtsRow(summary: string, raw: string, tags: seq<string>)

  function IndexedColumns(e: MemoryEntry): FtsRow {
    FtsRow(e.summary, e.raw, e.tags)
  }

  /** The full-text index a set of records determines. */
  function LexicalView(records: map<string, MemoryEntry>): map<string, FtsRow> {
    map k | k in records :: IndexedColumns(records[k])
  }

  datatype Store = Store(
    records: map<string, MemoryEntry>,
    rowOrder: seq<string>,
    fts: map<string, FtsRow>)

  /** The store invariant: every record sits under its own id, the rowid
      order lists each record exactly once, and the full-text index is
      exactly the view of the current records. */
  ghost predicate Valid(st: Store) {
    && (forall k | k in st.records :: st.records[k].id == k)
    && Distinct(st.rowOrder)
    && (forall i | 0 <= i < |st.rowOrder| :: st.rowOrder[i] in st.records)
    && (forall k | k in st.records :: k in st.rowOrder)
    && st.fts == LexicalView(st.records)
  }

  const EmptyStore: Store := Store(map[], [], map[])

  datatype StoreError =
    | DuplicateId(id: string)        // PRIMARY KEY violation
    | InvalidType(name: string)      // CHECK (type IN (...)) violation
    | MalformedQuery(query: string)  // the full-text engine rejected the MATCH expression

  /** The engine's ranking machinery, which the model does not open up:
      `accepts` says whether the full-text engine parses a query, `rank`
      gives the relevance rank (lower is better) of an index row that
      matches a query, and `distance` gives the cosine distance between a
      stored and a query vector, or None when the engine rejects the pair. */
  datatype SearchBackend = SearchBackend(
    accepts: string -> bool,
    rank: (string, FtsRow) -> Option<real>,
    distance: (seq<real>, seq<real>) -> Option<real>)

  /** Inserts a record, updating the full-text index in the same step. The
      kind's CHECK constraint is checked before the primary key, as the
      engine does. On failure nothing changes. */
  function InsertMemory(
    st: Store, id: string, typeName: string, timestamp: int, fileRefs: seq<string>,
    summary: string, raw: string, tags: seq<string>, embedding: Option<seq<real>>): (r: Result<Store, StoreError>)
    ensures ParseType(typeName).None? ==> r == Failure(InvalidType(typeName))
    ensures ParseType(typeName).Some? && id in st.records ==> r == Failure(DuplicateId(id))
    ensures r.Success? <==> ParseType(typeName).Some? && id !in st.records
    ensures r.Success? ==> r.value.records.Keys == st.records.Keys + {id}
    ensures r.Success? ==> forall k | k in st.records :: r.value.records[k] == st.records[k]
    ensures r.Success? ==>
      r.value.records[id] == MemoryEntry(id, timestamp, fileRefs, summary, raw, tags, ParseType(typeName).value, embedding)
  {
    match ParseType(typeName)
    case None => Failure(InvalidType(typeName))
    case Some(kind) =>
      if id in st.records then Failure(DuplicateId(id))
      else
        var e := MemoryEntry(id, timestamp, fileRefs, summary, raw, tags, kind, embedding);
        Success(Store(st.records[id := e], st.rowOrder + [id], st.fts[id := IndexedColumns(e)]))
  }

  /** Insertion keeps the store invariant, in particular the full-text index. */
  lemma InsertPreservesValid(
    st: Store, id: string, typeName: string, timestamp: int, fileRefs: seq<string>,
    summary: string, raw: string, tags: seq<string>, embedding: Option<seq<real>>)
    requires Valid(st)
    requires InsertMemory(st, id, typeName, timestamp, fileRefs, summary, raw, tags, embedding).Success?
    ensures Valid(InsertMemory(st, id, typeName, timestamp, fileRefs, summary, raw, tags, embedding).value)
  {
    var e := MemoryEntry(id, timestamp, fileRefs, summary, raw, tags, ParseType(typeName).value, embedding);
    assert InsertMemory(st, id, typeName, timestamp, fileRefs, summary, raw, tags, embedding).value
        == Store(st.records[id := e], st.rowOrder + [id], st.fts[id := IndexedColumns(e)]);
    AddedKeepsValid(st, e);
  }

  /** Adding a record under its own, new id, at the end of the rowid order
      and in the index, keeps the store invariant. */
  lemma AddedKeepsValid(st: Store, e: MemoryEntry)
    requires Valid(st) && e.id !in st.records
    ensures Valid(Store(st.records[e.id := e], st.rowOrder + [e.id], st.fts[e.id := IndexedColumns(e)]))
  {
    var st' := Store(st.records[e.id := e], st.rowOrder + [e.id], st.fts[e.id := IndexedColumns(e)]);
    assert Distinct(st'.rowOrder) by {
      DistinctSnoc(st.rowOrder, e.id);
    }
    assert forall k | k in st'.records :: k in st'.rowOrder by {
      assert forall k | k in st.rowOrder :: k in st'.rowOrder;
    }
    assert st'.fts == LexicalView(st'.records);
  }

  /** `getById`: the record stored under `id`, or None. */
  function GetById(st: Store, id: string): (r: Option<MemoryEntry>)
    ensures r.Some? <==> id in st.records
    ensures r.Some? ==> r.value == st.records[id]
  {
    if id in st.records then Some(st.records[id]) else None
  }

  /** Round trip: a successful insert is read back equal in every field,
      embedding included. */
  lemma InsertThenGet(
    st: Store, id: string, typeName: string, timestamp: int, fileRefs: seq<string>,
    summary: string, raw: string, tags: seq<string>, embedding: Option<seq<real>>)
    requires ParseType(typeName).Some? && id !in st.records
    ensures var r := InsertMemory(st, id, typeName, timestamp, fileRefs, summary, raw, tags, embedding);
      && r.Success?
      && GetById(r.value, id)
         == Some(MemoryEntry(id, timestamp, fileRefs, summary, raw, tags, ParseType(typeName).value, embedding))
  {
  }

  /** `m` without the keys in `gone`. */
  function Remaining<V>(m: map<string, V>, gone: set<string>): (r: map<string, V>)
    ensures r.Keys == m.Keys - gone
    ensures forall k | k in r :: r[k] == m[k]
  {
    map k | k in m && k !in gone :: m[k]
  }

  datatype Deletion = Deletion(store: Store, changes: nat)

  /** `deleteByIds`: removes every listed id that is present, together with
      its index row, and reports how many rows went. */
  function DeleteByIds(st: Store, ids: seq<string>): (r: Deletion)
    ensures |ids| == 0 ==> r == Deletion(st, 0)
    ensures r.store.records.Keys == st.records.Keys - ToSet(ids)
    ensures forall k | k in r.store.records :: r.store.records[k] == st.records[k]
    ensures r.changes == |st.records.Keys * ToSet(ids)|
    ensures r.changes == |st.records| - |r.store.records|
  {
    if |ids| == 0 then Deletion(st, 0)
    else
      var gone := ToSet(ids);
      var records' := Remaining(st.records, gone);
      var removed := st.records.Keys * gone;
      assert st.records.Keys == records'.Keys + removed;
      assert records'.Keys * removed == {};
      Deletion(Store(records', Without(st.rowOrder, gone), Remaining(st.fts, gone)), |removed|)
  }

  lemma DeletePreservesValid(st: Store, ids: seq<string>)
    requires Valid(st)
    ensures Valid(DeleteByIds(st, ids).store)
  {
    if |ids| > 0 {
      RemovalKeepsValid(st, ToSet(ids));
    }
  }

  /** Removing a set of ids from the records, the row order and the index
      together keeps the store invariant. */
  lemma RemovalKeepsValid(st: Store, gone: set<string>)
    requires Valid(st)
    ensures Valid(Store(Remaining(st.records, gone), Without(st.rowOrder, gone), Remaining(st.fts, gone)))
  {
    var records := Remaining(st.records, gone);
    var order := Without(st.rowOrder, gone);
    assert Remaining(st.fts, gone) == LexicalView(records) by {
      RemainingView(st.records, st.fts, gone);
    }
    assert forall i | 0 <= i < |order| :: order[i] in records by {
      forall i | 0 <= i < |order| ensures order[i] in records {
        assert order[i] in st.rowOrder;
      }
    }
  }

  /** Removing keys from the records and from their index alike keeps the
      index the records' view. */
  lemma RemainingView(records: map<string, MemoryEntry>, fts: map<string, FtsRow>, gone: set<string>)
    requires fts == LexicalView(records)
    ensures Remaining(fts, gone) == LexicalView(Remaining(records, gone))
  {
  }

  /** Deleting an id that is absent removes nothing and changes nothing. */
  lemma DeleteMissing(st: Store, ids: seq<string>)
    requires Valid(st)
    requires forall k | k in ids :: k !in st.records
    ensures DeleteByIds(st, ids) == Deletion(st, 0)
  {
    if |ids| > 0 {
      var gone := ToSet(ids);
      assert st.records.Keys * gone == {};
      assert st.fts.Keys == st.records.Keys;
      assert Remaining(st.records, gone) == st.records;
      assert Remaining(st.fts, gone) == st.fts;
      WithoutNothing(st.rowOrder, gone);
      assert DeleteByIds(st, ids) == Deletion(Store(Remaining(st.records, gone), Without(st.rowOrder, gone), Remaining(st.fts, gone)), 0);
    }
  }

  lemma {:induction false} WithoutNothing(s: seq<string>, gone: set<string>)
    requires forall k | k in s :: k !in gone
    ensures Without(s, gone) == s
  {
    if |s| > 0 {
      WithoutNothing(s[1..], gone);
      assert s == [s[0]] + s[1..];
    }
  }

  /** Deleting one present id twice: the first call removes one row, the
      second removes none. */
  lemma DeleteTwice(st: Store, id: string)
    requires Valid(st) && id in st.records
    ensures DeleteByIds(st, [id]).changes == 1
    ensures DeleteByIds(DeleteByIds(st, [id]).store, [id]).changes == 0
  {
    assert ToSet([id]) == {id};
    assert st.records.Keys * {id} == {id};
    var st' := DeleteByIds(st, [id]).store;
    assert st'.records.Keys * {id} == {};
  }

  /** The kind filter is applied only when a non-empty list is given. */
  predicate PassesFilter(types: Option<seq<MemoryType>>, t: MemoryType) {
    types.None? || |types.value| == 0 || t in types.value
  }

  /** The query the full-text engine receives: quotes removed, then trimmed.
      The result is the quote-free text with its surrounding whitespace
      cut off, and it is empty exactly when that text is all whitespace. */
  function SanitizeQuery(query: string): (q: string)
    ensures forall i | 0 <= i < |q| :: !IsQuote(q[i])
    ensures TrimmedFrom(StripQuotes(query), q)
    ensures q == [] <==> AllSpace(StripQuotes(query))
  {
    var stripped := StripQuotes(query);
    TrimKeepsQuoteFree(stripped);
    Trim(stripped)
  }

  /** The rank a record receives for a sanitised query, when it matches and
      passes the kind filter. */
  function LexicalScore(st: Store, backend: SearchBackend, q: string, types: Option<seq<MemoryType>>, k: string): Option<real> {
    if k in st.records && k in st.fts && PassesFilter(types, st.records[k].kind)
    then backend.rank(q, st.fts[k])
    else None
  }

  /** The rank of every record, as one function of the id. */
  function LexicalScores(st: Store, backend: SearchBackend, q: string, types: Option<seq<MemoryType>>): string -> Option<real> {
    k => LexicalScore(st, backend, q, types, k)
  }

  /** `ftsSearch`: the `limit` best-ranked matching records in ascending rank
      order, or nothing for a query that is blank once quotes are removed. */
  function FtsSearch(st: Store, backend: SearchBackend, query: string, limit: int, types: Option<seq<MemoryType>>)
    : (r: Result<seq<Scored>, StoreError>)
    requires Valid(st)
    ensures SanitizeQuery(query) == [] ==> r == Success([])
    ensures r.Failure? <==> SanitizeQuery(query) != [] && !backend.accepts(SanitizeQuery(query))
    ensures r.Success? ==> SortedBy(Ascending, r.value) && Distinct(Ids(r.value))
    ensures r.Success? && 0 <= limit ==> |r.value| <= limit
    ensures r.Success? ==> forall x | x in r.value ::
      && x.id in st.records
      && PassesFilter(types, st.records[x.id].kind)
      && backend.rank(SanitizeQuery(query), IndexedColumns(st.records[x.id])) == Some(x.score)
    ensures r.Success? && SanitizeQuery(query) != [] ==> forall k | k in st.records ::
      PassesFilter(types, st.records[k].kind) && backend.rank(SanitizeQuery(query), IndexedColumns(st.records[k])).Some?
      ==> k in Ids(r.value)
          || (|r.value| == limit
              && forall x | x in r.value :: x.score <= backend.rank(SanitizeQuery(query), IndexedColumns(st.records[k])).value)
  {
    var q := SanitizeQuery(query);
    if q == [] then Success([])
    else if !backend.accepts(q) then Failure(MalformedQuery(q))
    else
      var f := LexicalScores(st, backend, q, types);
      var r := Top(st.rowOrder, f, limit);
      assert forall k | k in st.records :: k in st.rowOrder && f(k) == LexicalScore(st, backend, q, types, k);
      Success(r)
  }

  /** A record the vector query should scan: it has an embedding and passes
      the filter. */
  predicate Scanned(st: Store, types: Option<seq<MemoryType>>, k: string) {
    k in st.records && st.records[k].embedding.Some? && PassesFilter(types, st.records[k].kind)
  }

  /** A value bound to a statement parameter: a kind name, the query vector
      as a blob, or the row limit. */
  datatype SqlValue = SqlText(text: string) | SqlVector(vector: seq<real>) | SqlInt(n: int)

  /** The statement carries a `type IN (…)` clause exactly when a non-empty
      kind list is given. */
  predicate Filtered(types: Option<seq<MemoryType>>) {
    types.Some? && |types.value| > 0
  }

  /** The kind names, one parameter per kind. */
  function KindValues(ts: seq<MemoryType>): (r: seq<SqlValue>)
    ensures |r| == |ts|
    ensures forall i | 0 <= i < |ts| :: r[i] == SqlText(TypeName(ts[i]))
  {
    if ts == [] then [] else [SqlText(TypeName(ts[0]))] + KindValues(ts[1..])
  }

  /** A kind's name is among the bound names exactly when the kind is listed. */
  lemma KindValuesMember(ts: seq<MemoryType>, t: MemoryType)
    ensures SqlText(TypeName(t)) in KindValues(ts) <==> t in ts
  {
    if SqlText(TypeName(t)) in KindValues(ts) {
      var i :| 0 <= i < |ts| && KindValues(ts)[i] == SqlText(TypeName(t));
      ParseTypeName(t);
      ParseTypeName(ts[i]);
      assert ts[i] == t;
    }
    if t in ts {
      var i :| 0 <= i < |ts| && ts[i] == t;
      assert KindValues(ts)[i] == SqlText(TypeName(t));
    }
  }

  /** The parameter list `vectorSearch` passes: the kinds first, then the
      query blob, then the limit. */
  function VectorArgs(queryVector: seq<real>, limit: int, types: Option<seq<MemoryType>>): seq<SqlValue> {
    if Filtered(types) then KindValues(types.value) + [SqlVector(queryVector), SqlInt(limit)]
    else [SqlVector(queryVector), SqlInt(limit)]
  }

  /** The parameter list in the order the statement's placeholders appear:
      the query blob, then the kinds, then the limit. */
  function VectorArgsBound(queryVector: seq<real>, limit: int, types: Option<seq<MemoryType>>): seq<SqlValue> {
    [SqlVector(queryVector)] + (if Filtered(types) then KindValues(types.value) else []) + [SqlInt(limit)]
  }

  /** Where each parameter of the vector statement lands: the operand of
      `vec_distance_cosine`, the `type IN (…)` list when there is one, and
      the `LIMIT`. */
  datatype VectorBinding = VectorBinding(operand: SqlValue, inList: Option<seq<SqlValue>>, limit: SqlValue)

  /** SQLite numbers anonymous `?` parameters in the order they appear in
      the statement text and binds the i-th value to the i-th of them: the
      first value is the distance operand, the last is the limit, and the
      ones between fill the `IN` list. */
  function BindVector(filtered: bool, args: seq<SqlValue>): (b: VectorBinding)
    requires 2 <= |args|
    ensures b.operand == args[0] && b.limit == args[|args| - 1]
    ensures b.inList.Some? <==> filtered
    ensures filtered ==> b.inList.value == args[1..|args| - 1]
  {
    VectorBinding(args[0], if filtered then Some(args[1..|args| - 1]) else None, args[|args| - 1])
  }

  /** A row the statement's `WHERE` clause keeps. A stored kind is text, so
      it never equals a blob in the `IN` list. */
  predicate Selected(st: Store, inList: Option<seq<SqlValue>>, k: string) {
    && k in st.records
    && st.records[k].embedding.Some?
    && (inList.None? || SqlText(TypeName(st.records[k].kind)) in inList.value)
  }

  /** `vec_distance_cosine` of a row's embedding and the operand. A kind
      name is not a vector the extension can read, so the call fails. */
  function RowDistance(st: Store, backend: SearchBackend, operand: SqlValue, k: string): Option<real>
    requires k in st.records && st.records[k].embedding.Some?
  {
    if operand.SqlVector? then backend.distance(st.records[k].embedding.value, operand.vector) else None
  }

  /** The distance of every selected row; None for the others. */
  function RowScore(st: Store, backend: SearchBackend, b: VectorBinding, k: string): Option<real> {
    if Selected(st, b.inList, k) then RowDistance(st, backend, b.operand, k) else None
  }

  /** Some selected row's distance cannot be computed. */
  predicate AnyDistanceFails(st: Store, backend: SearchBackend, b: VectorBinding, order: seq<string>) {
    exists i | 0 <= i < |order| ::
      Selected(st, b.inList, order[i]) && RowDistance(st, backend, b.operand, order[i]).None?
  }

  /** The vector statement run with a given binding: the `limit` selected
      rows nearest the operand in ascending distance order; None when a
      distance fails (the engine throws). */
  function RunVectorStatement(st: Store, backend: SearchBackend, b: VectorBinding): (r: Option<seq<Scored>>)
    requires Valid(st) && b.limit.SqlInt?
    ensures r.None? <==> exists k | k in st.records :: Selected(st, b.inList, k) && RowDistance(st, backend, b.operand, k).None?
    ensures r.Some? ==> SortedBy(Ascending, r.value) && Distinct(Ids(r.value))
    ensures r.Some? && 0 <= b.limit.n ==> |r.value| <= b.limit.n
    ensures r.Some? ==> forall x | x in r.value ::
      Selected(st, b.inList, x.id) && RowDistance(st, backend, b.operand, x.id) == Some(x.score)
    ensures r.Some? ==> forall k | Selected(st, b.inList, k) ::
      k in Ids(r.value)
      || (|r.value| == b.limit.n
          && forall x | x in r.value :: x.score <= RowDistance(st, backend, b.operand, k).value)
  {
    if AnyDistanceFails(st, backend, b, st.rowOrder) then
      None
    else
      var f := k => RowScore(st, backend, b, k);
      var r := Top(st.rowOrder, f, b.limit.n);
      assert forall k | k in st.records :: k in st.rowOrder && f(k) == RowScore(st, backend, b, k);
      Some(r)
  }

  /** `vectorSearch` as the source binds it. Without a kind filter it is the
      nearest-neighbour search. With one, the first kind name lands on the
      distance operand and the query blob inside the `IN` list: only rows of
      the other listed kinds are kept, and each of those makes the distance
      fail, so the search fails when such a row has an embedding and finds
      nothing otherwise. */
  function VectorSearch(st: Store, backend: SearchBackend, queryVector: seq<real>, limit: int, types: Option<seq<MemoryType>>)
    : (r: Option<seq<Scored>>)
    requires Valid(st)
    ensures !Filtered(types) ==> r == VectorSearchBound(st, backend, queryVector, limit, types)
    ensures Filtered(types) ==>
      (r.None? <==> exists k | k in st.records :: st.records[k].embedding.Some? && st.records[k].kind in types.value[1..])
    ensures Filtered(types) && r.Some? ==> r.value == []
    ensures r.Some? ==> forall x | x in r.value :: Scanned(st, types, x.id)
  {
    var args := VectorArgs(queryVector, limit, types);
    var r := RunVectorStatement(st, backend, BindVector(Filtered(types), args));
    if Filtered(types) then
      ShiftedSearch(st, backend, queryVector, limit, types.value);
      r
    else
      assert args == VectorArgsBound(queryVector, limit, types);
      r
  }

  /** As bound in the source, a filtered search keeps only rows of the kinds
      listed after the first, and each of them makes the distance fail. */
  lemma ShiftedSearch(st: Store, backend: SearchBackend, queryVector: seq<real>, limit: int, ts: seq<MemoryType>)
    requires Valid(st) && |ts| > 0
    ensures var r := RunVectorStatement(st, backend, BindVector(true, VectorArgs(queryVector, limit, Some(ts))));
      && (r.None? <==> exists k | k in st.records :: st.records[k].embedding.Some? && st.records[k].kind in ts[1..])
      && (r.Some? ==> r.value == [])
  {
    var b := BindVector(true, VectorArgs(queryVector, limit, Some(ts)));
    var r := RunVectorStatement(st, backend, b);
    forall k | k in st.records
      ensures Selected(st, b.inList, k) <==> st.records[k].embedding.Some? && st.records[k].kind in ts[1..]
    {
      ShiftedSelection(st, queryVector, limit, ts, k);
    }
  }

  /** As bound in the source, the filtered statement keeps the rows whose
      kind is listed after the first. */
  lemma ShiftedSelection(st: Store, queryVector: seq<real>, limit: int, ts: seq<MemoryType>, k: string)
    requires |ts| > 0 && k in st.records
    ensures Selected(st, BindVector(true, VectorArgs(queryVector, limit, Some(ts))).inList, k)
            <==> st.records[k].embedding.Some? && st.records[k].kind in ts[1..]
  {
    var args := VectorArgs(queryVector, limit, Some(ts));
    var inList := args[1..|args| - 1];
    assert inList == KindValues(ts[1..]) + [SqlVector(queryVector)];
    KindValuesMember(ts[1..], st.records[k].kind);
  }

  /** Bound in text order, the filtered statement keeps exactly the rows
      that pass the kind filter. */
  lemma BoundSelection(st: Store, queryVector: seq<real>, limit: int, types: Option<seq<MemoryType>>, k: string)
    ensures Selected(st, BindVector(Filtered(types), VectorArgsBound(queryVector, limit, types)).inList, k)
            <==> Scanned(st, types, k)
  {
    if Filtered(types) && k in st.records {
      var args := VectorArgsBound(queryVector, limit, types);
      assert args[1..|args| - 1] == KindValues(types.value);
      KindValuesMember(types.value, st.records[k].kind);
    }
  }

  lemma BoundSelectsScanned(st: Store, queryVector: seq<real>, limit: int, types: Option<seq<MemoryType>>)
    ensures forall k ::
      Selected(st, BindVector(Filtered(types), VectorArgsBound(queryVector, limit, types)).inList, k) <==> Scanned(st, types, k)
  {
    forall k {
      BoundSelection(st, queryVector, limit, types, k);
    }
  }

  /** `vectorSearch` with its parameters bound in the order the statement
      names them: the `limit` nearest records that have an embedding and
      pass the kind filter, in ascending distance order; None when the
      engine rejects a distance. */
  function VectorSearchBound(st: Store, backend: SearchBackend, queryVector: seq<real>, limit: int, types: Option<seq<MemoryType>>)
    : (r: Option<seq<Scored>>)
    requires Valid(st)
    ensures r.None? <==> exists k | k in st.records :: Scanned(st, types, k) && backend.distance(st.records[k].embedding.value, queryVector).None?
    ensures r.Some? ==> SortedBy(Ascending, r.value) && Distinct(Ids(r.value))
    ensures r.Some? && 0 <= limit ==> |r.value| <= limit
    ensures r.Some? ==> forall x | x in r.value ::
      && x.id in st.records
      && st.records[x.id].embedding.Some?
      && PassesFilter(types, st.records[x.id].kind)
      && backend.distance(st.records[x.id].embedding.value, queryVector) == Some(x.score)
    ensures r.Some? ==> forall k | Scanned(st, types, k) ::
      k in Ids(r.value)
      || (|r.value| == limit
          && forall x | x in r.value :: x.score <= backend.distance(st.records[k].embedding.value, queryVector).value)
  {
    var args := VectorArgsBound(queryVector, limit, types);
    var b := BindVector(Filtered(types), args);
    BoundSelectsScanned(st, queryVector, limit, types);
    RunVectorStatement(st, backend, b)
  }

  /** The ids of a list of records. */
  function EntryIds(es: seq<MemoryEntry>): (r: seq<string>)
    ensures |r| == |es|
    ensures forall i | 0 <= i < |es| :: r[i] == es[i].id
  {
    if |es| == 0 then [] else [es[0].id] + EntryIds(es[1..])
  }

  /** The records listed in `order` whose id is in `wanted`, in that order. */
  function Fetch(records: map<string, MemoryEntry>, order: seq<string>, wanted: set<string>): (r: seq<MemoryEntry>)
    ensures forall e | e in r :: exists k | k in order :: k in wanted && k in records && records[k] == e
    ensures forall k | k in order && k in wanted && k in records :: records[k] in r
    ensures (forall k | k in order :: k in records && records[k].id == k) ==> EntryIds(r) == Keep(order, wanted)
  {
    if |order| == 0 then []
    else
      var rest := Fetch(records, order[1..], wanted);
      if order[0] in wanted && order[0] in records then
        assert EntryIds([records[order[0]]] + rest) == [records[order[0]].id] + EntryIds(rest);
        [records[order[0]]] + rest
      else rest
  }

  lemma {:induction false} FetchDistinct(st: Store, order: seq<string>, wanted: set<string>)
    requires Valid(st) && Distinct(order)
    ensures forall i, j | 0 <= i < j < |Fetch(st.records, order, wanted)| ::
      Fetch(st.records, order, wanted)[i].id != Fetch(st.records, order, wanted)[j].id
  {
    if |order| > 0 {
      DistinctCons(order[0], order[1..]);
      assert order == [order[0]] + order[1..];
      FetchDistinct(st, order[1..], wanted);
      var rest := Fetch(st.records, order[1..], wanted);
      forall e | e in rest ensures e.id != order[0] {
        var k :| k in order[1..] && k in wanted && k in st.records && st.records[k] == e;
      }
    }
  }

  /** `getAllByIds`: exactly the stored records whose id is listed, each
      once, in rowid order (not the order of `ids`). */
  function GetAllByIds(st: Store, ids: seq<string>): (r: seq<MemoryEntry>)
    requires Valid(st)
    ensures |ids| == 0 ==> r == []
    ensures forall e | e in r :: e.id in ids && e.id in st.records && st.records[e.id] == e
    ensures forall k | k in ids && k in st.records :: st.records[k] in r
    ensures forall i, j | 0 <= i < j < |r| :: r[i].id != r[j].id
    ensures EntryIds(r) == Keep(st.rowOrder, ToSet(ids))
  {
    if |ids| == 0 then
      assert ToSet(ids) == {};
      KeepNothing(st.rowOrder);
      []
    else
      FetchDistinct(st, st.rowOrder, ToSet(ids));
      Fetch(st.records, st.rowOrder, ToSet(ids))
  }

  /** The number of records of kind `t`. */
  function CountOfType(st: Store, t: MemoryType): nat {
    |OfKind(st, t)|
  }

  /** The ids of the records of kind `t`. */
  function OfKind(st: Store, t: MemoryType): (r: set<string>)
    ensures forall k :: k in r <==> k in st.records && st.records[k].kind == t
  {
    set k | k in st.records && st.records[k].kind == t
  }

  datatype Stats = Stats(total: nat, byType: map<MemoryType, nat>)

  /** `getStats`: the record count, and a count per kind for the kinds that
      occur (GROUP BY yields no row for an absent kind). */
  function GetStats(st: Store): (r: Stats)
    ensures r.total == |st.records|
    ensures forall t :: t in r.byType <==> CountOfType(st, t) > 0
    ensures forall t | t in r.byType :: r.byType[t] == CountOfType(st, t)
  {
    Stats(|st.records|, map t | t in AllTypes && CountOfType(st, t) > 0 :: CountOfType(st, t))
  }

  /** The count of kind `t` in a stats reply (0 for a kind with no row). */
  function CountIn(s: Stats, t: MemoryType): nat {
    if t in s.byType then s.byType[t] else 0
  }

  /** The per-kind counts add up to the total. */
  lemma StatsSumToTotal(st: Store)
    ensures var s := GetStats(st);
      CountIn(s, SessionMemory) + CountIn(s, LongTermMemory) + CountIn(s, ProjectMemory) == s.total
  {
    var a, b, c := OfKind(st, SessionMemory), OfKind(st, LongTermMemory), OfKind(st, ProjectMemory);
    var s := GetStats(st);
    assert CountIn(s, SessionMemory) + CountIn(s, LongTermMemory) + CountIn(s, ProjectMemory) == |a| + |b| + |c| by {
      assert CountIn(s, SessionMemory) == |a|;
      assert CountIn(s, LongTermMemory) == |b|;
      assert CountIn(s, ProjectMemory) == |c|;
    }
    assert forall k | k in st.records.Keys :: k in a || k in b || k in c by {
      forall k | k in st.records.Keys ensures k in a || k in b || k in c {
        match st.records[k].kind
        case SessionMemory => assert k in a;
        case LongTermMemory => assert k in b;
        case ProjectMemory => assert k in c;
      }
    }
    PartitionSize(st.records.Keys, a, b, c);
  }

  /** Three pairwise disjoint parts that cover a set add up to its size. */
  lemma PartitionSize(all: set<string>, a: set<string>, b: set<string>, c: set<string>)
    requires forall k | k in all :: k in a || k in b || k in c
    requires a <= all && b <= all && c <= all
    requires forall k | k in a :: k !in b && k !in c
    requires forall k | k in b :: k !in c
    ensures |all| == |a| + |b| + |c|
  {
    assert all == a + b + c;
    DisjointUnionSize(a, b);
    DisjointUnionSize(a + b, c);
  }

  lemma DisjointUnionSize(a: set<string>, b: set<string>)
    requires a * b == {}
    ensures |a + b| == |a| + |b|
  {
  }

  /** Deleting reduces the stats total by exactly the reported count. */
  lemma DeleteReducesTotal(st: Store, ids: seq<string>)
    ensures GetStats(DeleteByIds(st, ids).store).total == GetStats(st).total - DeleteByIds(st, ids).changes
  {
  }
}

/** A one-record store on which a kind filter hides a record from the vector
    search. Record "c" is a session memory with an embedding, and every
    distance the engine computes succeeds. Filtering on session memories,
    the search as bound in the source finds nothing while the search bound
    in statement order finds "c"; filtering on two kinds makes the source's
    search fail outright. */
module KindFilter {
  import opened Wrappers
  import opened Seqs
  import opened MemoryTypes
  import opened Ranking
  import opened MemoryStore
  import opened Hybrid
  import opened Embeddings

  const RecordC: MemoryEntry := MemoryEntry("c", 1, [], "", "gamma", [], SessionMemory, Some([1.0]))

  const Single: Store := Store(map["c" := RecordC], ["c"], map["c" := IndexedColumns(RecordC)])

  /** An engine that matches no text and computes every distance as 0. */
  const Near: SearchBackend := SearchBackend(q => true, (q, row: FtsRow) => None, (x, y) => Some(0.0))

  const QueryVector: seq<real> := [1.0]

  lemma SingleValid()
    ensures Valid(Single)
  {
    assert LexicalView(Single.records) == Single.fts;
  }

  /** Bound in statement order, the search finds the one record. */
  lemma BoundFindsRecord(types: Option<seq<MemoryType>>)
    requires types == Some([SessionMemory]) || types == Some([ProjectMemory, SessionMemory])
    ensures Valid(Single)
    ensures VectorSearchBound(Single, Near, QueryVector, 1, types) == Some([Scored("c", 0.0)])
  {
    SingleValid();
    assert Single.records.Keys == {"c"};
    assert Scanned(Single, types, "c");
    NearestOfOne(Single, Near, QueryVector, types, "c", 0.0);
  }

  /** A store of one scanned record whose distance succeeds: the search
      bound in statement order returns that record. */
  lemma NearestOfOne(st: Store, backend: SearchBackend, q: seq<real>, types: Option<seq<MemoryType>>, k: string, d: real)
    requires Valid(st) && st.records.Keys == {k} && Scanned(st, types, k)
    requires backend.distance(st.records[k].embedding.value, q) == Some(d)
    ensures VectorSearchBound(st, backend, q, 1, types) == Some([Scored(k, d)])
  {
    var r := VectorSearchBound(st, backend, q, 1, types);
    assert forall j | j in st.records :: j == k;
    assert r.Some?;
    var v := r.value;
    assert k in Ids(v) || |v| == 1;
    assert |v| == 1;
    var x := v[0];
    assert x in v;
    assert x.id == k;
    assert v == [Scored(k, d)];
  }

  /** As the source binds it, filtering on the record's own kind finds
      nothing, where the search bound in statement order finds the record. */
  lemma OneKindFindsNothing()
    ensures Valid(Single)
    ensures VectorSearch(Single, Near, QueryVector, 1, Some([SessionMemory])) == Some([])
    ensures VectorSearchBound(Single, Near, QueryVector, 1, Some([SessionMemory])) == Some([Scored("c", 0.0)])
  {
    BoundFindsRecord(Some([SessionMemory]));
    var r := VectorSearch(Single, Near, QueryVector, 1, Some([SessionMemory]));
    assert [SessionMemory][1..] == [];
    assert r.Some?;
  }

  /** As the source binds it, filtering on two kinds makes the search fail:
      the record's kind is listed second, and its distance is taken against
      the first kind's name. */
  lemma TwoKindsFail()
    ensures Valid(Single)
    ensures VectorSearch(Single, Near, QueryVector, 1, Some([ProjectMemory, SessionMemory])).None?
    ensures VectorSearchBound(Single, Near, QueryVector, 1, Some([ProjectMemory, SessionMemory])) == Some([Scored("c", 0.0)])
  {
    BoundFindsRecord(Some([ProjectMemory, SessionMemory]));
    assert [ProjectMemory, SessionMemory][1..] == [SessionMemory];
    assert Single.records["c"].kind in [ProjectMemory, SessionMemory][1..];
  }

  /** A retrieval filtered on session memories returns nothing, although
      the one record is a session memory the vector search can reach. */
  lemma TypedRetrievalMissesRecord()
    ensures Valid(Single)
    ensures RetrieveRelevantMemory(Single, Near, q => Some(QueryVector), "gamma", RetrieveOptions(None, Some([SessionMemory])))
         == Success([])
  {
    SingleValid();
    NoTextMatchNoResult(Single, Near, q => Some(QueryVector), "gamma", RetrieveOptions(None, Some([SessionMemory])));
  }

  /** Under a kind filter, with an engine that accepts every query and
      matches no text, retrieval returns nothing, whatever the embeddings
      say. */
  lemma NoTextMatchNoResult(st: Store, backend: SearchBackend, embed: Embedder, query: string, opts: RetrieveOptions)
    requires Valid(st) && Filtered(opts.types)
    requires forall q :: backend.accepts(q)
    requires forall q, row :: backend.rank(q, row).None?
    ensures RetrieveRelevantMemory(st, backend, embed, query, opts) == Success([])
  {
    var limit := EffectiveLimit(opts);
    NoTextMatchNoHits(st, backend, query, 2 * limit, opts.types);
    FilteredNoHitsNoRanking(st, backend, embed, query, opts);
    var top := FusedTop(st, backend, embed, query, opts);
    assert ToSet(Ids(top.value)) == {};
    KeepNothing(st.rowOrder);
  }

  lemma NoTextMatchNoHits(st: Store, backend: SearchBackend, query: string, limit: int, types: Option<seq<MemoryType>>)
    requires Valid(st)
    requires forall q :: backend.accepts(q)
    requires forall q, row :: backend.rank(q, row).None?
    ensures FtsSearch(st, backend, query, limit, types) == Success([])
  {
  }

  lemma FilteredNoHitsNoRanking(st: Store, backend: SearchBackend, embed: Embedder, query: string, opts: RetrieveOptions)
    requires Valid(st) && Filtered(opts.types)
    requires FtsSearch(st, backend, query, 2 * EffectiveLimit(opts), opts.types) == Success([])
    ensures FusedTop(st, backend, embed, query, opts) == Success([])
  {
    var c := Candidates([], []);
    assert Ids(c) == [];
  }
}

/** A two-record store on which `retrieveRelevantMemory` returns its records
    in rowid order rather than in fused-rank order. Record "a" is stored
    before "b"; "b" has the better (lower) lexical rank and no vector side
    exists, so "b" ranks first, yet the retrieval lists "a" first. */
module FetchOrder {
  import opened Wrappers
  import opened Seqs
  import opened Text
  import opened MemoryTypes
  import opened Ranking
  import opened MemoryStore
  import opened Hybrid
  import opened Embeddings

  const RecordA: MemoryEntry := MemoryEntry("a", 1, [], "", "alpha", [], LongTermMemory, None)
  const RecordB: MemoryEntry := MemoryEntry("b", 2, [], "", "beta", [], LongTermMemory, None)

  const Example: Store :=
    Store(map["a" := RecordA, "b" := RecordB], ["a", "b"],
          map["a" := IndexedColumns(RecordA), "b" := IndexedColumns(RecordB)])

  /** A full-text engine that parses every query and ranks "beta" ahead of
      "alpha"; no distance is ever computed. */
  const Engine: SearchBackend :=
    SearchBackend(
      q => true,
      (q, row: FtsRow) => if row.raw == "alpha" then Some(2.0) else if row.raw == "beta" then Some(1.0) else None,
      (x, y) => None)

  /** A provider that cannot embed anything. */
  const NoEmbedding: Embedder := q => None

  const Query: string := "x"
  const Defaults: RetrieveOptions := RetrieveOptions(None, None)

  lemma ExampleValid()
    ensures Valid(Example)
  {
    assert LexicalView(Example.records) == Example.fts;
  }

  lemma QueryNotBlank()
    ensures SanitizeQuery(Query) != []
  {
    assert StripQuotes(Query) == Query;
    assert !IsSpace(Query[0]);
    assert !AllSpace(Query);
  }

  /** The engine ranks "b" at 1.0 and "a" at 2.0 for the example query. */
  lemma ExampleScores()
    ensures LexicalScores(Example, Engine, SanitizeQuery(Query), None)("a") == Some(2.0)
    ensures LexicalScores(Example, Engine, SanitizeQuery(Query), None)("b") == Some(1.0)
  {
    assert "a" != "b" by {
      assert "a"[0] != "b"[0];
    }
    assert Example.records["a"] == RecordA && Example.fts["a"] == IndexedColumns(RecordA);
    assert Example.records["b"] == RecordB && Example.fts["b"] == IndexedColumns(RecordB);
  }

  lemma ExampleSelect()
    ensures Select(["a", "b"], LexicalScores(Example, Engine, SanitizeQuery(Query), None))
         == [Scored("a", 2.0), Scored("b", 1.0)]
  {
    ExampleScores();
    SelectBoth("a", "b", LexicalScores(Example, Engine, SanitizeQuery(Query), None), 2.0, 1.0);
  }

  /** Two ids that both score are both selected, in order. */
  lemma SelectBoth(a: string, b: string, f: string -> Option<real>, x: real, y: real)
    requires f(a) == Some(x) && f(b) == Some(y)
    ensures Select([a, b], f) == [Scored(a, x), Scored(b, y)]
  {
    assert Select([b], f) == [Scored(b, y)] by {
      assert [b][1..] == [];
    }
    assert [a, b][1..] == [b];
  }

  lemma ExampleSort()
    ensures Sort(Ascending, [Scored("a", 2.0), Scored("b", 1.0)]) == [Scored("b", 1.0), Scored("a", 2.0)]
  {
    assert Sort(Ascending, [Scored("b", 1.0)]) == [Scored("b", 1.0)];
    assert [Scored("a", 2.0), Scored("b", 1.0)][1..] == [Scored("b", 1.0)];
  }

  lemma ExampleTop()
    ensures Top(["a", "b"], LexicalScores(Example, Engine, SanitizeQuery(Query), None), 20)
         == [Scored("b", 1.0), Scored("a", 2.0)]
  {
    ExampleSelect();
    ExampleSort();
  }

  /** The lexical search ranks "b" ahead of "a". */
  lemma ExampleLexical()
    ensures Valid(Example)
    ensures FtsSearch(Example, Engine, Query, 20, None) == Success([Scored("b", 1.0), Scored("a", 2.0)])
  {
    ExampleValid();
    QueryNotBlank();
    ExampleTop();
  }

  /** Asked for "b" then "a", the fetch answers with "a" then "b". */
  lemma FetchIgnoresRankOrder()
    ensures Valid(Example)
    ensures EntryIds(GetAllByIds(Example, ["b", "a"])) == ["a", "b"]
  {
    ExampleValid();
    assert ToSet(["b", "a"]) == {"a", "b"};
    assert Keep(["a", "b"], {"a", "b"}) == ["a", "b"];
  }

  const Lexical: seq<Scored> := [Scored("b", 1.0), Scored("a", 2.0)]

  lemma LexicalIdsDistinct()
    ensures Ids(Lexical) == ["b", "a"] && Distinct(Ids(Lexical))
  {
    assert "b"[0] != "a"[0];
  }

  /** Normalised, "b" (the better rank) scores 1 and "a" scores 0. */
  lemma ExampleNormalized()
    ensures Normalized(Lexical) == [Scored("b", 1.0), Scored("a", 0.0)]
  {
    var scores := Scores(Lexical);
    assert scores == [1.0, 2.0];
    assert Min(scores) == 1.0;
    assert Max(scores) == 2.0;
    LexicalIdsDistinct();
  }

  lemma ExampleSideScores()
    ensures SideScore(Lexical, "b") == 1.0 && SideScore(Lexical, "a") == 0.0
    ensures SideScore([], "b") == 0.0 && SideScore([], "a") == 0.0
  {
    LexicalIdsDistinct();
    ToMapDistinct(Lexical);
    ExampleNormalized();
    LookupDistinct([Scored("b", 1.0), Scored("a", 0.0)], 0);
    LookupDistinct([Scored("b", 1.0), Scored("a", 0.0)], 1);
  }

  lemma ExampleUnion()
    ensures UnionIds(Ids(ToMap(Lexical)), Ids(ToMap([]))) == ["b", "a"]
  {
    LexicalIdsDistinct();
    ToMapDistinct(Lexical);
    assert ToMap([]) == [];
    assert Without([], ToSet(["b", "a"])) == [];
  }

  lemma ExampleCandidateIds()
    ensures |Candidates(Lexical, [])| == 2
    ensures Candidates(Lexical, [])[0].id == "b" && Candidates(Lexical, [])[1].id == "a"
  {
    ExampleUnion();
    assert Ids(Candidates(Lexical, [])) == ["b", "a"];
  }

  /** "b" is ranked only lexically, at the top: its fused score is 0.5. */
  lemma ExampleScoreB()
    requires |Candidates(Lexical, [])| == 2 && Candidates(Lexical, [])[0].id == "b"
    ensures Candidates(Lexical, [])[0].score == 0.5
  {
    ExampleSideScores();
    CandidateScoreIs(Lexical, [], 0, "b", 1.0, 0.0, 0.5);
  }

  /** "a" is ranked only lexically, at the bottom: its fused score is 0. */
  lemma ExampleScoreA()
    requires |Candidates(Lexical, [])| == 2 && Candidates(Lexical, [])[1].id == "a"
    ensures Candidates(Lexical, [])[1].score == 0.0
  {
    ExampleSideScores();
    CandidateScoreIs(Lexical, [], 1, "a", 0.0, 0.0, 0.0);
  }

  /** The fused score of the candidate at `i`, from its two side scores. */
  lemma CandidateScoreIs(lexical: seq<Scored>, vector: seq<Scored>, i: nat, id: string, l: real, v: real, mean: real)
    requires i < |Candidates(lexical, vector)| && Candidates(lexical, vector)[i].id == id
    requires SideScore(lexical, id) == l && SideScore(vector, id) == v && l + v == 2.0 * mean
    ensures Candidates(lexical, vector)[i].score == mean
  {
    var c := Candidates(lexical, vector);
    assert c[i] in c;
  }

  lemma ExampleCandidates()
    ensures Candidates(Lexical, []) == [Scored("b", 0.5), Scored("a", 0.0)]
  {
    ExampleCandidateIds();
    ExampleScoreB();
    ExampleScoreA();
  }

  lemma ExampleFusedSort()
    ensures Sort(Descending, [Scored("b", 0.5), Scored("a", 0.0)]) == [Scored("b", 0.5), Scored("a", 0.0)]
  {
    assert Sort(Descending, [Scored("a", 0.0)]) == [Scored("a", 0.0)];
    assert [Scored("b", 0.5), Scored("a", 0.0)][1..] == [Scored("a", 0.0)];
  }

  lemma ExampleRanked()
    ensures Ranked(Descending, [Scored("b", 0.5), Scored("a", 0.0)], 10) == [Scored("b", 0.5), Scored("a", 0.0)]
  {
    ExampleFusedSort();
  }

  lemma ExampleFused()
    ensures FusedRanking(Lexical, [], 10) == [Scored("b", 0.5), Scored("a", 0.0)]
  {
    ExampleCandidates();
    ExampleRanked();
  }

  lemma ExampleFusedTop()
    ensures Valid(Example)
    ensures FusedTop(Example, Engine, NoEmbedding, Query, Defaults) == Success([Scored("b", 0.5), Scored("a", 0.0)])
  {
    ExampleLexical();
    assert EffectiveLimit(Defaults) == 10;
    assert VectorSide(Example, Engine, NoEmbedding, Query, 20, None) == [];
    ExampleFused();
  }

  lemma TopPairIds()
    ensures Ids([Scored("b", 0.5), Scored("a", 0.0)]) == ["b", "a"]
  {
    assert Ids([Scored("a", 0.0)]) == ["a"];
  }

  /** The fused ranking puts "b" first. */
  lemma ExampleTopIds()
    ensures Valid(Example)
    ensures FusedTop(Example, Engine, NoEmbedding, Query, Defaults).Success?
    ensures Ids(FusedTop(Example, Engine, NoEmbedding, Query, Defaults).value) == ["b", "a"]
  {
    ExampleFusedTop();
    TopPairIds();
  }

  /** The retrieval as written lists "a" first although "b" ranks first. */
  lemma RetrievalListsRowidOrder()
    ensures Valid(Example)
    ensures RetrieveRelevantMemory(Example, Engine, NoEmbedding, Query, Defaults).Success?
    ensures EntryIds(RetrieveRelevantMemory(Example, Engine, NoEmbedding, Query, Defaults).value) == ["a", "b"]
  {
    ExampleTopIds();
    RowidOrderWins(Example, Engine, NoEmbedding, Query, Defaults);
  }

  /** Whatever the store, the backend and the query: with "a" stored
      before "b" and "b" ranked first, the retrieval lists "a" first. */
  lemma RowidOrderWins(st: Store, backend: SearchBackend, embed: Embedder, query: string, opts: RetrieveOptions)
    requires Valid(st) && st.rowOrder == ["a", "b"]
    requires FusedTop(st, backend, embed, query, opts).Success?
    requires Ids(FusedTop(st, backend, embed, query, opts).value) == ["b", "a"]
    ensures RetrieveRelevantMemory(st, backend, embed, query, opts).Success?
    ensures EntryIds(RetrieveRelevantMemory(st, backend, embed, query, opts).value) == ["a", "b"]
  {
    ScanKeepsStoredOrder();
  }

  lemma ScanKeepsStoredOrder()
    ensures Keep(["a", "b"], ToSet(["b", "a"])) == ["a", "b"]
  {
    assert ToSet(["b", "a"]) == {"a", "b"};
    assert Keep(["a", "b"], {"a", "b"}) == ["a", "b"];
  }

  /** The corrected retrieval follows the ranking: "b" first. */
  lemma RankedListsRankOrder()
    ensures Valid(Example)
    ensures RetrieveRanked(Example, Engine, NoEmbedding, Query, Defaults).Success?
    ensures EntryIds(RetrieveRanked(Example, Engine, NoEmbedding, Query, Defaults).value) == ["b", "a"]
  {
    ExampleTopIds();
  }
}

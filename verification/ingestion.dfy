/** Ingestion (src/ingestion/index.ts): deriving a summary, choosing the
    text to embed, embedding it if the provider can, and one insert. The id
    and the timestamp, which the source draws from the clock and a random
    source, are parameters. */
module Ingestion {
  import opened Wrappers
  import opened Seqs
  import opened Text
  import opened MemoryTypes
  import opened MemoryStore
  import opened Embeddings

  const SummaryMaxChars: nat := 500
  const EmbedInputMaxChars: nat := 8191

  /** `text?.trim()` is truthy: the text is present and not all whitespace. */
  predicate HasText(text: Option<string>) {
    text.Some? && !AllSpace(text.value)
  }

  /** `summaryFromRaw`: the trimmed explicit summary when it has any text,
      else the trimmed raw content, cut to 500 characters. */
  function SummaryFromRaw(raw: string, explicit: Option<string>): (r: string)
    ensures var source := Trim(if HasText(explicit) then explicit.value else raw);
      && r <= source
      && |r| == if |source| < SummaryMaxChars then |source| else SummaryMaxChars
    ensures r == [] <==> !HasText(explicit) && AllSpace(raw)
    ensures r != [] ==> !IsSpace(r[0])
  {
    if explicit.Some? && Trim(explicit.value) != [] then Take(Trim(explicit.value), SummaryMaxChars)
    else Take(Trim(raw), SummaryMaxChars)
  }

  /** The text handed to the embedder: the raw content when the summary is
      at least as long, else summary, newline and raw content cut to 8191
      characters. */
  function EmbeddingInput(summary: string, raw: string): (t: string)
    ensures |summary| >= |raw| ==> t == raw
    ensures |summary| < |raw| ==> t <= summary + "\n" + raw
    ensures |summary| < |raw| ==>
      |t| == if |summary| + 1 + |raw| < EmbedInputMaxChars then |summary| + 1 + |raw| else EmbedInputMaxChars
  {
    if |summary| >= |raw| then raw else Take(summary + "\n" + raw, EmbedInputMaxChars)
  }

  datatype Added = Added(store: Store, id: string)

  /** The record `addMemory` builds for `params` under `id` and `timestamp`. */
  function NewRecord(embed: Embedder, id: string, timestamp: int, params: AddMemoryParams): MemoryEntry {
    var summary := SummaryFromRaw(params.content, params.summary);
    MemoryEntry(id, timestamp, params.fileRefs.GetOr([]), summary, params.content, params.tags.GetOr([]),
                params.kind, embed(EmbeddingInput(summary, params.content)))
  }

  /** `addMemory`: one insert of the new record, with the embedding absent
      when the provider throws; the only failure is the insert's own. */
  function AddMemory(st: Store, embed: Embedder, id: string, timestamp: int, params: AddMemoryParams)
    : (r: Result<Added, StoreError>)
    ensures r.Failure? <==> id in st.records
    ensures r.Failure? ==> r.error == DuplicateId(id)
    ensures r.Success? ==> r.value.id == id
    ensures r.Success? ==> r.value.store.records.Keys == st.records.Keys + {id}
    ensures r.Success? ==> forall k | k in st.records :: r.value.store.records[k] == st.records[k]
    ensures r.Success? ==> var e := r.value.store.records[id];
      && e.raw == params.content
      && e.kind == params.kind
      && e.timestamp == timestamp
      && e.tags == (if params.tags.Some? then params.tags.value else [])
      && e.fileRefs == (if params.fileRefs.Some? then params.fileRefs.value else [])
      && e.summary == SummaryFromRaw(params.content, params.summary)
      && e.embedding == embed(EmbeddingInput(e.summary, params.content))
  {
    var e := NewRecord(embed, id, timestamp, params);
    ParseTypeName(params.kind);
    match InsertMemory(st, id, TypeName(params.kind), timestamp, e.fileRefs, e.summary, e.raw, e.tags, e.embedding)
    case Failure(err) => Failure(err)
    case Success(st') => Success(Added(st', id))
  }

  /** Adding keeps the store invariant. */
  lemma AddPreservesValid(st: Store, embed: Embedder, id: string, timestamp: int, params: AddMemoryParams)
    requires Valid(st)
    ensures AddMemory(st, embed, id, timestamp, params).Success? ==> Valid(AddMemory(st, embed, id, timestamp, params).value.store)
  {
    var e := NewRecord(embed, id, timestamp, params);
    if id !in st.records {
      ParseTypeName(params.kind);
      InsertPreservesValid(st, id, TypeName(params.kind), timestamp, e.fileRefs, e.summary, e.raw, e.tags, e.embedding);
    }
  }

  /** A provider that cannot embed does not stop the insert: the record is
      stored without an embedding and is in the full-text index. */
  lemma AddWithoutEmbedding(st: Store, id: string, timestamp: int, params: AddMemoryParams)
    requires Valid(st) && id !in st.records
    ensures AddMemory(st, LocalEmbedder, id, timestamp, params).Success?
    ensures var added := AddMemory(st, LocalEmbedder, id, timestamp, params).value;
      && GetById(added.store, id).Some?
      && GetById(added.store, id).value.embedding.None?
      && id in added.store.fts
      && added.store.fts[id].raw == params.content
  {
    AddPreservesValid(st, LocalEmbedder, id, timestamp, params);
  }

  /** Short, unpadded content with no explicit summary is embedded as is. */
  lemma ShortContentEmbeddedAsIs(content: string)
    requires 0 < |content| <= SummaryMaxChars
    requires !IsSpace(content[0]) && !IsSpace(content[|content| - 1])
    ensures SummaryFromRaw(content, None) == content
    ensures EmbeddingInput(SummaryFromRaw(content, None), content) == content
  {
    TrimUnpadded(content);
  }
}

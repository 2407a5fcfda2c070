/** Tool dispatch (src/mcp/tools.ts `callTool`): argument parsing with the
    schema's constraints, the four memory tools, and the conversion of every
    failure into an error response. */
module Tools {
  import opened Wrappers
  import opened Seqs
  import opened MemoryTypes
  import opened MemoryStore
  import opened Embeddings
  import opened Hybrid
  import opened Compress
  import opened Ingestion
  import opened Engine

  const SearchTool: string := "memory_search"
  const AddTool: string := "memory_add"
  const DeleteTool: string := "memory_delete"
  const StatsTool: string := "memory_stats"
  const MaxSearchLimit: int := 50
  const NoResultsText: string := "No relevant memories found."
  const MissingIdsText: string := "Either id or ids required"

  /** The arguments of a call, each field absent or of the type the schema
      asks for. */
  datatype ToolArgs = ToolArgs(
    query: Option<string>,
    limit: Option<int>,
    types: Option<seq<string>>,
    memType: Option<string>,
    content: Option<string>,
    tags: Option<seq<string>>,
    fileRefs: Option<seq<string>>,
    id: Option<string>,
    ids: Option<seq<string>>)

  datatype SearchRequest = SearchRequest(query: string, limit: Option<int>, types: Option<seq<MemoryType>>)
  datatype AddRequest = AddRequest(kind: MemoryType, content: string, tags: Option<seq<string>>, fileRefs: Option<seq<string>>)
  datatype DeleteRequest = DeleteRequest(id: Option<string>, ids: Option<seq<string>>)

  datatype ToolError =
    | InvalidArguments(tool: string)   // the schema rejected the arguments
    | Invalid(reason: ValidationError)
    | StoreFailed(cause: StoreError)
    | MissingIds
    | UnknownTool(name: string)

  datatype Reply =
    | Text(text: string)
    | AddedJson(id: string)
    | DeletedJson(deleted: nat)
    | StatsJson(stats: Stats)
    | Failed(error: ToolError)

  datatype ToolResponse = ToolResponse(reply: Reply, isError: bool)

  datatype Outcome = Outcome(store: Store, response: ToolResponse)

  /** The text of an error reply, where the source fixes it. */
  function ErrorText(e: ToolError): Option<string> {
    match e
    case Invalid(reason) => Some(ValidationMessage(reason))
    case MissingIds => Some(MissingIdsText)
    case UnknownTool(name) => Some("Unknown tool: " + name)
    case _ => None
  }

  /** Every name of a list parsed as a kind, or None if one is not a kind. */
  function ParseTypes(names: seq<string>): (r: Option<seq<MemoryType>>)
    ensures r.Some? <==> forall i | 0 <= i < |names| :: ParseType(names[i]).Some?
    ensures r.Some? ==> |r.value| == |names| && forall i | 0 <= i < |names| :: TypeName(r.value[i]) == names[i]
  {
    if |names| == 0 then Some([])
    else
      match ParseType(names[0])
      case None => None
      case Some(t) =>
        match ParseTypes(names[1..])
        case None => None
        case Some(ts) => Some([t] + ts)
  }

  /** The `memory_search` schema: a string query, an optional limit in
      [1, 50] and an optional list of kinds. */
  function ParseSearch(args: ToolArgs): (r: Result<SearchRequest, ToolError>)
    ensures r.Success? <==>
      && args.query.Some?
      && (args.limit.None? || 1 <= args.limit.value <= MaxSearchLimit)
      && (args.types.None? || ParseTypes(args.types.value).Some?)
    ensures r.Success? ==> r.value.query == args.query.value && r.value.limit == args.limit
    ensures r.Success? ==> r.value.types == if args.types.None? then None else ParseTypes(args.types.value)
    ensures r.Failure? ==> r.error == InvalidArguments(SearchTool)
  {
    if args.query.None? then Failure(InvalidArguments(SearchTool))
    else if args.limit.Some? && !(1 <= args.limit.value <= MaxSearchLimit) then Failure(InvalidArguments(SearchTool))
    else if args.types.None? then Success(SearchRequest(args.query.value, args.limit, None))
    else
      match ParseTypes(args.types.value)
      case None => Failure(InvalidArguments(SearchTool))
      case Some(ts) => Success(SearchRequest(args.query.value, args.limit, Some(ts)))
  }

  /** The `memory_add` schema: one of the three kinds and a string content. */
  function ParseAdd(args: ToolArgs): (r: Result<AddRequest, ToolError>)
    ensures r.Success? <==> args.memType.Some? && ParseType(args.memType.value).Some? && args.content.Some?
    ensures r.Success? ==>
      && TypeName(r.value.kind) == args.memType.value
      && r.value.content == args.content.value
      && r.value.tags == args.tags
      && r.value.fileRefs == args.fileRefs
    ensures r.Failure? ==> r.error == InvalidArguments(AddTool)
  {
    if args.memType.None? || args.content.None? then Failure(InvalidArguments(AddTool))
    else
      match ParseType(args.memType.value)
      case None => Failure(InvalidArguments(AddTool))
      case Some(t) => Success(AddRequest(t, args.content.value, args.tags, args.fileRefs))
  }

  /** The ids `memory_delete` acts on: `[id]` when `id` is a non-empty
      string, otherwise `ids`, otherwise none. */
  function DeleteTargets(req: DeleteRequest): (r: seq<string>)
    ensures req.id.Some? && req.id.value != "" ==> r == [req.id.value]
    ensures (req.id.None? || req.id.value == "") ==> r == if req.ids.Some? then req.ids.value else []
  {
    if req.id.Some? && req.id.value != "" then [req.id.value] else req.ids.GetOr([])
  }

  /** The four tool names are pairwise different (they differ at index 7). */
  lemma ToolNamesDiffer()
    ensures SearchTool != AddTool && SearchTool != DeleteTool && SearchTool != StatsTool
    ensures AddTool != DeleteTool && AddTool != StatsTool && DeleteTool != StatsTool
  {
    assert SearchTool[7] == 's' && AddTool[7] == 'a' && DeleteTool[7] == 'd';
    assert StatsTool[7] == 's' && StatsTool[8] == 't' && SearchTool[8] == 'e';
  }

  function Ok(st: Store, reply: Reply): Outcome {
    Outcome(st, ToolResponse(reply, false))
  }

  function Error(st: Store, e: ToolError): Outcome {
    Outcome(st, ToolResponse(Failed(e), true))
  }

  /** The options `memory_search` retrieves with: the limit, 10 by default,
      and the kinds. */
  function SearchOptions(req: SearchRequest): RetrieveOptions {
    RetrieveOptions(Some(req.limit.GetOr(DefaultLimit)), req.types)
  }

  /** The reply to a finished retrieval: the packed context with the default
      budget, or the fixed sentence when nothing was retrieved. */
  function SearchReply(st: Store, retrieved: Result<seq<MemoryEntry>, StoreError>): (r: Outcome)
    ensures r.store == st
    ensures r.response.isError <==> retrieved.Failure?
    ensures retrieved.Failure? ==> r == Error(st, StoreFailed(retrieved.error))
    ensures retrieved.Success? ==>
      r.response.reply == Text(if retrieved.value == [] then NoResultsText else ContextText(retrieved.value, DefaultMaxTokens))
    ensures !r.response.isError ==> r.response.reply.Text? && r.response.reply.text != ""
  {
    match retrieved
    case Failure(e) => Error(st, StoreFailed(e))
    case Success(entries) =>
      ContextEmptyIff(entries, DefaultMaxTokens);
      var packed := ContextText(entries, DefaultMaxTokens);
      Ok(st, Text(if packed == "" then NoResultsText else packed))
  }

  /** `memory_search` as written: the entries packed are those of
      `retrieveRelevantMemory`, in the order it returns them. */
  function Search(st: Store, backend: SearchBackend, embed: Embedder, req: SearchRequest): (r: Outcome)
    requires Valid(st)
    ensures r.store == st
    ensures var retrieved := RetrieveRelevantMemory(st, backend, embed, req.query, SearchOptions(req));
      && (r.response.isError <==> retrieved.Failure?)
      && (retrieved.Failure? ==> r == Error(st, StoreFailed(retrieved.error)))
      && (retrieved.Success? ==>
            r.response.reply == Text(if retrieved.value == [] then NoResultsText else ContextText(retrieved.value, DefaultMaxTokens)))
  {
    SearchReply(st, RetrieveRelevantMemory(st, backend, embed, req.query, SearchOptions(req)))
  }

  /** `memory_search` over the corrected retrieval, which keeps the fused
      ranking: it fails exactly when the source's search fails, and packs
      the same records, best first. */
  function SearchRanked(st: Store, backend: SearchBackend, embed: Embedder, req: SearchRequest): (r: Outcome)
    requires Valid(st)
    ensures r.store == st
    ensures r.response.isError <==> Search(st, backend, embed, req).response.isError
    ensures !r.response.isError ==>
      var ranked := RetrieveRanked(st, backend, embed, req.query, SearchOptions(req)).value;
      var scanned := RetrieveRelevantMemory(st, backend, embed, req.query, SearchOptions(req)).value;
      && (forall e :: e in ranked <==> e in scanned)
      && r.response.reply == Text(if ranked == [] then NoResultsText else ContextText(ranked, DefaultMaxTokens))
  {
    RankedHasSameRecords(st, backend, embed, req.query, SearchOptions(req));
    SearchReply(st, RetrieveRanked(st, backend, embed, req.query, SearchOptions(req)))
  }

  /** `memory_add`: validation, then one insert. */
  function Add(st: Store, embed: Embedder, newId: string, now: int, req: AddRequest): (r: Outcome)
    requires Valid(st)
    ensures Valid(r.store)
    ensures r.response.isError ==> r.store == st
    ensures ValidateAddMemory(req.content, req.tags).Some? ==>
      r == Error(st, Invalid(ValidateAddMemory(req.content, req.tags).value))
    ensures !r.response.isError <==> ValidateAddMemory(req.content, req.tags).None? && newId !in st.records
    ensures !r.response.isError ==>
      && r.response.reply == AddedJson(newId)
      && r.store.records.Keys == st.records.Keys + {newId}
      && r.store.records[newId].raw == req.content
  {
    match ValidateAddMemory(req.content, req.tags)
    case Some(v) => Error(st, Invalid(v))
    case None =>
      var params := AddMemoryParams(req.kind, req.content, req.tags, req.fileRefs, None);
      AddPreservesValid(st, embed, newId, now, params);
      match AddMemory(st, embed, newId, now, params)
      case Failure(e) => Error(st, StoreFailed(e))
      case Success(added) => Ok(added.store, AddedJson(added.id))
  }

  /** `memory_delete`: an error for an empty target list, else the delete
      and its change count. */
  function Delete(st: Store, req: DeleteRequest): (r: Outcome)
    requires Valid(st)
    ensures Valid(r.store)
    ensures r.response.isError <==> |DeleteTargets(req)| == 0
    ensures r.response.isError ==> r == Error(st, MissingIds)
    ensures !r.response.isError ==>
      && r.store.records.Keys == st.records.Keys - ToSet(DeleteTargets(req))
      && r.response.reply == DeletedJson(|st.records.Keys * ToSet(DeleteTargets(req))|)
  {
    var ids := DeleteTargets(req);
    if |ids| == 0 then Error(st, MissingIds)
    else
      DeletePreservesValid(st, ids);
      var d := DeleteByIds(st, ids);
      Ok(d.store, DeletedJson(d.changes))
  }

  /** `callTool`: dispatch on the tool name. The id and the time a new
      record gets are parameters. */
  function CallTool(name: string, args: ToolArgs, st: Store, backend: SearchBackend, embed: Embedder, newId: string, now: int)
    : (r: Outcome)
    requires Valid(st)
    ensures Valid(r.store)
    ensures r.response.isError ==> r.store == st && r.response.reply.Failed?
    ensures r.store != st ==> name == AddTool || name == DeleteTool
    ensures name !in {SearchTool, AddTool, DeleteTool, StatsTool} ==> r == Error(st, UnknownTool(name))
    ensures name == StatsTool ==> r == Ok(st, StatsJson(GetStats(st)))
    ensures name == SearchTool ==> r == match ParseSearch(args)
      case Failure(e) => Error(st, e)
      case Success(req) => Search(st, backend, embed, req)
    ensures name == AddTool ==> r == match ParseAdd(args)
      case Failure(e) => Error(st, e)
      case Success(req) => Add(st, embed, newId, now, req)
    ensures name == DeleteTool ==> r == Delete(st, DeleteRequest(args.id, args.ids))
  {
    if name == SearchTool then
      match ParseSearch(args)
      case Failure(e) => Error(st, e)
      case Success(req) => Search(st, backend, embed, req)
    else if name == AddTool then
      match ParseAdd(args)
      case Failure(e) => Error(st, e)
      case Success(req) => Add(st, embed, newId, now, req)
    else if name == DeleteTool then
      Delete(st, DeleteRequest(args.id, args.ids))
    else if name == StatsTool then
      Ok(st, StatsJson(GetStats(st)))
    else
      Error(st, UnknownTool(name))
  }

  /** The names of a list of kinds. */
  function TypeNames(ts: seq<MemoryType>): (r: seq<string>)
    ensures |r| == |ts|
    ensures forall i | 0 <= i < |ts| :: r[i] == TypeName(ts[i])
  {
    if |ts| == 0 then [] else [TypeName(ts[0])] + TypeNames(ts[1..])
  }

  /** Parsing the names of kinds gives the kinds back. */
  lemma {:induction false} ParseTypeNames(ts: seq<MemoryType>)
    ensures ParseTypes(TypeNames(ts)) == Some(ts)
  {
    if |ts| > 0 {
      ParseTypeName(ts[0]);
      ParseTypeNames(ts[1..]);
      assert TypeNames(ts)[1..] == TypeNames(ts[1..]);
      assert [ts[0]] + ts[1..] == ts;
    }
  }

  /** A search limit outside [1, 50] is an error response and the store is
      untouched. */
  lemma SearchLimitRejected(args: ToolArgs, st: Store, backend: SearchBackend, embed: Embedder, newId: string, now: int)
    requires Valid(st)
    requires args.limit.Some? && (args.limit.value < 1 || args.limit.value > MaxSearchLimit)
    ensures CallTool(SearchTool, args, st, backend, embed, newId, now) == Error(st, InvalidArguments(SearchTool))
  {
  }

  /** Leaving the search limit out is the same as asking for 10. */
  lemma SearchLimitDefault(args: ToolArgs, st: Store, backend: SearchBackend, embed: Embedder, newId: string, now: int)
    requires Valid(st)
    ensures CallTool(SearchTool, args.(limit := None), st, backend, embed, newId, now)
         == CallTool(SearchTool, args.(limit := Some(DefaultLimit)), st, backend, embed, newId, now)
  {
    var a0 := args.(limit := None);
    var a1 := args.(limit := Some(DefaultLimit));
    ParseDefaultLimit(args);
    if ParseSearch(a0).Success? {
      SearchDefaultLimit(st, backend, embed, ParseSearch(a0).value);
    }
  }

  lemma ParseDefaultLimit(args: ToolArgs)
    ensures ParseSearch(args.(limit := None)).Success? <==> ParseSearch(args.(limit := Some(DefaultLimit))).Success?
    ensures ParseSearch(args.(limit := None)).Failure? ==>
      ParseSearch(args.(limit := None)) == ParseSearch(args.(limit := Some(DefaultLimit)))
    ensures ParseSearch(args.(limit := None)).Success? ==>
      ParseSearch(args.(limit := Some(DefaultLimit))).value == ParseSearch(args.(limit := None)).value.(limit := Some(DefaultLimit))
  {
  }

  lemma SearchDefaultLimit(st: Store, backend: SearchBackend, embed: Embedder, req: SearchRequest)
    requires Valid(st)
    requires req.limit.None?
    ensures Search(st, backend, embed, req) == Search(st, backend, embed, req.(limit := Some(DefaultLimit)))
  {
    assert SearchOptions(req) == SearchOptions(req.(limit := Some(DefaultLimit)));
  }

  /** A successful search replies "No relevant memories found." exactly when
      nothing was retrieved, and that reply is not an error. */
  lemma NoResultsReply(args: ToolArgs, st: Store, backend: SearchBackend, embed: Embedder, newId: string, now: int)
    requires Valid(st)
    requires ParseSearch(args).Success?
    requires RetrieveRelevantMemory(st, backend, embed, args.query.value, SearchOptions(ParseSearch(args).value)).Success?
    ensures CallTool(SearchTool, args, st, backend, embed, newId, now).response == ToolResponse(Text(NoResultsText), false)
        <==> RetrieveRelevantMemory(st, backend, embed, args.query.value, SearchOptions(ParseSearch(args).value)).value == []
  {
    var req := ParseSearch(args).value;
    var entries := RetrieveRelevantMemory(st, backend, embed, req.query, SearchOptions(req)).value;
    if entries != [] {
      var packed := ContextText(entries, DefaultMaxTokens);
      assert packed[0] == '[' by {
        FirstEntryKept(entries, DefaultMaxTokens);
        assert Render(entries[0])[0] == '[';
      }
      assert NoResultsText[0] != '[';
    }
  }

  /** `memory_delete` with neither a non-empty `id` nor any `ids` is an
      error naming the missing arguments, and deletes nothing. */
  lemma DeleteWithoutIds(args: ToolArgs, st: Store, backend: SearchBackend, embed: Embedder, newId: string, now: int)
    requires Valid(st)
    requires args.id.None? || args.id.value == ""
    requires args.ids.None? || args.ids.value == []
    ensures CallTool(DeleteTool, args, st, backend, embed, newId, now) == Error(st, MissingIds)
    ensures ErrorText(MissingIds) == Some("Either id or ids required")
  {
  }

  /** A non-empty `id` wins over `ids`: exactly that one record goes. */
  lemma DeletePrefersId(args: ToolArgs, st: Store, backend: SearchBackend, embed: Embedder, newId: string, now: int)
    requires Valid(st)
    requires args.id.Some? && args.id.value != ""
    ensures var r := CallTool(DeleteTool, args, st, backend, embed, newId, now);
      && !r.response.isError
      && r.store.records.Keys == st.records.Keys - {args.id.value}
      && r.response.reply == DeletedJson(if args.id.value in st.records then 1 else 0)
  {
    var req := DeleteRequest(args.id, args.ids);
    ToolNamesDiffer();
    assert CallTool(DeleteTool, args, st, backend, embed, newId, now) == Delete(st, req);
    DeleteOne(st, req);
  }

  lemma DeleteOne(st: Store, req: DeleteRequest)
    requires Valid(st)
    requires req.id.Some? && req.id.value != ""
    ensures var r := Delete(st, req);
      && !r.response.isError
      && r.store.records.Keys == st.records.Keys - {req.id.value}
      && r.response.reply == DeletedJson(if req.id.value in st.records then 1 else 0)
  {
    var id := req.id.value;
    assert DeleteTargets(req) == [id];
    assert ToSet([id]) == {id};
    assert |st.records.Keys * {id}| == if id in st.records then 1 else 0 by {
      if id in st.records {
        assert st.records.Keys * {id} == {id};
      } else {
        assert st.records.Keys * {id} == {};
      }
    }
  }

  /** Content over the limit is rejected before anything is stored. */
  lemma OversizeAddRejected(args: ToolArgs, st: Store, backend: SearchBackend, embed: Embedder, newId: string, now: int)
    requires Valid(st)
    requires ParseAdd(args).Success? && |args.content.value| > MaxContentLength
    ensures CallTool(AddTool, args, st, backend, embed, newId, now) == Error(st, Invalid(ContentTooLong))
    ensures ErrorText(Invalid(ContentTooLong)) == Some("Content too long (max 100000 chars)")
  {
  }

  /** A successful `memory_add` stores exactly one new record under the id
      it reports, with the content as its raw text and the embedding the
      embedder gave, and leaves every other record as it was. */
  lemma AddInsertsOnce(args: ToolArgs, st: Store, backend: SearchBackend, embed: Embedder, newId: string, now: int)
    requires Valid(st)
    requires ParseAdd(args).Success?
    requires ValidateAddMemory(args.content.value, args.tags).None? && newId !in st.records
    ensures var r := CallTool(AddTool, args, st, backend, embed, newId, now);
      && r.response == ToolResponse(AddedJson(newId), false)
      && r.store.records.Keys == st.records.Keys + {newId}
      && (forall k | k in st.records :: r.store.records[k] == st.records[k])
      && r.store.records[newId].raw == args.content.value
      && r.store.records[newId].timestamp == now
      && r.store.records[newId].embedding == embed(EmbeddingInput(r.store.records[newId].summary, args.content.value))
  {
  }
}

/** The record kept by the store and the ingestion request. */
module MemoryTypes {
  import opened Wrappers

  /** The closed set of memory kinds; the table's CHECK constraint admits no other. */
  datatype MemoryType = SessionMemory | LongTermMemory | ProjectMemory

  const AllTypes: seq<MemoryType> := [SessionMemory, LongTermMemory, ProjectMemory]

  /** The name a kind is stored and transmitted under. */
  function TypeName(t: MemoryType): string {
    match t
    case SessionMemory => "session_memory"
    case LongTermMemory => "long_term_memory"
    case ProjectMemory => "project_memory"
  }

  /** Recognises a kind by name: exactly the three names are accepted, each
      as the kind it names. */
  function ParseType(s: string): (r: Option<MemoryType>)
    ensures r.Some? ==> TypeName(r.value) == s
    ensures r.None? <==> s !in {"session_memory", "long_term_memory", "project_memory"}
  {
    if s == "session_memory" then Some(SessionMemory)
    else if s == "long_term_memory" then Some(LongTermMemory)
    else if s == "project_memory" then Some(ProjectMemory)
    else None
  }

  /** Names and kinds are in one-to-one correspondence. */
  lemma ParseTypeName(t: MemoryType)
    ensures ParseType(TypeName(t)) == Some(t)
  {
  }

  /** A stored memory. `embedding` is absent when embedding failed. */
  datatype MemoryEntry = MemoryEntry(
    id: string,
    timestamp: int,
    fileRefs: seq<string>,
    summary: string,
    raw: string,
    tags: seq<string>,
    kind: MemoryType,
    embedding: Option<seq<real>>)

  /** The caller's request to store a memory; absent optional fields are `None`. */
  datatype AddMemoryParams = AddMemoryParams(
    kind: MemoryType,
    content: string,
    tags: Option<seq<string>>,
    fileRefs: Option<seq<string>>,
    summary: Option<string>)
}

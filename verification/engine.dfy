/** Request validation for `memory_add` (src/mcp/engine.ts). */
module Engine {
  import opened Wrappers

  const MaxContentLength: nat := 100000
  const MaxTags: nat := 50

  datatype ValidationError = ContentTooLong | TooManyTags

  /** The message of the error `validateAddMemory` throws. */
  function ValidationMessage(e: ValidationError): string {
    match e
    case ContentTooLong => "Content too long (max 100000 chars)"
    case TooManyTags => "Too many tags (max 50)"
  }

  /** `validateAddMemory`: None when the request passes, else the error it
      throws. The content check comes first; absent tags are not checked. */
  function ValidateAddMemory(content: string, tags: Option<seq<string>>): (r: Option<ValidationError>)
    ensures r.None? <==> |content| <= MaxContentLength && (tags.None? || |tags.value| <= MaxTags)
    ensures |content| > MaxContentLength ==> r == Some(ContentTooLong)
    ensures r == Some(TooManyTags) <==> |content| <= MaxContentLength && tags.Some? && |tags.value| > MaxTags
  {
    if |content| > MaxContentLength then Some(ContentTooLong)
    else if tags.Some? && |tags.value| > MaxTags then Some(TooManyTags)
    else None
  }
}

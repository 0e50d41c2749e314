/**
 * The request/response boundary of the hosted text-generation service
 * (`client.responses.create`). The service itself is not modelled: callers receive it
 * as a function from a request to an outcome.
 */
module Generation {
  import opened Wrappers

  datatype Role = System | User

  /** One entry of the `input` list. */
  datatype Turn = Turn(role: Role, content: string)

  /** A tool entry: `{ type: "file_search", vector_store_ids: [...] }`. */
  datatype Tool = FileSearch(vectorStoreIds: seq<string>)

  datatype ModelRequest = ModelRequest(model: string, tools: seq<Tool>, input: seq<Turn>)

  /**
   * What awaiting the call gives: a thrown error (carrying the text the route reports
   * as `details`), or a response whose `output_text` may be missing.
   */
  datatype Outcome = Failed(details: string) | Completed(outputText: Option<string>)
}

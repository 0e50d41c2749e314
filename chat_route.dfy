/**
 * The `POST` handler of the chat route: three guards checked in order (API key, vector
 * store id, message), then one call to the text-generation service with the file-search
 * tool bound to the configured store, and a reply passed through `stripMarkdown`.
 *
 * Environment variables are parameters (`None` for an unset variable), the request
 * body is the outcome of `req.json()`, and the service is a function from the request
 * it is sent to the outcome of awaiting it.
 */
module ChatRoute {
  import opened Wrappers
  import opened Sequences
  import opened Json
  import opened JsString
  import opened Generation
  import opened MarkdownSanitizer

  /** The outcome of `req.json()`: a JSON value, or a body that is not JSON. */
  datatype RequestBody = Unreadable | Body(value: Json)

  /** The JSON body of the response: `{ ok: false, error, details? }` or `{ ok: true, reply }`. */
  datatype ResponseBody =
    | Failure(error: string, details: Option<string>)
    | Replied(reply: string)

  datatype Response = Response(status: nat, body: ResponseBody)

  const MissingKeyError := "Missing OPENAI_API_KEY env var"
  const MissingStoreError := "Missing VECTOR_STORE_ID env var"
  const MissingMessageError := "Missing message"
  const ChatFailedError := "Chat failed"

  /** The model the route asks for. */
  const ChatModel := "gpt-4o-mini"

  /** The system instruction as the template literal spells it, before `.trim()`. */
  const RawSystemPrompt :=
    "\nYou are a proposal assistant.\n\nCRITICAL TOOL RULE:\n"
    + "- You MUST use file_search to answer questions about uploaded documents.\n"
    + "- Use ONLY retrieved text from the uploaded documents.\n"
    + "- If nothing is found, say exactly: I searched the uploaded documents but found no matching text.\n"
    + "\nCRITICAL OUTPUT RULE:\n"
    + "- Output PLAIN TEXT ONLY.\n"
    + "- Do NOT use Markdown (no bullets, no headings, no bold, no code blocks).\n"
    + "- Use short paragraphs with normal sentences.\n"

  /** The system instruction the route sends. */
  const SystemPrompt: string := Trim(RawSystemPrompt)

  /** `!value` is false: the variable is set and not empty. */
  predicate IsConfigured(v: Option<string>)
    ensures IsConfigured(v) <==> v != None && v != Some("")
  {
    v.Some? && v.value != ""
  }

  /** `await req.json().catch(() => ({}))`: a body that is not JSON reads as an empty object. */
  function ParsedBody(body: RequestBody): (v: Json)
    ensures v == JObject(map[]) <==> body == Unreadable || body == Body(JObject(map[]))
    ensures body.Body? ==> v == body.value
  {
    if body.Unreadable? then JObject(map[]) else body.value
  }

  /**
   * `body?.message`, when it passes `!message || typeof message !== "string"`: the
   * message is accepted exactly when it is a string other than `""`.
   */
  function AcceptedMessage(body: RequestBody): (m: Option<string>)
    ensures m.Some? ==> m.value != "" && OptionalMember(ParsedBody(body), "message") == Defined(JString(m.value))
    ensures m.None? ==> forall s :: OptionalMember(ParsedBody(body), "message") == Defined(JString(s)) ==> s == ""
  {
    match OptionalMember(ParsedBody(body), "message")
    case Defined(JString(s)) => if s == "" then None else Some(s)
    case _ => None
  }

  /** Where the guards leave the request: rejected with a status and error, or accepted. */
  datatype Guard = Proceed(storeId: string, message: string) | Reject(status: nat, error: string)

  /**
   * The early returns of `POST`, in their order: the API key first, then the vector
   * store id, then the message.
   */
  function CheckRequest(apiKey: Option<string>, storeId: Option<string>, body: RequestBody): (g: Guard)
    ensures g.Proceed? <==> IsConfigured(apiKey) && IsConfigured(storeId) && AcceptedMessage(body).Some?
    ensures g.Proceed? ==> g.storeId == storeId.value && g.message == AcceptedMessage(body).value
    ensures !IsConfigured(apiKey) ==> g == Reject(500, MissingKeyError)
    ensures IsConfigured(apiKey) && !IsConfigured(storeId) ==> g == Reject(500, MissingStoreError)
    ensures IsConfigured(apiKey) && IsConfigured(storeId) && AcceptedMessage(body).None?
      ==> g == Reject(400, MissingMessageError)
  {
    if !IsConfigured(apiKey) then Reject(500, MissingKeyError)
    else if !IsConfigured(storeId) then Reject(500, MissingStoreError)
    else match AcceptedMessage(body)
      case None => Reject(400, MissingMessageError)
      case Some(message) => Proceed(storeId.value, message)
  }

  /** The request sent to the service: one file-search tool over the store, system turn then user turn. */
  function ChatRequest(storeId: string, message: string): (r: ModelRequest)
    ensures r.model == ChatModel
    ensures |r.tools| == 1 && r.tools[0].vectorStoreIds == [storeId]
    ensures |r.input| == 2 && r.input[0] == Turn(System, SystemPrompt) && r.input[1] == Turn(User, message)
  {
    ModelRequest(ChatModel, [FileSearch([storeId])], [Turn(System, SystemPrompt), Turn(User, message)])
  }

  /** `POST(req)`, with the environment, the parsed body and the service as parameters. */
  function Post(apiKey: Option<string>, storeId: Option<string>, body: RequestBody,
                service: ModelRequest -> Outcome): (r: Response)
    ensures r.status == 200 <==> r.body.Replied?
    ensures r.status == 200 || r.status == 400 || r.status == 500
    ensures r.status == 200 <==>
      (CheckRequest(apiKey, storeId, body).Proceed?
       && service(ChatRequest(storeId.value, AcceptedMessage(body).value)).Completed?)
  {
    match CheckRequest(apiKey, storeId, body)
    case Reject(status, error) => Response(status, Failure(error, None))
    case Proceed(store, message) =>
      match service(ChatRequest(store, message))
      case Failed(details) => Response(500, Failure(ChatFailedError, Some(details)))
      case Completed(outputText) => Response(200, Replied(StripMarkdown(outputText.GetOr(""))))
  }

  /** A request the guards reject gets that guard's status and error, and the service is never asked. */
  lemma RejectedBeforeService(apiKey: Option<string>, storeId: Option<string>, body: RequestBody,
                              service: ModelRequest -> Outcome, other: ModelRequest -> Outcome)
    requires CheckRequest(apiKey, storeId, body).Reject?
    ensures var g := CheckRequest(apiKey, storeId, body);
      Post(apiKey, storeId, body, service) == Response(g.status, Failure(g.error, None))
    ensures Post(apiKey, storeId, body, service) == Post(apiKey, storeId, body, other)
  {
  }

  /** The only request the handler sends is `ChatRequest` for the configured store and the message. */
  lemma OnlyChatRequestSent(apiKey: Option<string>, storeId: Option<string>, body: RequestBody,
                            service: ModelRequest -> Outcome, other: ModelRequest -> Outcome)
    requires CheckRequest(apiKey, storeId, body).Proceed?
    requires var g := CheckRequest(apiKey, storeId, body);
      service(ChatRequest(g.storeId, g.message)) == other(ChatRequest(g.storeId, g.message))
    ensures Post(apiKey, storeId, body, service) == Post(apiKey, storeId, body, other)
  {
  }

  /** A missing API key is reported whatever else is wrong with the request. */
  lemma KeyCheckedFirst(storeId: Option<string>, body: RequestBody, service: ModelRequest -> Outcome)
    ensures Post(None, storeId, body, service) == Response(500, Failure(MissingKeyError, None))
    ensures Post(Some(""), storeId, body, service) == Response(500, Failure(MissingKeyError, None))
  {
  }

  /** With the key present, a missing store id is reported whatever the body holds. */
  lemma StoreCheckedBeforeMessage(apiKey: string, body: RequestBody, service: ModelRequest -> Outcome)
    requires apiKey != ""
    ensures Post(Some(apiKey), None, body, service) == Response(500, Failure(MissingStoreError, None))
    ensures Post(Some(apiKey), Some(""), body, service) == Response(500, Failure(MissingStoreError, None))
  {
  }

  /** A body that is not JSON is answered as an empty object is: with "Missing message" once configured. */
  lemma UnreadableBodyIsEmptyObject(apiKey: Option<string>, storeId: Option<string>,
                                    service: ModelRequest -> Outcome)
    ensures Post(apiKey, storeId, Unreadable, service) == Post(apiKey, storeId, Body(JObject(map[])), service)
    ensures IsConfigured(apiKey) && IsConfigured(storeId) ==>
      Post(apiKey, storeId, Unreadable, service) == Response(400, Failure(MissingMessageError, None))
  {
  }

  /** A message that is not a string, or is the empty string, is rejected with 400. */
  lemma BadMessagesRejected(apiKey: string, storeId: string, message: Json, service: ModelRequest -> Outcome)
    requires apiKey != "" && storeId != ""
    requires !message.JString? || message.s == ""
    ensures Post(Some(apiKey), Some(storeId), Body(JObject(map["message" := message])), service)
         == Response(400, Failure(MissingMessageError, None))
    ensures Post(Some(apiKey), Some(storeId), Body(JNull), service)
         == Response(400, Failure(MissingMessageError, None))
  {
  }

  /** Any non-empty string is accepted, whitespace-only ones included: nothing trims the message. */
  lemma WhitespaceMessageAccepted(message: string)
    requires message != [] && forall k :: 0 <= k < |message| ==> IsSpace(message[k])
    ensures AcceptedMessage(Body(JObject(map["message" := JString(message)]))) == Some(message)
  {
  }

  /**
   * A completed generation is answered with 200 and `stripMarkdown(output_text ?? "")`:
   * a reply that keeps every non-markup character of the output in order, has no three
   * line feeds in a row and no whitespace at either end; a missing output gives `""`.
   */
  lemma CompletedReply(apiKey: Option<string>, storeId: Option<string>, body: RequestBody,
                       service: ModelRequest -> Outcome)
    requires CheckRequest(apiKey, storeId, body).Proceed?
    requires var g := CheckRequest(apiKey, storeId, body); service(ChatRequest(g.storeId, g.message)).Completed?
    ensures var g := CheckRequest(apiKey, storeId, body);
      var out := service(ChatRequest(g.storeId, g.message)).outputText.GetOr("");
      var r := Post(apiKey, storeId, body, service);
      r.status == 200 && r.body.Replied? && r.body.reply == StripMarkdown(out)
      && IsSubsequence(r.body.reply, out)
      && VisibleText(r.body.reply) == VisibleText(out)
      && NoTripleNewline(r.body.reply)
      && (r.body.reply == [] || (!IsSpace(r.body.reply[0]) && !IsSpace(r.body.reply[|r.body.reply| - 1])))
    ensures var g := CheckRequest(apiKey, storeId, body);
      service(ChatRequest(g.storeId, g.message)).outputText.None? ==>
        Post(apiKey, storeId, body, service) == Response(200, Replied(""))
  {
    var g := CheckRequest(apiKey, storeId, body);
    var out := service(ChatRequest(g.storeId, g.message)).outputText.GetOr("");
    StripMarkdownSpec(out);
    if service(ChatRequest(g.storeId, g.message)).outputText.None? {
      assert Trim("") == "";
      assert ApplyPasses(RemovalPasses, "") == "";
    }
  }

  /** A service call that throws is answered with 500 "Chat failed" and the error's details. */
  lemma FailedCall(apiKey: Option<string>, storeId: Option<string>, body: RequestBody,
                   service: ModelRequest -> Outcome, details: string)
    requires CheckRequest(apiKey, storeId, body).Proceed?
    requires var g := CheckRequest(apiKey, storeId, body); service(ChatRequest(g.storeId, g.message)) == Failed(details)
    ensures Post(apiKey, storeId, body, service) == Response(500, Failure(ChatFailedError, Some(details)))
  {
  }
}
